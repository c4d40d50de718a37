/** The theorems about whole runs of the sample lifecycle. */
module SampleTheorems {
  import opened Common
  import opened SampleLifecycle
  import opened SampleReferences
  import opened SampleDelivery

  ghost predicate Inv(cfg: Config, s: State) {
    RefInv(cfg, s) && ConnectionsInv(cfg, s) && HistoryInv(cfg, s) && PayloadInv(s)
  }

  /** Executing the steps `run`, in this order, leads through `states`. */
  ghost predicate Path(cfg: Config, states: seq<State>, run: seq<Action>) {
    && |states| == |run| + 1
    && forall k {:trigger run[k]} :: 0 <= k < |run| ==>
         Enabled(cfg, states[k], run[k]) && states[k + 1] == Step(cfg, states[k], run[k])
  }

  /** Executing the steps `run` leads from `s` to `t`. */
  ghost predicate Runs(cfg: Config, s: State, run: seq<Action>, t: State) {
    exists states :: Path(cfg, states, run) && states[0] == s && states[|run|] == t
  }

  ghost predicate Reachable(cfg: Config, s: State) {
    exists run :: Runs(cfg, Initial(cfg), run, s)
  }

  /** A run is a first step and the rest. */
  lemma RunsFirst(cfg: Config, s: State, run: seq<Action>, t: State)
    requires Runs(cfg, s, run, t) && |run| > 0
    ensures Enabled(cfg, s, run[0]) && Runs(cfg, Step(cfg, s, run[0]), run[1..], t)
  {
    var states :| Path(cfg, states, run) && states[0] == s && states[|run|] == t;
    var rest := run[1..];
    forall k | 0 <= k < |rest|
      ensures Enabled(cfg, states[1..][k], rest[k]) && states[1..][k + 1] == Step(cfg, states[1..][k], rest[k])
    {
      assert rest[k] == run[k + 1];
    }
    assert Path(cfg, states[1..], rest);
  }

  lemma PathAppend(cfg: Config, states: seq<State>, run: seq<Action>, a: Action)
    requires Path(cfg, states, run) && Enabled(cfg, states[|run|], a)
    ensures Path(cfg, states + [Step(cfg, states[|run|], a)], run + [a])
  {
    var all, steps := states + [Step(cfg, states[|run|], a)], run + [a];
    forall k | 0 <= k < |steps| ensures Enabled(cfg, all[k], steps[k]) && all[k + 1] == Step(cfg, all[k], steps[k]) {
      if k < |run| {
        assert steps[k] == run[k];
      }
    }
  }

  lemma ReachableStep(cfg: Config, s: State, a: Action)
    requires Reachable(cfg, s) && Enabled(cfg, s, a)
    ensures Reachable(cfg, Step(cfg, s, a))
  {
    var run, states :| Path(cfg, states, run) && states[0] == Initial(cfg) && states[|run|] == s;
    PathAppend(cfg, states, run, a);
    assert Runs(cfg, Initial(cfg), run + [a], Step(cfg, s, a));
  }

  lemma InitialReachable(cfg: Config)
    ensures Reachable(cfg, Initial(cfg))
  {
    assert Path(cfg, [Initial(cfg)], []);
    assert Runs(cfg, Initial(cfg), [], Initial(cfg));
  }

  lemma InitialQueues(cfg: Config)
    ensures ConnectionsInv(cfg, Initial(cfg)) && HistoryInv(cfg, Initial(cfg)) && PayloadInv(Initial(cfg))
  {
    assert forall i: nat :: !Connected(Initial(cfg), i);
  }

  lemma InitialInv(cfg: Config)
    ensures Inv(cfg, Initial(cfg))
  {
    InitialRefs(cfg);
    InitialQueues(cfg);
  }

  lemma StepInv(cfg: Config, s: State, a: Action)
    requires Inv(cfg, s) && Enabled(cfg, s, a)
    ensures Inv(cfg, Step(cfg, s, a))
  {
    StepKeepsRefs(cfg, s, a);
    StepConnections(cfg, s, a);
    StepHistory(cfg, s, a);
    StepPayload(cfg, s, a);
  }

  lemma {:induction false} RunInv(cfg: Config, s: State, run: seq<Action>, t: State)
    requires Inv(cfg, s) && Runs(cfg, s, run, t)
    ensures Inv(cfg, t)
    decreases |run|
  {
    if |run| == 0 {
    } else {
      RunsFirst(cfg, s, run, t);
      StepInv(cfg, s, run[0]);
      RunInv(cfg, Step(cfg, s, run[0]), run[1..], t);
    }
  }

  lemma ReachableInv(cfg: Config, s: State)
    requires Reachable(cfg, s)
    ensures Inv(cfg, s)
  {
    var run :| Runs(cfg, Initial(cfg), run, s);
    InitialInv(cfg);
    RunInv(cfg, Initial(cfg), run, s);
  }

  // ---------------------------------------------------------------- reference counting

  /** The counter is the number of references, in every reachable state. */
  lemma Conservation(cfg: Config, s: State, c: nat)
    requires Reachable(cfg, s) && c < NumberOfSamples(cfg)
    ensures |s.counter| == NumberOfSamples(cfg)
    ensures s.counter[c] + s.owed[c] == Refs(s, c)
    ensures c in s.free <==> Refs(s, c) == 0
  {
    ReachableInv(cfg, s);
    assert CounterAt(s, c) == s.counter[c];
  }

  /** No decrement underflows, and what is deallocated is allocated and has lost its last reference. */
  lemma ReleaseIsSafe(cfg: Config, s: State, c: nat)
    requires Reachable(cfg, s) && s.held[c] > 0 && s.owed == multiset{}
    ensures c < |s.counter| && s.counter[c] >= 1 && c !in s.free
    ensures c in Step(cfg, s, Release(c)).free <==> Refs(s, c) == 1
  {
    ReachableInv(cfg, s);
    assert CounterAt(s, c) + s.owed[c] == Refs(s, c);
  }

  /** A chunk that the allocator hands out is never in use. */
  lemma LoanedChunkIsUnused(cfg: Config, s: State, c: nat)
    requires Reachable(cfg, s) && c in s.free
    ensures c < |s.counter| && s.counter[c] == 0 && Refs(s, c) == 0
  {
    ReachableInv(cfg, s);
    assert CounterAt(s, c) + s.owed[c] == Refs(s, c);
  }

  lemma OwedInRange(cfg: Config, s: State, c: nat)
    requires Reachable(cfg, s) && s.owed[c] > 0
    ensures c < |s.counter|
  {
    ReachableInv(cfg, s);
    assert CounterAt(s, c) + s.owed[c] == Refs(s, c);
  }

  lemma LoanInRange(cfg: Config, s: State, c: nat)
    requires Reachable(cfg, s) && s.loans[c] > 0
    ensures c < |s.memory| == |s.counter|
  {
    ReachableInv(cfg, s);
    assert Refs(s, c) > 0;
  }

  lemma InFlightInRange(cfg: Config, s: State)
    requires Reachable(cfg, s) && s.inFlight.Some?
    ensures s.inFlight.value.entry.chunk < |s.counter| && s.loans[s.inFlight.value.entry.chunk] > 0
  {
    ReachableInv(cfg, s);
    assert Refs(s, s.inFlight.value.entry.chunk) > 0;
  }

  // ---------------------------------------------------------------- payload

  /** Whatever a subscriber holds or is about to receive reads as the payload that was sent. */
  lemma PayloadIntegrity(cfg: Config, s: State, i: nat, e: Entry)
    requires Reachable(cfg, s) && Connected(s, i)
    requires e in s.connections[i].value.borrowed || e in s.connections[i].value.buffered
    ensures e.chunk < |s.memory| && e.id < |s.sent| && s.memory[e.chunk] == s.sent[e.id]
    ensures e.chunk !in s.free
  {
    ReachableInv(cfg, s);
    var k := s.connections[i].value;
    assert ConnectionIntact(s, k);
    ConnectionUpdate(s.connections, i, None, e.chunk);
    if e in k.borrowed {
      var j :| 0 <= j < |k.borrowed| && k.borrowed[j] == e;
      CountMember(k.borrowed, j);
    } else {
      var j :| 0 <= j < |k.buffered| && k.buffered[j] == e;
      CountMember(k.buffered, j);
    }
  }

  /** From the moment a sample is received until it is given back, no step of anybody changes what
      the subscriber reads. */
  lemma HeldSampleIsStable(cfg: Config, s: State, a: Action, i: nat, e: Entry)
    requires Reachable(cfg, s) && Connected(s, i) && e in s.connections[i].value.borrowed
    requires Enabled(cfg, s, a)
    ensures e.chunk < |s.memory| && Step(cfg, s, a).memory[e.chunk] == s.memory[e.chunk]
  {
    PayloadIntegrity(cfg, s, i, e);
    ReachableInv(cfg, s);
    if a.Write? && a.chunk == e.chunk {
      var k := s.connections[i].value;
      ConnectionUpdate(s.connections, i, None, e.chunk);
      var j :| 0 <= j < |k.borrowed| && k.borrowed[j] == e;
      CountMember(k.borrowed, j);
    }
  }

  lemma {:induction false} SentGrows(cfg: Config, s: State, run: seq<Action>, t: State)
    requires Runs(cfg, s, run, t)
    ensures s.sent <= t.sent
    decreases |run|
  {
    if |run| == 0 {
    } else {
      RunsFirst(cfg, s, run, t);
      SentGrows(cfg, Step(cfg, s, run[0]), run[1..], t);
    }
  }

  lemma {:induction false} RunReachable(cfg: Config, s: State, run: seq<Action>, t: State)
    requires Reachable(cfg, s) && Runs(cfg, s, run, t)
    ensures Reachable(cfg, t)
    decreases |run|
  {
    if |run| == 0 {
    } else {
      RunsFirst(cfg, s, run, t);
      ReachableStep(cfg, s, run[0]);
      RunReachable(cfg, Step(cfg, s, run[0]), run[1..], t);
    }
  }

  /** Whatever happens between two moments at which a subscriber has a sample, it reads the same. */
  lemma HeldSampleOverRuns(cfg: Config, s: State, run: seq<Action>, t: State, i: nat, j: nat, e: Entry)
    requires Reachable(cfg, s) && Runs(cfg, s, run, t)
    requires Connected(s, i) && e in s.connections[i].value.borrowed
    requires Connected(t, j) && e in t.connections[j].value.borrowed
    ensures e.chunk < |s.memory| && e.chunk < |t.memory| && t.memory[e.chunk] == s.memory[e.chunk]
  {
    RunReachable(cfg, s, run, t);
    PayloadIntegrity(cfg, s, i, e);
    PayloadIntegrity(cfg, t, j, e);
    SentGrows(cfg, s, run, t);
  }

  /** The subscriber in slot `i` gives up the sample `e`: it returns the position at which `e` is, or its
      connection is removed. */
  predicate GivesUp(s: State, a: Action, i: nat, e: Entry) {
    && Connected(s, i)
    && match a
       case Disconnect(slot) => slot == i
       case Return(slot, which) =>
         slot == i && which < |s.connections[i].value.borrowed| && s.connections[i].value.borrowed[which] == e
       case _ => false
  }

  lemma RemoveAt(es: seq<Entry>, w: nat)
    requires w < |es|
    ensures multiset(es[..w] + es[w + 1..]) == multiset(es) - multiset{es[w]}
  {
    assert es == es[..w] + [es[w]] + es[w + 1..];
  }

  lemma ReturnBorrowed(cfg: Config, s: State, i: nat, w: nat)
    requires Enabled(cfg, s, Return(i, w))
    ensures Connected(Step(cfg, s, Return(i, w)), i)
    ensures var k, k' := s.connections[i].value, Step(cfg, s, Return(i, w)).connections[i].value;
            && multiset(k'.borrowed) == multiset(k.borrowed) - multiset{k.borrowed[w]}
            && k'.returned == k.returned + [k.borrowed[w]]
  {
    RemoveAt(s.connections[i].value.borrowed, w);
  }

  lemma PortBorrowed(cfg: Config, s: State, a: Action)
    requires Enabled(cfg, s, a) && !OnSlot(a)
    ensures Step(cfg, s, a).connections == s.connections
  {
  }

  lemma OfferBorrowed(cfg: Config, s: State, a: Action, i: nat)
    requires Enabled(cfg, s, a) && Connected(s, i) && (a.Offer? || a.OfferHistory?)
    ensures Connected(Step(cfg, s, a), i)
    ensures Step(cfg, s, a).connections[i].value.borrowed == s.connections[i].value.borrowed
  {
  }

  lemma OtherBorrowed(cfg: Config, s: State, a: Action, i: nat)
    requires Enabled(cfg, s, a) && Connected(s, i) && !a.Return? && !a.Receive? && a != Disconnect(i)
    ensures Connected(Step(cfg, s, a), i)
    ensures Step(cfg, s, a).connections[i].value.borrowed == s.connections[i].value.borrowed
  {
    if !OnSlot(a) {
      PortBorrowed(cfg, s, a);
    } else if a.Offer? || a.OfferHistory? {
      OfferBorrowed(cfg, s, a, i);
    }
  }

  /** What is borrowed changes only by receiving the oldest waiting sample and by returning the very sample
      that was named. */
  lemma StepBorrowed(cfg: Config, s: State, a: Action, i: nat)
    requires Enabled(cfg, s, a) && Connected(s, i) && a != Disconnect(i)
    ensures Connected(Step(cfg, s, a), i)
    ensures var k, k' := s.connections[i].value, Step(cfg, s, a).connections[i].value;
            if a == Receive(i)
            then k'.borrowed == k.borrowed + [k.buffered[0]] && k'.buffered == k.buffered[1..]
            else if a.Return? && a.slot == i
            then && multiset(k'.borrowed) == multiset(k.borrowed) - multiset{k.borrowed[a.which]}
                 && k'.returned == k.returned + [k.borrowed[a.which]]
            else k'.borrowed == k.borrowed
  {
    if a.Return? && a.slot == i {
      ReturnBorrowed(cfg, s, i, a.which);
    } else if !a.Return? && !a.Receive? {
      OtherBorrowed(cfg, s, a, i);
    }
  }

  lemma StepHolds(cfg: Config, s: State, a: Action, i: nat, e: Entry)
    requires Enabled(cfg, s, a) && Connected(s, i) && e in s.connections[i].value.borrowed && !GivesUp(s, a, i, e)
    ensures Connected(Step(cfg, s, a), i) && e in Step(cfg, s, a).connections[i].value.borrowed
  {
    StepBorrowed(cfg, s, a, i);
    var k, k' := s.connections[i].value, Step(cfg, s, a).connections[i].value;
    if a.Return? && a.slot == i {
      assert e in multiset(k.borrowed) && e in multiset(k'.borrowed);
    }
  }

  /** From the moment a sample is received the subscriber has it, and reads the same, until the subscriber
      itself returns it or the connection is removed. */
  lemma {:induction false} HeldUntilGivenUp(cfg: Config, states: seq<State>, run: seq<Action>, i: nat, e: Entry, n: nat)
    requires Path(cfg, states, run) && Reachable(cfg, states[0]) && n <= |run|
    requires Connected(states[0], i) && e in states[0].connections[i].value.borrowed
    requires forall k :: 0 <= k < n ==> !GivesUp(states[k], run[k], i, e)
    ensures Reachable(cfg, states[n]) && Connected(states[n], i) && e in states[n].connections[i].value.borrowed
    ensures e.chunk < |states[0].memory| && e.chunk < |states[n].memory|
    ensures states[n].memory[e.chunk] == states[0].memory[e.chunk]
  {
    if n == 0 {
      PayloadIntegrity(cfg, states[0], i, e);
    } else {
      HeldUntilGivenUp(cfg, states, run, i, e, n - 1);
      var s, a := states[n - 1], run[n - 1];
      ReachableStep(cfg, s, a);
      StepHolds(cfg, s, a, i, e);
      HeldSampleIsStable(cfg, s, a, i, e);
      PayloadIntegrity(cfg, states[n], i, e);
    }
  }

  // ---------------------------------------------------------------- order

  /** A subscriber receives each sample at most once and in the order of the sends, nothing older
      than the history at the time of its connection, and every sample offered to it is received,
      waiting, refused or evicted. */
  lemma OrderedDelivery(cfg: Config, s: State, i: nat)
    requires Reachable(cfg, s) && Connected(s, i)
    ensures var k := s.connections[i].value;
            && Increasing(Trail(k))
            && (forall j :: 0 <= j < |Trail(k)| ==> k.first <= Trail(k)[j] < k.next)
            && k.first <= k.next <= |s.sent|
            && |k.received| + |k.buffered| + k.refused + k.evicted == k.next - k.first
            && |k.borrowed| + |k.returned| <= |k.received|
  {
    ReachableInv(cfg, s);
  }

  lemma {:induction false} DenseIncreasing(t: seq<int>, first: int, next: int, j: nat)
    requires Increasing(t) && |t| == next - first && j < |t|
    requires forall x :: 0 <= x < |t| ==> first <= t[x] < next
    ensures t[j] >= first + j
  {
    if j == 0 {
    } else {
      DenseIncreasing(t, first, next, j - 1);
      assert t[j - 1] < t[j];
    }
  }

  lemma {:induction false} DenseDecreasing(t: seq<int>, first: int, next: int, j: nat)
    requires Increasing(t) && |t| == next - first && j < |t|
    requires forall x :: 0 <= x < |t| ==> first <= t[x] < next
    ensures t[j] <= first + j
    decreases |t| - j
  {
    if j + 1 == |t| {
    } else {
      DenseDecreasing(t, first, next, j + 1);
      assert t[j] < t[j + 1];
    }
  }

  /** Without a refusal or an eviction the subscriber gets exactly the samples offered to it. */
  lemma LosslessDelivery(cfg: Config, s: State, i: nat)
    requires Reachable(cfg, s) && Connected(s, i)
    requires s.connections[i].value.refused == 0 && s.connections[i].value.evicted == 0
    ensures var k := s.connections[i].value;
            |Trail(k)| == k.next - k.first && forall j :: 0 <= j < |Trail(k)| ==> Trail(k)[j] == k.first + j
  {
    OrderedDelivery(cfg, s, i);
    var k := s.connections[i].value;
    forall j | 0 <= j < |Trail(k)| ensures Trail(k)[j] == k.first + j {
      DenseIncreasing(Trail(k), k.first, k.next, j);
      DenseDecreasing(Trail(k), k.first, k.next, j);
    }
  }

  /** Overflow drops the oldest: as long as nothing is refused, the buffer holds the newest offers. */
  lemma OverflowKeepsNewest(cfg: Config, s: State, i: nat, j: nat)
    requires Reachable(cfg, s) && Connected(s, i) && s.connections[i].value.refused == 0
    requires j < |s.connections[i].value.buffered|
    ensures var k := s.connections[i].value; k.buffered[j].id == k.next - |k.buffered| + j
  {
    ReachableInv(cfg, s);
  }

  /** Between two sends the history holds the payloads of the last `historySize` sends. */
  lemma HistoryIsLastSends(cfg: Config, s: State, j: nat)
    requires Reachable(cfg, s) && s.inFlight.None? && cfg.historySize > 0
    ensures |s.history| == if |s.sent| < cfg.historySize then |s.sent| else cfg.historySize
    ensures j < |s.history| ==>
              && s.history[j].chunk < |s.memory|
              && s.memory[s.history[j].chunk] == s.sent[|s.sent| - |s.history| + j]
  {
    ReachableInv(cfg, s);
  }

  lemma HistoryWithinSends(cfg: Config, s: State)
    requires Reachable(cfg, s) && s.inFlight.None?
    ensures |s.history| <= |s.sent|
  {
    ReachableInv(cfg, s);
  }

  lemma HistoryEntryId(cfg: Config, s: State, j: nat)
    requires Reachable(cfg, s) && s.inFlight.None? && j < |s.history|
    ensures s.history[j].id == |s.sent| - |s.history| + j
  {
    ReachableInv(cfg, s);
  }

  lemma SameLengths(cfg: Config, s: State)
    requires Reachable(cfg, s)
    ensures |s.counter| == |s.memory|
  {
    ReachableInv(cfg, s);
  }
}
