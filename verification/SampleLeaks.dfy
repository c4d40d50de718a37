/** How references get lost, and when that exhausts the data segment.

    The runs here are ones that the publisher itself makes: in its program order, and with no subscriber
    between the checks of `try_send`, so that it accepts or refuses as the queues stand. */
module SampleLeaks {
  import opened Common
  import opened SampleLifecycle
  import opened SampleReferences
  import opened SampleDelivery
  import opened SampleTheorems
  import opened SampleReturns
  import opened SampleCapacity

  // ---------------------------------------------------------------- undisturbed runs

  /** A connection accepts a sample exactly if nothing lets `try_send` refuse it. */
  predicate Undisturbed(cfg: Config, s: State, a: Action) {
    (a.Offer? || a.OfferHistory?) && Connected(s, a.slot) ==> a.accepted == !Refusable(cfg, s.connections[a.slot].value)
  }

  ghost predicate QuietPath(cfg: Config, states: seq<State>, run: seq<Action>) {
    Path(cfg, states, run) && forall k {:trigger run[k]} :: 0 <= k < |run| ==> Undisturbed(cfg, states[k], run[k])
  }

  ghost predicate QuietlyReachable(cfg: Config, s: State) {
    exists run, states :: QuietPath(cfg, states, run) && states[0] == Initial(cfg) && states[|run|] == s
  }

  lemma QuietIsReachable(cfg: Config, s: State)
    requires QuietlyReachable(cfg, s)
    ensures Reachable(cfg, s)
  {
    var run, states :| QuietPath(cfg, states, run) && states[0] == Initial(cfg) && states[|run|] == s;
    assert Runs(cfg, Initial(cfg), run, s);
  }

  lemma QuietPathAppend(cfg: Config, states: seq<State>, run: seq<Action>, a: Action)
    requires QuietPath(cfg, states, run) && Enabled(cfg, states[|run|], a) && Undisturbed(cfg, states[|run|], a)
    ensures QuietPath(cfg, states + [Step(cfg, states[|run|], a)], run + [a])
  {
    PathAppend(cfg, states, run, a);
    var all, steps := states + [Step(cfg, states[|run|], a)], run + [a];
    forall k | 0 <= k < |steps| ensures Undisturbed(cfg, all[k], steps[k]) {
      if k < |run| {
        assert steps[k] == run[k];
      }
    }
  }

  lemma Then(cfg: Config, s: State, a: Action) returns (t: State)
    requires QuietlyReachable(cfg, s) && Enabled(cfg, s, a) && Undisturbed(cfg, s, a)
    ensures QuietlyReachable(cfg, t) && t == Step(cfg, s, a)
  {
    var run, states :| QuietPath(cfg, states, run) && states[0] == Initial(cfg) && states[|run|] == s;
    QuietPathAppend(cfg, states, run, a);
    t := Step(cfg, s, a);
    assert QuietPath(cfg, states + [t], run + [a]);
  }

  // ---------------------------------------------------------------- pieces of runs

  /** No operation is under way and nothing is loaned. */
  ghost predicate Resting(cfg: Config, s: State) {
    && QuietlyReachable(cfg, s) && |s.connections| == cfg.maxSubscribers
    && s.inFlight.None? && s.held == multiset{} && s.owed == multiset{} && s.loans == multiset{} && s.loanCounter == 0
  }

  ghost predicate NobodyElse(s: State) {
    forall i :: 0 < i < |s.connections| ==> s.connections[i].None?
  }

  ghost predicate Alone(cfg: Config, s: State) {
    Resting(cfg, s) && s.connections[0].None? && NobodyElse(s)
  }

  /** The sample in flight is the only loan. */
  ghost predicate Sending(cfg: Config, s: State, e: Entry, progress: Progress) {
    && QuietlyReachable(cfg, s) && |s.connections| == cfg.maxSubscribers && NobodyElse(s)
    && s.inFlight == Some(InFlight(e, progress)) && s.held == multiset{} && s.owed == multiset{}
    && s.loans == multiset{e.chunk} && s.loanCounter == 1
  }

  lemma Publishes(cfg: Config, s: State, c: nat) returns (t: State, e: Entry)
    requires Resting(cfg, s) && NobodyElse(s) && c in s.free && cfg.maxLoans > 0
    requires s.connections[0].Some? ==> s.connections[0].value.next == |s.sent|
    requires Size(s.connections[0]) <= cfg.bufferSize + cfg.maxBorrowed
    ensures Sending(cfg, t, e, Published) && e == Entry(c, |s.sent|) && |t.sent| == |s.sent| + 1
    ensures t.free == s.free - {c} && t.orphaned == s.orphaned && t.history == s.history && t.connections == s.connections
  {
    QuietIsReachable(cfg, s);
    LoanedChunkIsUnused(cfg, s, c);
    SameLengths(cfg, s);
    t := Then(cfg, s, Loan(c, 0));
    assert t.loans == multiset{c};
    e := Entry(c, |t.sent|);
    t := Then(cfg, t, Publish(c));
  }

  /** Giving up a reference that is not the last one frees nothing. */
  lemma ReleaseKept(cfg: Config, s: State, c: nat) returns (t: State)
    requires QuietlyReachable(cfg, s) && s.held == multiset{c} && s.owed == multiset{} && Refs(s, c) > 1
    ensures QuietlyReachable(cfg, t) && t == s.(counter := t.counter, held := multiset{})
  {
    QuietIsReachable(cfg, s);
    ReleaseIsSafe(cfg, s, c);
    assert s.held - multiset{c} == multiset{};
    t := Then(cfg, s, Release(c));
  }

  lemma Ends(cfg: Config, s: State, e: Entry) returns (t: State)
    requires Sending(cfg, s, e, if cfg.historySize > 0 then Stored else Published)
    requires Count(s.history, e.chunk) + AllConnectionRefs(s.connections, e.chunk) > 0
    requires s.connections[0].Some? ==> s.connections[0].value.next == |s.sent|
    ensures Resting(cfg, t) && t == s.(counter := t.counter, loans := multiset{}, loanCounter := 0, inFlight := None)
  {
    var c := e.chunk;
    assert s.loans - multiset{c} == multiset{} && s.held + multiset{c} == multiset{c};
    var u := Then(cfg, s, FinishSend);
    t := ReleaseKept(cfg, u, c);
  }

  // ---------------------------------------------------------------- with a history

  lemma Stores(cfg: Config, s: State, e: Entry) returns (t: State)
    requires Sending(cfg, s, e, Published) && cfg.historySize > 0
    ensures QuietlyReachable(cfg, t) && t.held == HistoryEvicted(cfg, s.history)
    ensures t == s.(counter := t.counter, held := t.held, history := HistoryAfter(cfg, s.history, e),
                    inFlight := Some(InFlight(e, Stored)))
  {
    QuietIsReachable(cfg, s);
    InFlightInRange(cfg, s);
    t := Then(cfg, s, CountHistory);
    assert t.held == multiset{e.chunk};
    t := Then(cfg, t, StoreHistory);
    assert multiset{e.chunk} - multiset{e.chunk} + HistoryEvicted(cfg, s.history) == HistoryEvicted(cfg, s.history);
  }

  /** The oldest sample of a full history has lost a reference. */
  ghost predicate OldestIsLost(cfg: Config, s: State) {
    0 < cfg.historySize <= |s.history| ==> s.history[0].chunk in ChunkSet(s.orphaned)
  }

  lemma Records(cfg: Config, s: State, e: Entry) returns (t: State)
    requires Sending(cfg, s, e, Published) && cfg.historySize > 0 && OldestIsLost(cfg, s)
    ensures Sending(cfg, t, e, Stored)
    ensures t == s.(counter := t.counter, history := HistoryAfter(cfg, s.history, e), inFlight := Some(InFlight(e, Stored)))
  {
    t := Stores(cfg, s, e);
    if |s.history| >= cfg.historySize {
      var h := s.history[0].chunk;
      CountedInSet(t.orphaned, h);
      t := ReleaseKept(cfg, t, h);
    }
  }

  /** A send with nobody connected moves a chunk into the history. */
  lemma SendAlone(cfg: Config, s: State, c: nat) returns (t: State)
    requires Alone(cfg, s) && c in s.free && cfg.maxLoans > 0 && cfg.historySize > 0 && OldestIsLost(cfg, s)
    ensures Alone(cfg, t) && t.free == s.free - {c} && t.orphaned == s.orphaned
    ensures t.history == HistoryAfter(cfg, s.history, Entry(c, |s.sent|))
  {
    var u, e := Publishes(cfg, s, c);
    u := Records(cfg, u, e);
    CountMember(u.history, |u.history| - 1);
    t := Ends(cfg, u, e);
  }

  /** A connection of which nothing has been received. */
  ghost predicate Untouched(x: Option<Connection>, buffered: nat, next: int) {
    x.Some? && |x.value.buffered| == buffered && x.value.borrowed == [] && x.value.returned == [] && x.value.next == next
  }

  function Min(a: nat, b: nat): nat {
    if a < b then a else b
  }

  /** Entry `n` of the history is appended, evicts the oldest, or is refused, which the first one never is. */
  ghost predicate Answered(e: Entry, lost: seq<Entry>, buffered: seq<Entry>, lost': seq<Entry>, buffered': seq<Entry>, n: nat) {
    || (lost' == lost && buffered' == buffered + [e])
    || (|buffered| > 0 && lost' == lost + [buffered[0]] && buffered' == buffered[1..] + [e])
    || (n > 0 && lost' == lost && buffered' == buffered)
  }

  /** One entry of the history is offered, and accepted unless the buffer is full and must not overflow. */
  lemma OffersEntry(cfg: Config, s: State, n: nat) returns (t: State)
    requires Resting(cfg, s) && n < |s.history|
    requires Untouched(s.connections[0], Min(n, cfg.bufferSize), |s.sent| - |s.history| + n)
    ensures Resting(cfg, t) && Untouched(t.connections[0], Min(n + 1, cfg.bufferSize), |s.sent| - |s.history| + n + 1)
    ensures t == s.(counter := t.counter, connections := s.connections[0 := t.connections[0]], orphaned := t.orphaned)
    ensures Answered(s.history[n], s.orphaned, s.connections[0].value.buffered, t.orphaned, t.connections[0].value.buffered, n)
    ensures n < cfg.bufferSize ==> t.orphaned == s.orphaned
  {
    var k := s.connections[0].value;
    QuietIsReachable(cfg, s);
    HistoryEntryId(cfg, s, n);
    assert HistoryIndex(s, k) == n;
    var accepted := n < cfg.bufferSize || cfg.overflow;
    t := Then(cfg, s, OfferHistory(0, accepted));
    if accepted {
      var c := s.history[n].chunk;
      assert t.owed == multiset{c};
      QuietIsReachable(cfg, t);
      OwedInRange(cfg, t, c);
      t := Then(cfg, t, CountDelivery(c));
      assert t.owed == multiset{};
    }
  }

  lemma Connects(cfg: Config, s: State) returns (t: State)
    requires Alone(cfg, s)
    ensures Resting(cfg, t) && Untouched(t.connections[0], 0, |s.sent| - |s.history|)
    ensures t == s.(connections := s.connections[0 := t.connections[0]])
  {
    QuietIsReachable(cfg, s);
    HistoryWithinSends(cfg, s);
    t := Then(cfg, s, Connect(0, 0));
  }

  /** A subscriber connects and is offered the first `n` entries of the history. The oldest of them ends up
      in its buffer or is lost. */
  lemma {:induction false} Joins(cfg: Config, s: State, n: nat) returns (t: State)
    requires Alone(cfg, s) && n <= |s.history|
    ensures Resting(cfg, t) && Untouched(t.connections[0], Min(n, cfg.bufferSize), |s.sent| - |s.history| + n)
    ensures t == s.(counter := t.counter, connections := s.connections[0 := t.connections[0]], orphaned := t.orphaned)
    ensures n <= cfg.bufferSize ==> t.orphaned == s.orphaned
    ensures n > 0 ==> s.history[0].chunk in ChunkSet(t.orphaned) + ChunkSet(t.connections[0].value.buffered)
  {
    if n == 0 {
      t := Connects(cfg, s);
    } else {
      var u := Joins(cfg, s, n - 1);
      t := OffersEntry(cfg, u, n - 1);
      KeepsOldest(s.history[0], s.history[n - 1], u.orphaned, u.connections[0].value.buffered,
                  t.orphaned, t.connections[0].value.buffered, n - 1);
    }
  }

  lemma KeepsOldest(oldest: Entry, e: Entry, lost: seq<Entry>, buffered: seq<Entry>, lost': seq<Entry>, buffered': seq<Entry>, n: nat)
    requires Answered(e, lost, buffered, lost', buffered', n)
    requires if n == 0 then oldest == e else oldest.chunk in ChunkSet(lost) + ChunkSet(buffered)
    ensures oldest.chunk in ChunkSet(lost') + ChunkSet(buffered')
  {
    ChunksAppend(buffered, e);
    if |buffered| > 0 {
      ChunksAppend(lost, buffered[0]);
      ChunksAppend(buffered[1..], e);
    }
  }

  lemma {:induction false} ChunksAppend(es: seq<Entry>, e: Entry)
    ensures ChunkSet(es + [e]) == ChunkSet(es) + {e.chunk}
  {
    if |es| == 0 {
      assert es + [e] == [e];
    } else {
      assert (es + [e])[1..] == es[1..] + [e];
      ChunksAppend(es[1..], e);
    }
  }

  lemma {:induction false} ChunksConcat(a: seq<Entry>, b: seq<Entry>)
    ensures ChunkSet(a + b) == ChunkSet(a) + ChunkSet(b)
  {
    if |a| == 0 {
      assert a + b == b;
    } else {
      assert (a + b)[1..] == a[1..] + b;
      ChunksConcat(a[1..], b);
    }
  }

  /** The subscriber leaves without having received anything: its references are lost. */
  lemma Leaves(cfg: Config, s: State) returns (t: State)
    requires Resting(cfg, s) && NobodyElse(s) && s.connections[0].Some?
    requires s.connections[0].value.borrowed == [] && s.connections[0].value.returned == []
    ensures Alone(cfg, t) && t.free == s.free && t.history == s.history && |t.sent| == |s.sent|
    ensures ChunkSet(t.orphaned) == ChunkSet(s.orphaned) + ChunkSet(s.connections[0].value.buffered)
  {
    var k := s.connections[0].value;
    t := Then(cfg, s, Disconnect(0));
    assert t.orphaned == s.orphaned + k.buffered;
    ChunksConcat(s.orphaned, k.buffered);
  }

  /** A send, and a subscriber that connects, is offered the history and leaves. */
  lemma LeakThroughHistory(cfg: Config, s: State, c: nat) returns (t: State)
    requires Alone(cfg, s) && c in s.free && cfg.maxLoans > 0 && cfg.historySize > 0 && OldestIsLost(cfg, s)
    ensures Alone(cfg, t) && t.free == s.free - {c} && OldestIsLost(cfg, t)
  {
    var u := SendAlone(cfg, s, c);
    var v := Joins(cfg, u, |u.history|);
    t := Leaves(cfg, v);
  }

  // ---------------------------------------------------------------- without a history

  lemma OffersSample(cfg: Config, s: State, e: Entry) returns (t: State)
    requires Sending(cfg, s, e, Published) && cfg.historySize == 0 && s.connections[0].Some?
    requires s.connections[0].value.next == e.id && s.connections[0].value.returned == []
    requires |s.connections[0].value.buffered| < cfg.bufferSize
    ensures QuietlyReachable(cfg, t)
    ensures t == s.(counter := t.counter, connections := s.connections[0 := Some(Push(cfg, s.connections[0].value, e))])
  {
    var c := e.chunk;
    t := Then(cfg, s, Offer(0, true));
    assert t.owed == multiset{c} && t.held == multiset{};
    QuietIsReachable(cfg, t);
    OwedInRange(cfg, t, c);
    t := Then(cfg, t, CountDelivery(c));
    assert t.owed == multiset{};
  }

  /** A sample is sent to the one subscriber, who has room for it. */
  lemma SendToOne(cfg: Config, s: State, c: nat) returns (t: State, e: Entry)
    requires Resting(cfg, s) && NobodyElse(s) && c in s.free && cfg.maxLoans > 0 && cfg.historySize == 0
    requires s.connections[0].Some? && s.connections[0].value.next == |s.sent| && s.connections[0].value.returned == []
    requires |s.connections[0].value.buffered| < cfg.bufferSize && |s.connections[0].value.borrowed| <= cfg.maxBorrowed
    ensures Resting(cfg, t) && NobodyElse(t) && e == Entry(c, |s.sent|) && |t.sent| == |s.sent| + 1
    ensures t.free == s.free - {c} && t.orphaned == s.orphaned && t.history == s.history
    ensures t.connections[0] == Some(Push(cfg, s.connections[0].value, e))
  {
    var u;
    u, e := Publishes(cfg, s, c);
    u := OffersSample(cfg, u, e);
    var k := u.connections[0].value;
    ConnectionUpdate(u.connections, 0, None, c);
    CountMember(k.buffered, |k.buffered| - 1);
    t := Ends(cfg, u, e);
  }

  /** A subscriber connects, is sent a sample, and leaves without receiving it. */
  lemma LeakThroughSend(cfg: Config, s: State, c: nat) returns (t: State)
    requires Alone(cfg, s) && c in s.free && cfg.maxLoans > 0 && cfg.historySize == 0 && s.history == []
    ensures Alone(cfg, t) && t.free == s.free - {c} && t.history == []
    ensures ChunkSet(t.orphaned) == ChunkSet(s.orphaned) + {c}
  {
    var u := Connects(cfg, s);
    var v, e := SendToOne(cfg, u, c);
    assert v.connections[0].value.buffered == [e];
    t := Leaves(cfg, v);
    assert ChunkSet([e]) == {c};
  }

  // ---------------------------------------------------------------- exhaustion

  ghost predicate AtRest(cfg: Config, s: State) {
    Alone(cfg, s) && OldestIsLost(cfg, s) && (cfg.historySize == 0 ==> s.history == [])
  }

  /** One chunk is taken out of circulation for good. */
  lemma LeakCycle(cfg: Config, s: State, c: nat) returns (t: State)
    requires AtRest(cfg, s) && c in s.free && cfg.maxLoans > 0
    ensures AtRest(cfg, t) && t.free == s.free - {c}
    ensures cfg.historySize == 0 ==> ChunkSet(t.orphaned) == ChunkSet(s.orphaned) + {c}
  {
    if cfg.historySize == 0 {
      t := LeakThroughSend(cfg, s, c);
    } else {
      t := LeakThroughHistory(cfg, s, c);
    }
  }

  /** Subscribers that leave without receiving what they were sent use up the whole data segment: a state
      in which nothing is loaned or connected, and no chunk is free, is reachable. */
  lemma {:induction false} LeakExhaustsPool(cfg: Config, s: State) returns (t: State)
    requires AtRest(cfg, s) && cfg.maxLoans > 0
    ensures AtRest(cfg, t) && t.free == {}
    decreases |s.free|
  {
    t := s;
    if c :| c in s.free {
      t := LeakCycle(cfg, s, c);
      t := LeakExhaustsPool(cfg, t);
    }
  }

  lemma StartAtRest(cfg: Config)
    ensures AtRest(cfg, Initial(cfg))
  {
    assert QuietPath(cfg, [Initial(cfg)], []);
  }

  lemma OutOfMemoryIsReachable(cfg: Config) returns (t: State)
    requires cfg.maxLoans > 0
    ensures QuietlyReachable(cfg, t) && Drained(cfg, t) && t.held == multiset{} && t.loanCounter == 0 && t.free == {}
  {
    StartAtRest(cfg);
    t := LeakExhaustsPool(cfg, Initial(cfg));
  }

  // ---------------------------------------------------------------- how many lost chunks are too many

  /** After a reclaim, a publisher below its loan limit finds no chunk. */
  ghost predicate OutOfMemory(cfg: Config, s: State) {
    Reachable(cfg, s) && Drained(cfg, s) && s.held == multiset{} && s.loanCounter < cfg.maxLoans && s.free == {}
  }

  ghost predicate NeverOut(lost: nat) {
    forall cfg, s :: OutOfMemory(cfg, s) ==> |ChunkSet(s.orphaned)| > lost
  }

  const TIGHT := Config(1, 1, 1, 0, 1, false)

  lemma LoseTwo() returns (s: State)
    ensures Alone(TIGHT, s) && s.free == {2, 3} && ChunkSet(s.orphaned) == {0, 1} && s.history == []
  {
    StartAtRest(TIGHT);
    s := Initial(TIGHT);
    assert NumberOfSamples(TIGHT) == 4;
    assert s.free == {0, 1, 2, 3};
    assert ChunkSet(s.orphaned) == {};
    s := LeakCycle(TIGHT, s, 0);
    s := LeakCycle(TIGHT, s, 1);
  }

  /** One sample is borrowed and one waits. */
  lemma FillConnection(s: State) returns (t: State)
    requires Alone(TIGHT, s) && s.free == {2, 3} && s.history == []
    ensures Resting(TIGHT, t) && t.free == {} && t.orphaned == s.orphaned && Drained(TIGHT, t)
  {
    var u := Connects(TIGHT, s);
    var v, e := SendToOne(TIGHT, u, 2);
    assert v.connections[0].value.buffered == [e];
    var w := Then(TIGHT, v, Receive(0));
    var f;
    t, f := SendToOne(TIGHT, w, 3);
  }

  /** With two lost chunks a segment can be too small. */
  lemma TwoLostChunks() returns (t: State)
    ensures OutOfMemory(TIGHT, t) && QuietlyReachable(TIGHT, t) && |ChunkSet(t.orphaned)| == 2
  {
    var s := LoseTwo();
    t := FillConnection(s);
    QuietIsReachable(TIGHT, t);
  }

  /** The data segment makes up for one lost chunk, and for no more. */
  lemma OneLostChunkIsTolerated(lost: nat)
    ensures NeverOut(lost) <==> lost <= 1
  {
    if lost <= 1 {
      forall cfg, s | OutOfMemory(cfg, s) ensures |ChunkSet(s.orphaned)| > lost {
        ReachableInv(cfg, s);
        if |ChunkSet(s.orphaned)| <= 1 {
          FreeChunkExists(cfg, s);
        }
      }
    } else {
      var t := TwoLostChunks();
    }
  }

  // ---------------------------------------------------------------- when the history loses references

  /** `n` sends with nobody connected. */
  lemma {:induction false} FillHistory(cfg: Config, n: nat) returns (t: State)
    requires n <= cfg.historySize && cfg.maxLoans > 0
    ensures Alone(cfg, t) && |t.history| == n && t.orphaned == []
  {
    if n == 0 {
      StartAtRest(cfg);
      t := Initial(cfg);
    } else {
      var s := FillHistory(cfg, n - 1);
      QuietIsReachable(cfg, s);
      ReachableInv(cfg, s);
      FreeChunkExists(cfg, s);
      var c :| c in s.free;
      t := SendAlone(cfg, s, c);
    }
  }

  lemma HistoryOverflows(cfg: Config) returns (s: State)
    requires cfg.overflow && cfg.historySize > cfg.bufferSize && cfg.maxLoans > 0
    ensures QuietlyReachable(cfg, s) && Enabled(cfg, s, OfferHistory(0, true)) && Undisturbed(cfg, s, OfferHistory(0, true))
    ensures s.orphaned == [] && |Step(cfg, s, OfferHistory(0, true)).orphaned| == 1
  {
    var u := FillHistory(cfg, cfg.bufferSize + 1);
    s := Joins(cfg, u, cfg.bufferSize);
  }

  /** Without a loan nothing is ever sent. */
  lemma {:induction false} NothingSent(cfg: Config, s: State, run: seq<Action>, t: State)
    requires cfg.maxLoans == 0 && Inv(cfg, s) && s.sent == [] && Runs(cfg, s, run, t)
    ensures Inv(cfg, t) && t.sent == []
    decreases |run|
  {
    if |run| == 0 {
    } else {
      RunsFirst(cfg, s, run, t);
      StepInv(cfg, s, run[0]);
      assert s.loans == multiset{};
      NothingSent(cfg, Step(cfg, s, run[0]), run[1..], t);
    }
  }

  /** Delivering the history to a new connection can lose a reference. */
  ghost predicate HistoryCanLose(cfg: Config) {
    exists s, i, accepted ::
      Reachable(cfg, s) && Enabled(cfg, s, OfferHistory(i, accepted))
      && Step(cfg, s, OfferHistory(i, accepted)).orphaned != s.orphaned
  }

  lemma HistoryLosesIff(cfg: Config)
    ensures HistoryCanLose(cfg) <==> cfg.overflow && cfg.historySize > cfg.bufferSize && cfg.maxLoans > 0
  {
    if cfg.overflow && cfg.historySize > cfg.bufferSize && cfg.maxLoans > 0 {
      var s := HistoryOverflows(cfg);
      QuietIsReachable(cfg, s);
      assert Step(cfg, s, OfferHistory(0, true)).orphaned != s.orphaned;
    } else {
      forall s, i, accepted | Reachable(cfg, s) && Enabled(cfg, s, OfferHistory(i, accepted))
        ensures Step(cfg, s, OfferHistory(i, accepted)).orphaned == s.orphaned
      {
        if cfg.maxLoans == 0 {
          var run :| Runs(cfg, Initial(cfg), run, s);
          InitialInv(cfg);
          NothingSent(cfg, Initial(cfg), run, s);
          HistoryWithinSends(cfg, s);
        } else {
          FittingHistoryKeepsReferences(cfg, s, i, accepted);
        }
      }
    }
  }
}
