/** New connections catch up with the history before anything else is sent, and what that means for the
    references that overflow loses and for the room in the return channel. */
module SampleReturns {
  import opened Common
  import opened SampleLifecycle
  import opened SampleReferences
  import opened SampleDelivery
  import opened SampleTheorems

  // ---------------------------------------------------------------- catching up

  /** During a send a connection lacks at most the sample being sent; otherwise, what it lacks are the last
      entries of the history that it has been offered since it connected. */
  ghost predicate Behind(s: State, k: Connection) {
    if s.inFlight.Some? then k.next >= |s.sent| - 1
    else k.next < |s.sent| ==> k.first == |s.sent| - |s.history|
  }

  ghost predicate BehindInv(s: State) {
    forall i: nat :: Connected(s, i) ==> Behind(s, s.connections[i].value)
  }

  lemma AnswerBehind(cfg: Config, s: State, a: Action)
    requires Inv(cfg, s) && BehindInv(s) && Enabled(cfg, s, a) && (a.Offer? || a.OfferHistory?)
    ensures Connected(Step(cfg, s, a), a.slot) && Behind(s, Step(cfg, s, a).connections[a.slot].value)
  {
    assert Connected(s, a.slot) && Behind(s, s.connections[a.slot].value);
  }

  lemma MoveBehind(cfg: Config, s: State, a: Action)
    requires Inv(cfg, s) && BehindInv(s) && Enabled(cfg, s, a) && OnSlot(a) && !a.Offer? && !a.OfferHistory?
    ensures Connected(Step(cfg, s, a), a.slot) ==> Behind(s, Step(cfg, s, a).connections[a.slot].value)
  {
    assert Connected(s, a.slot) ==> Behind(s, s.connections[a.slot].value);
  }

  lemma OneSlotBehind(s: State, s': State, i: nat)
    requires BehindInv(s) && i < |s.connections| && |s'.connections| == |s.connections|
    requires s'.connections == s.connections[i := s'.connections[i]]
    requires s'.sent == s.sent && s'.history == s.history && s'.inFlight == s.inFlight
    requires Connected(s', i) ==> Behind(s, s'.connections[i].value)
    ensures BehindInv(s')
  {
    forall j: nat | Connected(s', j) ensures Behind(s', s'.connections[j].value) {
      if j != i {
        assert Connected(s, j);
      }
    }
  }

  lemma SlotBehind(cfg: Config, s: State, a: Action)
    requires Inv(cfg, s) && BehindInv(s) && Enabled(cfg, s, a) && OnSlot(a)
    ensures BehindInv(Step(cfg, s, a))
  {
    if a.Offer? || a.OfferHistory? {
      AnswerBehind(cfg, s, a);
    } else {
      MoveBehind(cfg, s, a);
    }
    OneSlotBehind(s, Step(cfg, s, a), a.slot);
  }

  lemma PortBehind(cfg: Config, s: State, a: Action)
    requires Inv(cfg, s) && BehindInv(s) && Enabled(cfg, s, a) && !OnSlot(a)
    ensures BehindInv(Step(cfg, s, a))
  {
    var s' := Step(cfg, s, a);
    forall i: nat | Connected(s', i) ensures Behind(s', s'.connections[i].value) {
      assert Connected(s, i) && Behind(s, s.connections[i].value);
    }
  }

  lemma {:induction false} RunBehind(cfg: Config, s: State, run: seq<Action>, t: State)
    requires Inv(cfg, s) && BehindInv(s) && Runs(cfg, s, run, t)
    ensures BehindInv(t)
    decreases |run|
  {
    if |run| == 0 {
    } else {
      RunsFirst(cfg, s, run, t);
      StepInv(cfg, s, run[0]);
      if OnSlot(run[0]) {
        SlotBehind(cfg, s, run[0]);
      } else {
        PortBehind(cfg, s, run[0]);
      }
      RunBehind(cfg, Step(cfg, s, run[0]), run[1..], t);
    }
  }

  lemma ReachableBehind(cfg: Config, s: State)
    requires Reachable(cfg, s)
    ensures BehindInv(s)
  {
    var run :| Runs(cfg, Initial(cfg), run, s);
    InitialInv(cfg);
    RunBehind(cfg, Initial(cfg), run, s);
  }

  /** A connection that is offered an entry of the history holds no more than the entries before it. */
  lemma HistoryArrivesFirst(cfg: Config, s: State, i: nat, accepted: bool)
    requires Reachable(cfg, s) && Enabled(cfg, s, OfferHistory(i, accepted))
    ensures |s.connections[i].value.buffered| <= HistoryIndex(s, s.connections[i].value) < cfg.historySize
  {
    ReachableInv(cfg, s);
    ReachableBehind(cfg, s);
    assert Behind(s, s.connections[i].value);
  }

  /** Delivering the history loses no reference unless the buffer may overflow and is shorter than the
      history. */
  lemma FittingHistoryKeepsReferences(cfg: Config, s: State, i: nat, accepted: bool)
    requires Reachable(cfg, s) && Enabled(cfg, s, OfferHistory(i, accepted))
    requires !cfg.overflow || cfg.historySize <= cfg.bufferSize
    ensures Step(cfg, s, OfferHistory(i, accepted)).orphaned == s.orphaned
  {
    HistoryArrivesFirst(cfg, s, i, accepted);
    assert s.orphaned + [] == s.orphaned;
  }

  // ---------------------------------------------------------------- room in the return channel

  /** One loan at a time, and a history that fits into buffer and borrows. */
  predicate OneAtATime(cfg: Config) {
    cfg.maxLoans <= 1 && cfg.historySize <= cfg.bufferSize + cfg.maxBorrowed
  }

  /** What a connection holds, what it is still to be offered, and what may be sent without another
      reclaim. */
  ghost function Burden(s: State, k: Connection): int {
    Size(Some(k)) + (|s.sent| - k.next) + |s.loans| - (if s.inFlight.Some? then 1 else 0)
  }

  ghost predicate BurdenInv(cfg: Config, s: State) {
    forall i: nat :: Connected(s, i) ==> Burden(s, s.connections[i].value) <= ReturnChannelSize(cfg)
  }

  lemma FreshBurden(cfg: Config, s: State, i: nat, owner: nat)
    requires OneAtATime(cfg) && Inv(cfg, s) && Enabled(cfg, s, Connect(i, owner))
    ensures Burden(s, Fresh(|s.sent|, |s.history|, owner)) <= ReturnChannelSize(cfg)
  {
  }

  lemma OfferBurden(cfg: Config, s: State, k: Connection, e: Entry)
    requires e.id == k.next
    ensures Burden(s, Push(cfg, k, e)) <= Burden(s, k) && Burden(s, Refuse(k, e)) <= Burden(s, k)
  {
  }

  lemma OfferedId(cfg: Config, s: State, i: nat, accepted: bool)
    requires HistoryInv(cfg, s) && Enabled(cfg, s, OfferHistory(i, accepted))
    ensures s.history[HistoryIndex(s, s.connections[i].value)].id == s.connections[i].value.next
  {
  }

  /** Samples that only move or go back leave no more on the connection. */
  lemma MoveBurden(cfg: Config, s: State, a: Action)
    requires Enabled(cfg, s, a) && (a.Receive? || a.Return? || a.Reclaim?)
    ensures Connected(s, a.slot) && Connected(Step(cfg, s, a), a.slot)
    ensures Burden(s, Step(cfg, s, a).connections[a.slot].value) <= Burden(s, s.connections[a.slot].value)
  {
  }

  lemma AnswerBurden(cfg: Config, s: State, a: Action)
    requires HistoryInv(cfg, s) && Enabled(cfg, s, a) && (a.Offer? || a.OfferHistory?)
    ensures Connected(s, a.slot) && Connected(Step(cfg, s, a), a.slot)
    ensures Burden(s, Step(cfg, s, a).connections[a.slot].value) <= Burden(s, s.connections[a.slot].value)
  {
    var k := s.connections[a.slot].value;
    if a.Offer? {
      OfferBurden(cfg, s, k, s.inFlight.value.entry);
    } else {
      OfferedId(cfg, s, a.slot, a.accepted);
      OfferBurden(cfg, s, k, s.history[HistoryIndex(s, k)]);
    }
  }

  lemma SlotBurden(cfg: Config, s: State, a: Action)
    requires OneAtATime(cfg) && Inv(cfg, s) && BurdenInv(cfg, s) && Enabled(cfg, s, a) && OnSlot(a)
    requires Connected(Step(cfg, s, a), a.slot)
    ensures Burden(s, Step(cfg, s, a).connections[a.slot].value) <= ReturnChannelSize(cfg)
  {
    if a.Connect? {
      FreshBurden(cfg, s, a.slot, a.owner);
    } else if a.Offer? || a.OfferHistory? {
      AnswerBurden(cfg, s, a);
    } else {
      MoveBurden(cfg, s, a);
    }
  }

  lemma OneSlotBurden(cfg: Config, s: State, s': State, i: nat)
    requires BurdenInv(cfg, s) && i < |s.connections| && |s'.connections| == |s.connections|
    requires s'.connections == s.connections[i := s'.connections[i]]
    requires s'.sent == s.sent && s'.loans == s.loans && s'.inFlight == s.inFlight
    requires Connected(s', i) ==> Burden(s, s'.connections[i].value) <= ReturnChannelSize(cfg)
    ensures BurdenInv(cfg, s')
  {
    forall j: nat | Connected(s', j) ensures Burden(s', s'.connections[j].value) <= ReturnChannelSize(cfg) {
      if j != i {
        assert Connected(s, j);
      }
    }
  }

  lemma ConnectionBurden(cfg: Config, s: State, a: Action)
    requires OneAtATime(cfg) && Inv(cfg, s) && BurdenInv(cfg, s) && Enabled(cfg, s, a) && OnSlot(a)
    ensures BurdenInv(cfg, Step(cfg, s, a))
  {
    if Connected(Step(cfg, s, a), a.slot) {
      SlotBurden(cfg, s, a);
    }
    OneSlotBurden(cfg, s, Step(cfg, s, a), a.slot);
  }

  lemma PortBurden(cfg: Config, s: State, a: Action)
    requires OneAtATime(cfg) && Inv(cfg, s) && BurdenInv(cfg, s) && Enabled(cfg, s, a) && !OnSlot(a)
    ensures BurdenInv(cfg, Step(cfg, s, a))
  {
    var s' := Step(cfg, s, a);
    forall i: nat | Connected(s', i) ensures Burden(s', s'.connections[i].value) <= ReturnChannelSize(cfg) {
      assert Connected(s, i);
      assert Burden(s, s.connections[i].value) <= ReturnChannelSize(cfg);
    }
  }

  lemma {:induction false} RunBurden(cfg: Config, s: State, run: seq<Action>, t: State)
    requires OneAtATime(cfg) && Inv(cfg, s) && BurdenInv(cfg, s) && Runs(cfg, s, run, t)
    ensures Inv(cfg, t) && BurdenInv(cfg, t)
    decreases |run|
  {
    if |run| == 0 {
    } else {
      RunsFirst(cfg, s, run, t);
      StepInv(cfg, s, run[0]);
      if OnSlot(run[0]) {
        ConnectionBurden(cfg, s, run[0]);
      } else {
        PortBurden(cfg, s, run[0]);
      }
      RunBurden(cfg, Step(cfg, s, run[0]), run[1..], t);
    }
  }

  /** A publisher that loans one sample at a time never overfills a return channel: whatever a subscriber has
      borrowed, at any moment of any run, it can give back. */
  lemma ReturnIsPossible(cfg: Config, s: State, i: nat)
    requires OneAtATime(cfg) && Reachable(cfg, s) && Connected(s, i)
    ensures Size(s.connections[i]) <= ReturnChannelSize(cfg)
    ensures s.connections[i].value.borrowed != [] ==> |s.connections[i].value.returned| < ReturnChannelSize(cfg)
  {
    var run :| Runs(cfg, Initial(cfg), run, s);
    InitialInv(cfg);
    RunBurden(cfg, Initial(cfg), run, s);
    InFlightIsLoaned(cfg, s);
    assert Burden(s, s.connections[i].value) <= ReturnChannelSize(cfg);
  }

  lemma InFlightIsLoaned(cfg: Config, s: State)
    requires Inv(cfg, s)
    ensures s.inFlight.Some? ==> |s.loans| >= 1
  {
    if s.inFlight.Some? {
      assert s.inFlight.value.entry.chunk in s.loans;
    }
  }
}
