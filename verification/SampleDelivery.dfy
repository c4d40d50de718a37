/** What subscribers get: which samples, in which order, with which payload. */
module SampleDelivery {
  import opened Common
  import opened SampleLifecycle
  import opened SampleReferences

  // ---------------------------------------------------------------- order

  function Ids(es: seq<Entry>): seq<int> {
    seq(|es|, j requires 0 <= j < |es| => es[j].id)
  }

  /** The ids the subscriber has received, then those waiting for it. */
  function Trail(k: Connection): seq<int> {
    k.received + Ids(k.buffered)
  }

  ghost predicate Bounded(cfg: Config, k: Connection) {
    && |k.buffered| <= cfg.bufferSize
    && |k.borrowed| <= cfg.maxBorrowed
    && |k.returned| <= ReturnChannelSize(cfg)
  }

  /** In order, without duplicates, and every offered sample is accounted for. As long as none was
      refused, the buffer holds the newest ones, without a gap. */
  ghost predicate Ordered(k: Connection) {
    && k.first <= k.next
    && Increasing(Trail(k))
    && (forall j :: 0 <= j < |Trail(k)| ==> k.first <= Trail(k)[j] < k.next)
    && |k.received| + |k.buffered| + k.refused + k.evicted == k.next - k.first
    && |k.borrowed| + |k.returned| <= |k.received|
    && (k.refused == 0 ==> forall j :: 0 <= j < |k.buffered| ==> k.buffered[j].id == k.next - |k.buffered| + j)
  }

  ghost predicate ConnectionsInv(cfg: Config, s: State) {
    && |s.connections| == cfg.maxSubscribers
    && forall i: nat :: Connected(s, i) ==>
         Bounded(cfg, s.connections[i].value) && Ordered(s.connections[i].value)
         && s.connections[i].value.next <= |s.sent|
  }

  /** How many sends have reached the history. */
  function Recorded(s: State): int {
    if s.inFlight.Some? && s.inFlight.value.progress != Stored then |s.sent| - 1 else |s.sent|
  }

  /** The history is the last `historySize` sends, oldest first. */
  ghost predicate HistoryInv(cfg: Config, s: State) {
    && (s.inFlight.Some? ==> s.inFlight.value.entry.id == |s.sent| - 1)
    && (cfg.historySize == 0 ==> s.history == [])
    && (cfg.historySize > 0 ==>
         && |s.history| == (if Recorded(s) < cfg.historySize then Recorded(s) else cfg.historySize)
         && forall j :: 0 <= j < |s.history| ==> s.history[j].id == Recorded(s) - |s.history| + j)
  }

  /** Leaving out one element and appending a larger one keeps a sequence increasing. */
  lemma CutAppendIncreasing(t: seq<int>, cut: nat, t': seq<int>, x: int)
    requires Increasing(t) && (forall j :: 0 <= j < |t| ==> t[j] < x)
    requires t' == t + [x] || (cut < |t| && t' == t[..cut] + t[cut + 1..] + [x])
    ensures Increasing(t')
    ensures forall j :: 0 <= j < |t'| ==> t'[j] == x || exists m :: 0 <= m < |t| && t'[j] == t[m]
  {
    if t' != t + [x] {
      forall j | 0 <= j < |t'| - 1 ensures t'[j] == t[if j < cut then j else j + 1] {
      }
    }
  }

  lemma AppendOrdered(k: Connection, e: Entry)
    requires Ordered(k) && e.id == k.next
    ensures Ordered(k.(buffered := k.buffered + [e], next := e.id + 1))
  {
    var k' := k.(buffered := k.buffered + [e], next := e.id + 1);
    assert Trail(k') == Trail(k) + [e.id];
    CutAppendIncreasing(Trail(k), 0, Trail(k'), e.id);
  }

  lemma CutConcat(a: seq<int>, b: seq<int>, x: int)
    requires |b| > 0
    ensures a + (b[1..] + [x]) == (a + b)[..|a|] + (a + b)[|a| + 1..] + [x]
  {
  }

  lemma IdsShift(es: seq<Entry>, e: Entry)
    requires |es| > 0
    ensures Ids(es[1..] + [e]) == Ids(es)[1..] + [e.id]
  {
  }

  lemma EvictOrdered(k: Connection, e: Entry)
    requires Ordered(k) && e.id == k.next && |k.buffered| > 0
    ensures Ordered(k.(buffered := k.buffered[1..] + [e], next := e.id + 1, evicted := k.evicted + 1))
  {
    var k' := k.(buffered := k.buffered[1..] + [e], next := e.id + 1, evicted := k.evicted + 1);
    IdsShift(k.buffered, e);
    CutConcat(k.received, Ids(k.buffered), e.id);
    CutAppendIncreasing(Trail(k), |k.received|, Trail(k'), e.id);
  }

  lemma PushOrdered(cfg: Config, k: Connection, e: Entry)
    requires Bounded(cfg, k) && Ordered(k) && Room(cfg, k) && e.id == k.next
    ensures Bounded(cfg, Push(cfg, k, e)) && Ordered(Push(cfg, k, e))
  {
    if |k.buffered| < cfg.bufferSize {
      AppendOrdered(k, e);
    } else {
      EvictOrdered(k, e);
    }
  }

  lemma RefuseOrdered(cfg: Config, k: Connection, e: Entry)
    requires Bounded(cfg, k) && Ordered(k) && e.id == k.next
    ensures Bounded(cfg, Refuse(k, e)) && Ordered(Refuse(k, e))
  {
    assert Trail(Refuse(k, e)) == Trail(k);
  }

  ghost predicate Good(cfg: Config, sends: nat, x: Option<Connection>) {
    x.Some? ==> Bounded(cfg, x.value) && Ordered(x.value) && x.value.next <= sends
  }

  lemma SlotConnections(cfg: Config, s: State, s': State, i: nat)
    requires ConnectionsInv(cfg, s) && i < |s.connections| == |s'.connections|
    requires s'.connections == s.connections[i := s'.connections[i]] && s'.sent == s.sent
    requires Good(cfg, |s.sent|, s'.connections[i])
    ensures ConnectionsInv(cfg, s')
  {
    forall j: nat | Connected(s', j) ensures Good(cfg, |s'.sent|, s'.connections[j]) {
      if j != i {
        assert Connected(s, j);
      }
    }
  }

  lemma OfferConnections(cfg: Config, s: State, i: nat, e: Entry, accepted: bool, s': State)
    requires ConnectionsInv(cfg, s) && Connected(s, i)
    requires e.id == s.connections[i].value.next < |s.sent|
    requires accepted ==> Room(cfg, s.connections[i].value)
    requires s'.sent == s.sent
    requires s'.connections == s.connections[i := Some(if accepted then Push(cfg, s.connections[i].value, e)
                                                       else Refuse(s.connections[i].value, e))]
    ensures ConnectionsInv(cfg, s')
  {
    var k := s.connections[i].value;
    if accepted {
      PushOrdered(cfg, k, e);
    } else {
      RefuseOrdered(cfg, k, e);
    }
    SlotConnections(cfg, s, s', i);
  }

  lemma ReceivedOrdered(k: Connection)
    requires Ordered(k) && |k.buffered| > 0
    ensures Ordered(Received(k))
  {
    assert Trail(Received(k)) == Trail(k);
  }

  lemma SameTrailOrdered(k: Connection, k': Connection)
    requires Ordered(k)
    requires k' == k.(borrowed := k'.borrowed, returned := k'.returned)
    requires |k'.borrowed| + |k'.returned| <= |k.borrowed| + |k.returned|
    ensures Ordered(k')
  {
    assert Trail(k') == Trail(k);
  }

  /** What receiving, returning and reclaiming make of a connection. */
  lemma MovedGood(cfg: Config, sends: nat, k: Connection)
    requires Good(cfg, sends, Some(k))
    ensures |k.buffered| > 0 && |k.borrowed| < cfg.maxBorrowed ==> Good(cfg, sends, Some(Received(k)))
    ensures |k.returned| > 0 ==> Good(cfg, sends, Some(Reclaimed(k)))
  {
    if |k.buffered| > 0 {
      ReceivedOrdered(k);
    }
    if |k.returned| > 0 {
      SameTrailOrdered(k, Reclaimed(k));
    }
  }

  lemma ReturnedGood(cfg: Config, sends: nat, k: Connection, w: nat)
    requires Good(cfg, sends, Some(k)) && w < |k.borrowed| && |k.returned| < ReturnChannelSize(cfg)
    ensures Good(cfg, sends, Some(Returned(k, w)))
  {
    SameTrailOrdered(k, Returned(k, w));
  }

  lemma FreshGood(cfg: Config, s: State, owner: nat)
    requires HistoryInv(cfg, s) && s.inFlight.None?
    ensures Good(cfg, |s.sent|, Some(Fresh(|s.sent|, |s.history|, owner)))
  {
    assert Trail(Fresh(|s.sent|, |s.history|, owner)) == [];
  }

  lemma QueueGood(cfg: Config, s: State, a: Action)
    requires ConnectionsInv(cfg, s) && HistoryInv(cfg, s) && Enabled(cfg, s, a)
    requires OnSlot(a) && !a.Offer? && !a.OfferHistory?
    ensures Good(cfg, |s.sent|, Step(cfg, s, a).connections[a.slot])
  {
    if a.Connect? {
      FreshGood(cfg, s, a.owner);
    } else {
      assert Connected(s, a.slot);
      var k := s.connections[a.slot].value;
      MovedGood(cfg, |s.sent|, k);
      if a.Return? {
        ReturnedGood(cfg, |s.sent|, k, a.which);
      }
    }
  }

  /** The steps on one connection that offer it nothing. */
  lemma QueueConnections(cfg: Config, s: State, a: Action)
    requires ConnectionsInv(cfg, s) && HistoryInv(cfg, s) && Enabled(cfg, s, a)
    requires OnSlot(a) && !a.Offer? && !a.OfferHistory?
    ensures ConnectionsInv(cfg, Step(cfg, s, a))
  {
    QueueGood(cfg, s, a);
    SlotConnections(cfg, s, Step(cfg, s, a), a.slot);
  }

  lemma OfferStepConnections(cfg: Config, s: State, a: Action)
    requires ConnectionsInv(cfg, s) && HistoryInv(cfg, s) && Enabled(cfg, s, a)
    requires a.Offer? || a.OfferHistory?
    ensures ConnectionsInv(cfg, Step(cfg, s, a))
  {
    var k := s.connections[a.slot].value;
    var e := if a.Offer? then s.inFlight.value.entry else s.history[HistoryIndex(s, k)];
    OfferConnections(cfg, s, a.slot, e, a.accepted, Step(cfg, s, a));
  }

  lemma StepConnections(cfg: Config, s: State, a: Action)
    requires ConnectionsInv(cfg, s) && HistoryInv(cfg, s) && Enabled(cfg, s, a)
    ensures ConnectionsInv(cfg, Step(cfg, s, a))
  {
    if a.Offer? || a.OfferHistory? {
      OfferStepConnections(cfg, s, a);
    } else if OnSlot(a) {
      QueueConnections(cfg, s, a);
    } else {
      OtherConnections(cfg, s, a);
    }
  }

  lemma OtherConnections(cfg: Config, s: State, a: Action)
    requires ConnectionsInv(cfg, s) && Enabled(cfg, s, a)
    requires Step(cfg, s, a).connections == s.connections
    ensures ConnectionsInv(cfg, Step(cfg, s, a))
  {
    var s' := Step(cfg, s, a);
    forall j: nat | Connected(s', j) ensures Good(cfg, |s'.sent|, s'.connections[j]) {
      assert Connected(s, j);
    }
  }

  lemma SameHistory(cfg: Config, s: State, s': State)
    requires HistoryInv(cfg, s) && s'.history == s.history
    requires cfg.historySize > 0 ==> Recorded(s') == Recorded(s)
    requires s'.inFlight.Some? ==> s'.inFlight.value.entry.id == |s'.sent| - 1
    ensures HistoryInv(cfg, s')
  {
  }

  lemma StoreHistoryInv(cfg: Config, s: State)
    requires HistoryInv(cfg, s) && Enabled(cfg, s, StoreHistory)
    ensures HistoryInv(cfg, Step(cfg, s, StoreHistory))
  {
    var s' := Step(cfg, s, StoreHistory);
    assert Recorded(s') == Recorded(s) + 1;
  }

  lemma StepHistory(cfg: Config, s: State, a: Action)
    requires HistoryInv(cfg, s) && Enabled(cfg, s, a)
    ensures HistoryInv(cfg, Step(cfg, s, a))
  {
    if a.StoreHistory? {
      StoreHistoryInv(cfg, s);
    } else {
      SameHistory(cfg, s, Step(cfg, s, a));
    }
  }

  // ---------------------------------------------------------------- payload

  /** Each entry still points at the payload of the send that created it. */
  ghost predicate Intact(s: State, es: seq<Entry>) {
    forall j :: 0 <= j < |es| ==>
      es[j].chunk < |s.memory| && es[j].id < |s.sent| && s.memory[es[j].chunk] == s.sent[es[j].id]
  }

  ghost predicate ConnectionIntact(s: State, k: Connection) {
    Intact(s, k.buffered) && Intact(s, k.borrowed) && Intact(s, k.returned)
  }

  ghost predicate PayloadInv(s: State) {
    && Intact(s, s.history)
    && Intact(s, s.orphaned)
    && (s.inFlight.Some? ==> Intact(s, [s.inFlight.value.entry]))
    && forall i: nat :: Connected(s, i) ==> ConnectionIntact(s, s.connections[i].value)
  }

  lemma UncountedUntouched(es: seq<Entry>, c: nat)
    requires Count(es, c) == 0
    ensures forall j :: 0 <= j < |es| ==> es[j].chunk != c
  {
    forall j | 0 <= j < |es| ensures es[j].chunk != c {
      CountMember(es, j);
    }
  }

  /** Writing into a chunk that no entry refers to changes no sample. */
  lemma WriteKeepsPayload(s: State, s': State, c: nat, v: int)
    requires PayloadInv(s) && c < |s.memory|
    requires Count(s.history, c) == 0 && Count(s.orphaned, c) == 0 && AllConnectionRefs(s.connections, c) == 0
    requires s.inFlight.Some? ==> s.inFlight.value.entry.chunk != c
    requires s'.memory == s.memory[c := v] && s'.sent == s.sent && s'.history == s.history
    requires s'.orphaned == s.orphaned && s'.inFlight == s.inFlight && s'.connections == s.connections
    ensures PayloadInv(s')
  {
    UncountedUntouched(s.history, c);
    UncountedUntouched(s.orphaned, c);
    forall i: nat | Connected(s, i) ensures ConnectionIntact(s', s.connections[i].value) {
      var k := s.connections[i].value;
      ConnectionUpdate(s.connections, i, None, c);
      UncountedUntouched(k.buffered, c);
      UncountedUntouched(k.borrowed, c);
      UncountedUntouched(k.returned, c);
      assert ConnectionIntact(s, k);
    }
  }

  lemma StepPayload(cfg: Config, s: State, a: Action)
    requires RefInv(cfg, s) && PayloadInv(s) && Enabled(cfg, s, a)
    ensures PayloadInv(Step(cfg, s, a))
  {
    match a
    case Loan(c, v) =>
      WriteKeepsPayload(s, Step(cfg, s, a), c, v);
    case Write(c, v) =>
      WriteKeepsPayload(s, Step(cfg, s, a), c, v);
    case Publish(c) => PublishPayload(cfg, s, c);
    case _ => QueuePayload(cfg, s, a);
  }

  lemma PublishPayload(cfg: Config, s: State, c: nat)
    requires PayloadInv(s) && Enabled(cfg, s, Publish(c))
    ensures PayloadInv(Step(cfg, s, Publish(c)))
  {
    forall i: nat | Connected(s, i)
      ensures ConnectionIntact(Step(cfg, s, Publish(c)), s.connections[i].value)
    {
      assert ConnectionIntact(s, s.connections[i].value);
    }
  }

  lemma PushIntact(cfg: Config, s: State, k: Connection, e: Entry)
    requires ConnectionIntact(s, k) && Intact(s, [e])
    ensures ConnectionIntact(s, Push(cfg, k, e)) && ConnectionIntact(s, Refuse(k, e))
    ensures Intact(s, Evicted(cfg, k))
  {
    assert [e][0] == e;
  }

  lemma OfferIntact(cfg: Config, s: State, a: Action)
    requires PayloadInv(s) && Enabled(cfg, s, a) && (a.Offer? || a.OfferHistory?)
    ensures Connected(Step(cfg, s, a), a.slot) && ConnectionIntact(s, Step(cfg, s, a).connections[a.slot].value)
    ensures Intact(s, Step(cfg, s, a).orphaned)
  {
    var k := s.connections[a.slot].value;
    var e := if a.Offer? then s.inFlight.value.entry else s.history[HistoryIndex(s, k)];
    assert Connected(s, a.slot) && Intact(s, [e]);
    PushIntact(cfg, s, k, e);
  }

  lemma MovedIntact(s: State, k: Connection)
    requires ConnectionIntact(s, k)
    ensures |k.buffered| > 0 ==> ConnectionIntact(s, Received(k))
    ensures |k.returned| > 0 ==> ConnectionIntact(s, Reclaimed(k))
    ensures forall w: nat :: w < |k.borrowed| ==> ConnectionIntact(s, Returned(k, w))
  {
  }

  lemma LeftIntact(s: State, k: Connection)
    requires ConnectionIntact(s, k) && Intact(s, s.orphaned)
    ensures Intact(s, s.orphaned + k.buffered + k.borrowed + k.returned)
  {
  }

  lemma QueueIntact(cfg: Config, s: State, a: Action)
    requires PayloadInv(s) && Enabled(cfg, s, a) && OnSlot(a) && !a.Offer? && !a.OfferHistory?
    ensures Connected(Step(cfg, s, a), a.slot) ==> ConnectionIntact(s, Step(cfg, s, a).connections[a.slot].value)
    ensures Intact(s, Step(cfg, s, a).orphaned)
  {
    if !a.Connect? {
      assert Connected(s, a.slot);
      var k := s.connections[a.slot].value;
      MovedIntact(s, k);
      LeftIntact(s, k);
    }
  }

  /** A change of one slot and of the orphans to entries that are intact. */
  lemma SlotPayload(s: State, s': State, i: nat)
    requires PayloadInv(s) && i < |s.connections| == |s'.connections|
    requires s'.memory == s.memory && s'.sent == s.sent && s'.history == s.history && s'.inFlight == s.inFlight
    requires s'.connections == s.connections[i := s'.connections[i]]
    requires Connected(s', i) ==> ConnectionIntact(s, s'.connections[i].value)
    requires Intact(s, s'.orphaned)
    ensures PayloadInv(s')
  {
    forall j: nat | Connected(s', j) ensures ConnectionIntact(s', s'.connections[j].value) {
      if j != i {
        assert Connected(s, j);
      }
    }
  }

  /** Nothing that an entry points at changes, and no queue but the history does. */
  lemma HistoryPayload(s: State, s': State)
    requires PayloadInv(s) && Intact(s, s'.history)
    requires s'.memory == s.memory && s'.sent == s.sent && s'.orphaned == s.orphaned && s'.connections == s.connections
    requires s'.inFlight.Some? ==> s.inFlight.Some? && s'.inFlight.value.entry == s.inFlight.value.entry
    ensures PayloadInv(s')
  {
    forall i: nat | Connected(s', i) ensures ConnectionIntact(s', s'.connections[i].value) {
      assert Connected(s, i);
    }
  }

  lemma StoredIntact(cfg: Config, s: State)
    requires PayloadInv(s) && Enabled(cfg, s, StoreHistory)
    ensures Intact(s, HistoryAfter(cfg, s.history, s.inFlight.value.entry))
  {
    assert [s.inFlight.value.entry][0] == s.inFlight.value.entry;
  }

  /** The steps between history, loans and the send in progress. */
  lemma PortPayload(cfg: Config, s: State, a: Action)
    requires PayloadInv(s) && Enabled(cfg, s, a)
    requires !OnSlot(a) && !a.Loan? && !a.Write? && !a.Publish?
    ensures PayloadInv(Step(cfg, s, a))
  {
    if a.StoreHistory? {
      StoredIntact(cfg, s);
    }
    HistoryPayload(s, Step(cfg, s, a));
  }

  /** The steps that only move entries from one queue to another: memory and sends are unchanged. */
  lemma QueuePayload(cfg: Config, s: State, a: Action)
    requires PayloadInv(s) && Enabled(cfg, s, a)
    requires !a.Loan? && !a.Write? && !a.Publish?
    ensures PayloadInv(Step(cfg, s, a))
  {
    if !OnSlot(a) {
      PortPayload(cfg, s, a);
    } else {
      if a.Offer? || a.OfferHistory? {
        OfferIntact(cfg, s, a);
      } else {
        QueueIntact(cfg, s, a);
      }
      SlotPayload(s, Step(cfg, s, a), a.slot);
    }
  }
}
