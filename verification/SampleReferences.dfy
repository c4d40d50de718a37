/** Reference conservation: what the counter of a chunk means after every step of every run. */
module SampleReferences {
  import opened Common
  import opened SampleLifecycle

  // ---------------------------------------------------------------- counting

  lemma {:induction false} CountConcat(a: seq<Entry>, b: seq<Entry>, c: nat)
    ensures Count(a + b, c) == Count(a, c) + Count(b, c)
  {
    if |a| == 0 {
      assert a + b == b;
    } else {
      assert (a + b)[1..] == a[1..] + b;
      CountConcat(a[1..], b, c);
    }
  }

  lemma CountAppend(a: seq<Entry>, e: Entry, c: nat)
    ensures Count(a + [e], c) == Count(a, c) + if e.chunk == c then 1 else 0
  {
    CountConcat(a, [e], c);
  }

  lemma CountRemove(a: seq<Entry>, k: nat, c: nat)
    requires k < |a|
    ensures Count(a[..k] + a[k + 1..], c) == Count(a, c) - if a[k].chunk == c then 1 else 0
  {
    assert a == a[..k] + ([a[k]] + a[k + 1..]);
    CountConcat(a[..k], [a[k]] + a[k + 1..], c);
    CountConcat([a[k]], a[k + 1..], c);
    CountConcat(a[..k], a[k + 1..], c);
  }

  lemma CountMember(a: seq<Entry>, k: nat)
    requires k < |a|
    ensures Count(a, a[k].chunk) > 0
  {
    CountRemove(a, k, a[k].chunk);
  }

  lemma {:induction false} ConnectionUpdate(cs: seq<Option<Connection>>, i: nat, x: Option<Connection>, c: nat)
    requires i < |cs|
    ensures AllConnectionRefs(cs[i := x], c) == AllConnectionRefs(cs, c) - ConnectionRefs(cs[i], c) + ConnectionRefs(x, c)
    ensures AllConnectionRefs(cs, c) >= ConnectionRefs(cs[i], c)
  {
    if i > 0 {
      assert cs[i := x][1..] == cs[1..][i - 1 := x];
      ConnectionUpdate(cs[1..], i - 1, x, c);
    } else {
      assert cs[i := x][1..] == cs[1..];
    }
  }

  lemma {:induction false} NoConnectionNoRefs(cs: seq<Option<Connection>>, c: nat)
    requires forall i :: 0 <= i < |cs| ==> cs[i].None?
    ensures AllConnectionRefs(cs, c) == 0
  {
    if |cs| == 0 {
    } else {
      NoConnectionNoRefs(cs[1..], c);
    }
  }

  // ---------------------------------------------------------------- the invariant

  /** The counter of a chunk, plus the increments under way, is the number of its references. */
  ghost predicate Balanced(s: State) {
    forall c: nat :: CounterAt(s, c) + s.owed[c] == Refs(s, c)
  }

  /** A chunk is in the allocator's free set exactly when nothing refers to it. */
  ghost predicate FreeIsUnreferenced(s: State) {
    && (forall c: nat :: c < |s.counter| ==> (c in s.free <==> Refs(s, c) == 0))
    && (forall c: nat :: c >= |s.counter| ==> c !in s.free && Refs(s, c) == 0)
  }

  /** A loan that is not being sent is the only reference to its chunk. */
  ghost predicate LoansAreExclusive(s: State) {
    && (forall c: nat :: s.loans[c] <= 1)
    && (forall c: nat :: s.loans[c] > 0 && !IsInFlight(s, c) ==> Refs(s, c) == 1)
    && (s.inFlight.Some? ==> s.loans[s.inFlight.value.entry.chunk] == 1)
  }

  ghost predicate NonNegative(s: State) {
    forall c :: 0 <= c < |s.counter| ==> s.counter[c] >= 0
  }

  ghost predicate RefInv(cfg: Config, s: State) {
    && |s.counter| == |s.memory| == NumberOfSamples(cfg)
    && s.loanCounter == |s.loans| <= cfg.maxLoans
    && Balanced(s)
    && FreeIsUnreferenced(s)
    && LoansAreExclusive(s)
    && NonNegative(s)
  }

  lemma InitialRefs(cfg: Config)
    ensures RefInv(cfg, Initial(cfg))
  {
    var s := Initial(cfg);
    forall c: nat ensures Refs(s, c) == 0 {
      NoConnectionNoRefs(s.connections, c);
    }
  }

  /** How many references to `c` a step adds or removes. */
  ghost function Delta(cfg: Config, s: State, a: Action, c: nat): int
    requires Enabled(cfg, s, a)
  {
    match a
    case Loan(x, _) => if c == x then 1 else 0
    case CountHistory => if IsInFlight(s, c) then 1 else 0
    case Offer(_, accepted) => if accepted && IsInFlight(s, c) then 1 else 0
    case OfferHistory(i, accepted) =>
      if accepted && s.history[HistoryIndex(s, s.connections[i].value)].chunk == c then 1 else 0
    case Release(x) => if c == x then -1 else 0
    case _ => 0
  }

  lemma PushRefs(cfg: Config, k: Connection, e: Entry, c: nat)
    ensures ConnectionRefs(Some(Push(cfg, k, e)), c) + Count(Evicted(cfg, k), c)
            == ConnectionRefs(Some(k), c) + if e.chunk == c then 1 else 0
    ensures Chunks(Evicted(cfg, k))[c] == Count(Evicted(cfg, k), c)
  {
    if |k.buffered| < cfg.bufferSize {
      CountAppend(k.buffered, e, c);
    } else {
      CountAppend(k.buffered[1..], e, c);
    }
  }

  lemma OfferRefs(cfg: Config, s: State, i: nat, accepted: bool, c: nat)
    requires Enabled(cfg, s, Offer(i, accepted))
    ensures Refs(Step(cfg, s, Offer(i, accepted)), c)
            == Refs(s, c) + Delta(cfg, s, Offer(i, accepted), c)
  {
    ConnectionUpdate(s.connections, i, Step(cfg, s, Offer(i, accepted)).connections[i], c);
    PushRefs(cfg, s.connections[i].value, s.inFlight.value.entry, c);
  }

  lemma OfferHistoryRefs(cfg: Config, s: State, i: nat, accepted: bool, c: nat)
    requires Enabled(cfg, s, OfferHistory(i, accepted))
    ensures Refs(Step(cfg, s, OfferHistory(i, accepted)), c)
            == Refs(s, c) + Delta(cfg, s, OfferHistory(i, accepted), c)
  {
    ConnectionUpdate(s.connections, i, Step(cfg, s, OfferHistory(i, accepted)).connections[i], c);
    PushRefs(cfg, s.connections[i].value, s.history[HistoryIndex(s, s.connections[i].value)], c);
    CountConcat(s.orphaned, Evicted(cfg, s.connections[i].value), c);
  }

  lemma DisconnectRefs(cfg: Config, s: State, i: nat, c: nat)
    requires Enabled(cfg, s, Disconnect(i))
    ensures Refs(Step(cfg, s, Disconnect(i)), c) == Refs(s, c)
  {
    var k := s.connections[i].value;
    ConnectionUpdate(s.connections, i, Step(cfg, s, Disconnect(i)).connections[i], c);
    CountConcat(s.orphaned, k.buffered, c);
    CountConcat(s.orphaned + k.buffered, k.borrowed, c);
    CountConcat(s.orphaned + k.buffered + k.borrowed, k.returned, c);
  }

  lemma SubscriberRefs(cfg: Config, s: State, a: Action, c: nat)
    requires Enabled(cfg, s, a) && (a.Receive? || a.Return?)
    ensures Refs(Step(cfg, s, a), c) == Refs(s, c)
  {
    var k := s.connections[a.slot].value;
    ConnectionUpdate(s.connections, a.slot, Step(cfg, s, a).connections[a.slot], c);
    if a.Receive? {
      CountAppend(k.borrowed, k.buffered[0], c);
    } else {
      CountRemove(k.borrowed, a.which, c);
      CountAppend(k.returned, k.borrowed[a.which], c);
    }
  }

  lemma SlotStepRefs(cfg: Config, s: State, a: Action, c: nat)
    requires Enabled(cfg, s, a) && OnSlot(a)
    ensures Refs(Step(cfg, s, a), c) == Refs(s, c) + Delta(cfg, s, a, c)
  {
    match a {
      case Offer(i, accepted) => OfferRefs(cfg, s, i, accepted, c);
      case OfferHistory(i, accepted) => OfferHistoryRefs(cfg, s, i, accepted, c);
      case Reclaim(i) => ConnectionUpdate(s.connections, i, Step(cfg, s, a).connections[i], c);
      case Connect(i, _) => ConnectionUpdate(s.connections, i, Step(cfg, s, a).connections[i], c);
      case Disconnect(i) => DisconnectRefs(cfg, s, i, c);
      case Receive(_) => SubscriberRefs(cfg, s, a, c);
      case Return(_, _) => SubscriberRefs(cfg, s, a, c);
    }
  }

  lemma StepRefs(cfg: Config, s: State, a: Action, c: nat)
    requires Enabled(cfg, s, a)
    ensures Refs(Step(cfg, s, a), c) == Refs(s, c) + Delta(cfg, s, a, c)
  {
    if OnSlot(a) {
      SlotStepRefs(cfg, s, a, c);
    } else if a.StoreHistory? {
      HistoryRefs(cfg, s, c);
    }
  }

  lemma HistoryRefs(cfg: Config, s: State, c: nat)
    requires Enabled(cfg, s, StoreHistory)
    ensures Refs(Step(cfg, s, StoreHistory), c) == Refs(s, c)
  {
    var e := s.inFlight.value.entry;
    if |s.history| < cfg.historySize {
      CountAppend(s.history, e, c);
    } else {
      CountAppend(s.history[1..], e, c);
    }
  }

  /** Counter and pending increments of `c` change by `delta`, and the counter falls only on release. */
  ghost predicate Counts(s: State, s': State, c: nat, delta: int) {
    && |s'.counter| == |s.counter| && |s'.memory| == |s.memory|
    && CounterAt(s', c) + s'.owed[c] == CounterAt(s, c) + s.owed[c] + delta
    && CounterAt(s', c) >= CounterAt(s, c) - if delta < 0 then 1 else 0
  }

  lemma OfferCounter(cfg: Config, s: State, a: Action, c: nat)
    requires Enabled(cfg, s, a) && (a.Offer? || a.OfferHistory?)
    ensures Counts(s, Step(cfg, s, a), c, Delta(cfg, s, a, c))
  {
  }

  lemma QueueCounter(cfg: Config, s: State, a: Action, c: nat)
    requires Enabled(cfg, s, a) && OnSlot(a) && !a.Offer? && !a.OfferHistory?
    ensures Counts(s, Step(cfg, s, a), c, Delta(cfg, s, a, c))
  {
  }

  lemma LoanCounter(cfg: Config, s: State, a: Action, c: nat)
    requires Enabled(cfg, s, a) && (a.Loan? || a.Release? || a.CountHistory? || a.CountDelivery?)
    ensures Counts(s, Step(cfg, s, a), c, Delta(cfg, s, a, c))
  {
  }

  lemma PortCounter(cfg: Config, s: State, a: Action, c: nat)
    requires Enabled(cfg, s, a) && !OnSlot(a) && !(a.Loan? || a.Release? || a.CountHistory? || a.CountDelivery?)
    ensures Counts(s, Step(cfg, s, a), c, Delta(cfg, s, a, c))
  {
  }

  /** Counter and pending increments move together with the references. */
  lemma StepCounter(cfg: Config, s: State, a: Action, c: nat)
    requires Enabled(cfg, s, a)
    ensures Counts(s, Step(cfg, s, a), c, Delta(cfg, s, a, c))
    ensures a == Release(c) <==> Delta(cfg, s, a, c) < 0
  {
    if a.Offer? || a.OfferHistory? {
      OfferCounter(cfg, s, a, c);
    } else if OnSlot(a) {
      QueueCounter(cfg, s, a, c);
    } else if a.Loan? || a.Release? || a.CountHistory? || a.CountDelivery? {
      LoanCounter(cfg, s, a, c);
    } else {
      PortCounter(cfg, s, a, c);
    }
  }

  lemma StepBalanced(cfg: Config, s: State, a: Action)
    requires RefInv(cfg, s) && Enabled(cfg, s, a)
    ensures Balanced(Step(cfg, s, a))
  {
    var s' := Step(cfg, s, a);
    forall c: nat ensures CounterAt(s', c) + s'.owed[c] == Refs(s', c) {
      StepRefs(cfg, s, a, c);
      StepCounter(cfg, s, a, c);
      assert CounterAt(s, c) + s.owed[c] == Refs(s, c);
    }
  }

  /** A chunk that gains a reference outside of `loan` already had one. */
  lemma GainNeedsReference(cfg: Config, s: State, a: Action, c: nat)
    requires RefInv(cfg, s) && Enabled(cfg, s, a) && !a.Loan?
    requires Delta(cfg, s, a, c) > 0
    ensures Refs(s, c) > 0
    ensures s.loans[c] > 0 ==> IsInFlight(s, c)
  {
    if a.OfferHistory? {
      CountMember(s.history, HistoryIndex(s, s.connections[a.slot].value));
    }
  }

  /** Only the allocation and the last release of a chunk change whether it is free. */
  lemma FreeChanges(cfg: Config, s: State, a: Action, c: nat)
    requires Enabled(cfg, s, a)
    requires a != Release(c) && !(a.Loan? && a.chunk == c)
    ensures c in Step(cfg, s, a).free <==> c in s.free
  {
  }

  lemma FreeAt(cfg: Config, s: State, a: Action, c: nat)
    requires RefInv(cfg, s) && Enabled(cfg, s, a)
    ensures var s' := Step(cfg, s, a);
            if c < |s.counter| then c in s'.free <==> Refs(s', c) == 0 else c !in s'.free && Refs(s', c) == 0
  {
    StepRefs(cfg, s, a, c);
    assert CounterAt(s, c) + s.owed[c] == Refs(s, c);
    if a != Release(c) && !(a.Loan? && a.chunk == c) {
      FreeChanges(cfg, s, a, c);
      if Delta(cfg, s, a, c) > 0 {
        GainNeedsReference(cfg, s, a, c);
      }
    }
  }

  lemma StepFree(cfg: Config, s: State, a: Action)
    requires RefInv(cfg, s) && Enabled(cfg, s, a)
    ensures FreeIsUnreferenced(Step(cfg, s, a))
  {
    var s' := Step(cfg, s, a);
    StepCounter(cfg, s, a, 0);
    forall c: nat
      ensures c < |s'.counter| ==> (c in s'.free <==> Refs(s', c) == 0)
      ensures c >= |s'.counter| ==> c !in s'.free && Refs(s', c) == 0
    {
      FreeAt(cfg, s, a, c);
    }
  }

  /** A step starts or ends at most one loan, and only publishing and finishing change what is in flight. */
  lemma LoanChanges(cfg: Config, s: State, a: Action, c: nat)
    requires Enabled(cfg, s, a)
    ensures !a.Loan? && !a.DropLoan? && !a.FinishSend? ==> Step(cfg, s, a).loans == s.loans
    ensures !a.Publish? && !a.FinishSend? ==> (IsInFlight(Step(cfg, s, a), c) <==> IsInFlight(s, c))
    ensures a.Publish? ==> (IsInFlight(Step(cfg, s, a), c) <==> a.chunk == c)
  {
  }

  ghost predicate LoanFits(s: State, c: nat) {
    && s.loans[c] <= 1
    && (s.loans[c] > 0 && !IsInFlight(s, c) ==> Refs(s, c) == 1)
    && (IsInFlight(s, c) ==> s.loans[c] == 1)
  }

  lemma LoanStarts(cfg: Config, s: State, x: nat, junk: int, c: nat)
    requires RefInv(cfg, s) && Enabled(cfg, s, Loan(x, junk))
    ensures LoanFits(Step(cfg, s, Loan(x, junk)), c)
  {
    StepRefs(cfg, s, Loan(x, junk), c);
  }

  lemma LoanEnds(cfg: Config, s: State, a: Action, c: nat)
    requires RefInv(cfg, s) && Enabled(cfg, s, a) && (a.DropLoan? || a.FinishSend?)
    ensures LoanFits(Step(cfg, s, a), c)
  {
    StepRefs(cfg, s, a, c);
  }

  lemma LoanAt(cfg: Config, s: State, a: Action, c: nat)
    requires RefInv(cfg, s) && Enabled(cfg, s, a)
    ensures LoanFits(Step(cfg, s, a), c)
  {
    if a.Loan? {
      LoanStarts(cfg, s, a.chunk, a.junk, c);
    } else if a.DropLoan? || a.FinishSend? {
      LoanEnds(cfg, s, a, c);
    } else {
      LoanChanges(cfg, s, a, c);
      StepRefs(cfg, s, a, c);
      if Delta(cfg, s, a, c) > 0 {
        GainNeedsReference(cfg, s, a, c);
      }
      if Delta(cfg, s, a, c) < 0 {
        assert s.held[c] > 0 && s.held[c] + s.loans[c] <= Refs(s, c);
      }
    }
  }

  lemma StepLoans(cfg: Config, s: State, a: Action)
    requires RefInv(cfg, s) && Enabled(cfg, s, a)
    ensures LoansAreExclusive(Step(cfg, s, a))
  {
    var s' := Step(cfg, s, a);
    forall c: nat
      ensures s'.loans[c] <= 1
      ensures s'.loans[c] > 0 && !IsInFlight(s', c) ==> Refs(s', c) == 1
      ensures IsInFlight(s', c) ==> s'.loans[c] == 1
    {
      LoanAt(cfg, s, a, c);
      assert LoanFits(s', c);
    }
  }

  lemma StepNonNegative(cfg: Config, s: State, a: Action)
    requires RefInv(cfg, s) && Enabled(cfg, s, a)
    ensures NonNegative(Step(cfg, s, a))
  {
    var s' := Step(cfg, s, a);
    forall c: nat | c < |s'.counter| ensures CounterAt(s', c) >= 0 {
      StepCounter(cfg, s, a, c);
      assert CounterAt(s, c) + s.owed[c] == Refs(s, c);
      assert CounterAt(s, c) == s.counter[c];
    }
    forall c | 0 <= c < |s'.counter| ensures s'.counter[c] >= 0 {
      assert CounterAt(s', c) == s'.counter[c];
    }
  }

  lemma StepLoanCount(cfg: Config, s: State, a: Action)
    requires s.loanCounter == |s.loans| <= cfg.maxLoans && Enabled(cfg, s, a)
    ensures Step(cfg, s, a).loanCounter == |Step(cfg, s, a).loans| <= cfg.maxLoans
  {
  }

  lemma StepKeepsRefs(cfg: Config, s: State, a: Action)
    requires RefInv(cfg, s) && Enabled(cfg, s, a)
    ensures RefInv(cfg, Step(cfg, s, a))
  {
    StepCounter(cfg, s, a, 0);
    StepLoanCount(cfg, s, a);
    StepBalanced(cfg, s, a);
    StepFree(cfg, s, a);
    StepLoans(cfg, s, a);
    StepNonNegative(cfg, s, a);
  }
}
