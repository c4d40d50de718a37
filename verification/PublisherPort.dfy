/** The publisher port as it runs: loops over connections, with subscribers receiving and returning
    samples between any two accesses to a connection. `Valid()` says that the port's state was
    reached by a run of the sample lifecycle, so all theorems about runs hold for it. */
module PublisherPort {
  import opened Common
  import opened SampleLifecycle
  import opened SampleReferences
  import opened SampleDelivery
  import opened SampleTheorems
  import opened SampleReturns
  import opened SampleCapacity

  datatype LoanResult = Loaned(chunk: nat) | OutOfMemory | ExceedsMaxLoanedChunks | AlreadyInUse

  datatype SendError = ReceiveBufferFull | ClearRetrieveChannelBeforeSend

  /** What becomes of an attempt to create the connection of a slot: on failure the degradation
      callback decides whether the whole update fails. */
  datatype Attempt = Succeeds | Fails(fatal: bool)

  datatype SendResult = Sent(recipients: nat) | ConnectionError | Blocked

  datatype ReceiveResult = Taken(entry: Entry) | Nothing | ExceedsMaxBorrowedSamples

  // ---------------------------------------------------------------- what subscribers may do

  /** What subscribers can change about a connection behind the publisher's back. */
  ghost predicate Later(k: Connection, k': Connection) {
    && k'.owner == k.owner && k'.first == k.first && k'.next == k.next
    && k'.refused == k.refused && k'.evicted == k.evicted
    && Size(Some(k')) == Size(Some(k))
    && |k'.buffered| <= |k.buffered| && |k'.returned| >= |k.returned|
  }

  ghost predicate LaterAll(cs: seq<Option<Connection>>, cs': seq<Option<Connection>>) {
    && |cs'| == |cs|
    && forall i :: 0 <= i < |cs| ==>
         && cs'[i].Some? == cs[i].Some?
         && (cs[i].Some? ==> Later(cs[i].value, cs'[i].value))
  }

  ghost predicate Interfered(s: State, t: State) {
    t == s.(connections := t.connections) && LaterAll(s.connections, t.connections)
  }

  /** What reclaiming changes, besides the interference. */
  ghost predicate Recovered(k: Connection, k': Connection) {
    && k'.owner == k.owner && k'.first == k.first && k'.next == k.next
    && k'.refused == k.refused && k'.evicted == k.evicted
    && Size(Some(k')) <= Size(Some(k))
    && |k'.buffered| + |k'.borrowed| <= |k.buffered| + |k.borrowed|
  }

  /** Everything that had been returned has been reclaimed. */
  ghost predicate Emptied(x: Option<Connection>, y: Option<Connection>) {
    x.Some? && y.Some? ==> Size(y) + |x.value.returned| <= Size(x)
  }

  ghost predicate RecoveredAll(s: State, t: State) {
    && t == s.(connections := t.connections, counter := t.counter, free := t.free)
    && |t.connections| == |s.connections|
    && forall i :: 0 <= i < |s.connections| ==>
         && t.connections[i].Some? == s.connections[i].Some?
         && (s.connections[i].Some? ==> Recovered(s.connections[i].value, t.connections[i].value))
  }

  /** Once emptied, a connection stays so while the others are drained. */
  lemma EmptiedNext(cs: seq<Option<Connection>>, before: seq<Option<Connection>>, after: seq<Option<Connection>>, i: nat)
    requires i < |cs| && AllKept(cs, before) && AllKept(before, after)
    requires forall j :: 0 <= j < i ==> Emptied(cs[j], before[j])
    requires Emptied(before[i], after[i])
    ensures forall j :: 0 <= j <= i ==> Emptied(cs[j], after[j])
  {
    forall j | 0 <= j <= i ensures Emptied(cs[j], after[j]) {
      assert Kept(cs[j], before[j]) && Kept(before[j], after[j]);
    }
  }

  /** No operation of the publisher is under way. */
  ghost predicate Idle(s: State) {
    s.held == multiset{} && s.owed == multiset{} && s.inFlight.None? && CaughtUp(s)
  }

  /** Only the connection in slot `i`, the counters and the orphans differ, up to interference. */
  ghost predicate Others(s: State, t: State, i: nat) {
    && t == s.(connections := t.connections, counter := t.counter, owed := t.owed, orphaned := t.orphaned)
    && |t.connections| == |s.connections|
    && forall j :: 0 <= j < |s.connections| && j != i ==>
         && t.connections[j].Some? == s.connections[j].Some?
         && (s.connections[j].Some? ==> Later(s.connections[j].value, t.connections[j].value))
  }

  lemma OutOfMemoryNeedsOrphans(cfg: Config, s: State)
    requires Reachable(cfg, s) && Drained(cfg, s) && s.held == multiset{} && s.loanCounter < cfg.maxLoans
    requires s.free == {}
    ensures |ChunkSet(s.orphaned)| >= 2
  {
    ReachableInv(cfg, s);
    if |ChunkSet(s.orphaned)| <= 1 {
      FreeChunkExists(cfg, s);
    }
  }

  lemma UnsentLoanCounter(cfg: Config, s: State, c: nat)
    requires Reachable(cfg, s) && s.loans[c] > 0 && s.inFlight.None? && s.owed == multiset{}
    ensures c < |s.counter| && s.counter[c] == 1
  {
    ReachableInv(cfg, s);
    assert Refs(s, c) == 1;
    assert CounterAt(s, c) + s.owed[c] == Refs(s, c);
  }

  lemma EmptyReturnSize(cfg: Config, s: State, i: nat)
    requires Reachable(cfg, s) && Connected(s, i) && s.connections[i].value.returned == []
    ensures Size(s.connections[i]) <= cfg.bufferSize + cfg.maxBorrowed
  {
    ReachableInv(cfg, s);
  }

  /** One more entry of the history has been offered; it evicts another only if the buffer may overflow and
      may be full. */
  ghost predicate HistoryTaken(cfg: Config, k: Connection, k': Connection) {
    && k'.owner == k.owner && k'.first == k.first && k'.next == k.next + 1
    && (!cfg.overflow || Size(Some(k)) < cfg.bufferSize ==> k'.evicted == k.evicted)
  }

  lemma InterferedOthers(s: State, t: State, u: State, i: nat)
    requires Interfered(s, t) && Others(t, u, i)
    ensures Others(s, u, i)
  {
  }

  lemma OthersInterfered(s: State, t: State, u: State, i: nat)
    requires Others(s, t, i) && Interfered(t, u)
    ensures Others(s, u, i)
  {
  }

  /** Creating the connection of slot `i` fails and the degradation callback turns it into an error. */
  predicate Fatal(cs: seq<Option<Connection>>, visited: seq<Option<nat>>, attempts: seq<Attempt>, i: nat)
    requires i < |cs| && i < |visited| && i < |attempts|
  {
    visited[i].Some? && cs[i].None? && attempts[i] == Fails(true)
  }

  ghost predicate Kept(x: Option<Connection>, y: Option<Connection>) {
    y.Some? == x.Some? && (x.Some? ==> Recovered(x.value, y.value))
  }

  ghost predicate AllKept(cs: seq<Option<Connection>>, cs': seq<Option<Connection>>) {
    |cs'| == |cs| && forall i :: 0 <= i < |cs| ==> Kept(cs[i], cs'[i])
  }

  ghost predicate AllEmptied(cs: seq<Option<Connection>>, cs': seq<Option<Connection>>) {
    |cs'| == |cs| && forall i :: 0 <= i < |cs| ==> Emptied(cs[i], cs'[i])
  }

  /** A slot after an update, given the slot before it. */
  ghost predicate Updated(cfg: Config, x: Option<Connection>, visitor: Option<nat>, attempt: Attempt,
                          y: Option<Connection>, sends: nat, history: nat)
  {
    if visitor.None? then y.None?
    else if x.Some? then Kept(x, y)
    else if attempt.Succeeds? then
      && y.Some? && y.value.owner == visitor.value
      && y.value.first == sends - history && y.value.next == sends
      && (history <= cfg.bufferSize ==> y.value.refused == 0 && y.value.evicted == 0)
    else y.None?
  }

  // ---------------------------------------------------------------- whom a slot serves

  function OwnerOf(x: Option<Connection>): Option<nat> {
    match x
    case None => None
    case Some(k) => Some(k.owner)
  }

  /** After an update a slot serves subscriber `b` if its connection already belonged to `b`, or if the
      slot was empty, `b` is in it and the connection can be created. */
  predicate WillServe(owner: Option<nat>, visitor: Option<nat>, attempt: Attempt, b: nat) {
    visitor.Some? && (owner == Some(b) || (owner.None? && attempt.Succeeds? && visitor == Some(b)))
  }

  /** The slot's connection belongs to subscriber `b`, who has been offered every sample before `n`. */
  predicate Serves(x: Option<Connection>, b: nat, n: nat) {
    x.Some? && x.value.owner == b && x.value.next == n
  }

  ghost predicate ServesAsUpdated(cs: seq<Option<Connection>>, visited: seq<Option<nat>>, attempts: seq<Attempt>,
                                  cs': seq<Option<Connection>>, n: nat)
    requires |cs| == |visited| == |attempts| == |cs'|
  {
    forall i, b: nat :: 0 <= i < |cs| ==>
      (Serves(cs'[i], b, n) <==> WillServe(OwnerOf(cs[i]), visited[i], attempts[i], b))
  }

  /** The owner of a slot after updates that saw the slot as `visits`. */
  function OwnerAfter(owner: Option<nat>, visits: seq<Option<nat>>, attempts: seq<Attempt>): Option<nat>
    requires |visits| == |attempts|
    decreases |visits|
  {
    if |visits| == 0 then owner
    else OwnerAfter(NextOwner(owner, visits[0], attempts[0]), visits[1..], attempts[1..])
  }

  function NextOwner(owner: Option<nat>, visitor: Option<nat>, attempt: Attempt): (r: Option<nat>)
    ensures forall b: nat :: r == Some(b) <==> WillServe(owner, visitor, attempt, b)
  {
    if visitor.None? then None
    else if owner.Some? then owner
    else if attempt.Succeeds? then visitor
    else None
  }

  /** As long as no update sees the slot empty, its connection stays with its first owner. */
  lemma {:induction false} StaleOwnerStays(owner: nat, visits: seq<Option<nat>>, attempts: seq<Attempt>)
    requires |visits| == |attempts| && None !in visits
    ensures OwnerAfter(Some(owner), visits, attempts) == Some(owner)
  {
    if |visits| == 0 {
    } else {
      StaleOwnerStays(owner, visits[1..], attempts[1..]);
    }
  }

  /** However many updates find subscriber `b` in a slot, `b` is served if and only if the slot was empty
      and one attempt succeeds, or its connection belonged to `b` all along. */
  lemma {:induction false} ServedEventually(owner: Option<nat>, visits: seq<Option<nat>>, attempts: seq<Attempt>, b: nat)
    requires |visits| == |attempts| && forall k :: 0 <= k < |visits| ==> visits[k] == Some(b)
    ensures OwnerAfter(owner, visits, attempts) == Some(b) <==> owner == Some(b) || (owner.None? && Succeeds in attempts)
    decreases |visits|
  {
    if |visits| == 0 {
    } else {
      assert attempts == [attempts[0]] + attempts[1..];
      ServedEventually(NextOwner(owner, visits[0], attempts[0]), visits[1..], attempts[1..], b);
    }
  }

  /** The history cannot evict itself from the buffer of a new connection. */
  predicate Fits(cfg: Config, history: nat) {
    !cfg.overflow || history <= cfg.bufferSize
  }

  predicate NoneRemoved(cs: seq<Option<Connection>>, visited: seq<Option<nat>>)
    requires |cs| == |visited|
  {
    forall i :: 0 <= i < |cs| && visited[i].None? ==> cs[i].None?
  }

  /** How many references the update of a slot loses: all that a removed connection holds, and those that
      the history evicts from a new one. */
  function LostAt(x: Option<Connection>, visitor: Option<nat>, y: Option<Connection>): nat {
    if visitor.None? then Size(x) else if x.None? && y.Some? then y.value.evicted else 0
  }

  function Lost(cs: seq<Option<Connection>>, visited: seq<Option<nat>>, cs': seq<Option<Connection>>, n: nat): nat
    requires n <= |cs| == |visited| == |cs'|
  {
    if n == 0 then 0 else Lost(cs, visited, cs', n - 1) + LostAt(cs[n - 1], visited[n - 1], cs'[n - 1])
  }

  lemma {:induction false} LostWithin(before: seq<Option<Connection>>, after: seq<Option<Connection>>, visited: seq<Option<nat>>,
                                      x: seq<Option<Connection>>, y: seq<Option<Connection>>, n: nat, m: nat)
    requires n <= m <= |before| == |after| == |visited| == |x| == |y|
    requires forall j :: 0 <= j < n ==> LostAt(before[j], visited[j], x[j]) <= LostAt(after[j], visited[j], y[j])
    ensures Lost(before, visited, x, n) <= Lost(after, visited, y, m)
    decreases m
  {
    if m == 0 {
    } else if n == m {
      LostWithin(before, after, visited, x, y, n - 1, m - 1);
    } else {
      LostWithin(before, after, visited, x, y, n, m - 1);
    }
  }

  /** A later step changes nothing about what the slots before it have lost. */
  lemma {:induction false} LostElsewhere(cs: seq<Option<Connection>>, visited: seq<Option<nat>>,
                                         before: seq<Option<Connection>>, after: seq<Option<Connection>>, n: nat)
    requires n <= |cs| == |visited| == |before| == |after|
    requires forall j :: 0 <= j < n ==> SameOrLater(before[j], after[j])
    ensures Lost(cs, visited, after, n) == Lost(cs, visited, before, n)
  {
    if n == 0 {
    } else {
      LostElsewhere(cs, visited, before, after, n - 1);
    }
  }

  /** Everything in the queues of a connection. */
  function Contents(x: Option<Connection>): seq<Entry> {
    match x
    case None => []
    case Some(k) => k.buffered + k.borrowed + k.returned
  }

  ghost predicate SameOrLater(x: Option<Connection>, y: Option<Connection>) {
    y.Some? == x.Some? && (x.Some? ==> Later(x.value, y.value))
  }

  /** The first `n` slots have been updated; subscribers may have been at all of them. */
  ghost predicate UpdatedUpTo(cfg: Config, cs: seq<Option<Connection>>, visited: seq<Option<nat>>, attempts: seq<Attempt>,
                              cs': seq<Option<Connection>>, sends: nat, history: nat, n: nat)
  {
    && n <= |cs| == |visited| == |attempts| == |cs'|
    && (forall j :: 0 <= j < n ==> !Fatal(cs, visited, attempts, j))
    && (forall j :: 0 <= j < n ==> Updated(cfg, cs[j], visited[j], attempts[j], cs'[j], sends, history))
    && (forall j :: n <= j < |cs| ==> SameOrLater(cs[j], cs'[j]))
  }

  ghost predicate AllUpdated(cfg: Config, cs: seq<Option<Connection>>, visited: seq<Option<nat>>, attempts: seq<Attempt>,
                             cs': seq<Option<Connection>>, sends: nat, history: nat)
  {
    && |cs| == |visited| == |attempts| == |cs'|
    && forall i :: 0 <= i < |cs| ==> Updated(cfg, cs[i], visited[i], attempts[i], cs'[i], sends, history)
  }

  /** Creating the connection of slot `n` failed: the slots before it have been updated, and the others still
      have their connections. */
  ghost predicate FailedAt(cfg: Config, cs: seq<Option<Connection>>, visited: seq<Option<nat>>, attempts: seq<Attempt>,
                           cs': seq<Option<Connection>>, sends: nat, history: nat, n: nat)
  {
    && n < |cs| == |visited| == |attempts| == |cs'| && Fatal(cs, visited, attempts, n)
    && (forall j :: 0 <= j < n ==> !Fatal(cs, visited, attempts, j))
    && (forall j :: 0 <= j < n ==> Updated(cfg, cs[j], visited[j], attempts[j], cs'[j], sends, history))
    && (forall j :: n <= j < |cs| ==> Kept(cs[j], cs'[j]))
  }

  lemma UpdateFails(cfg: Config, cs: seq<Option<Connection>>, visited: seq<Option<nat>>, attempts: seq<Attempt>,
                    before: seq<Option<Connection>>, after: seq<Option<Connection>>, sends: nat, history: nat, n: nat)
    requires UpdatedUpTo(cfg, cs, visited, attempts, before, sends, history, n) && n < |cs|
    requires OthersLater(before, after, n) && SameOrLater(before[n], after[n]) && Fatal(cs, visited, attempts, n)
    ensures FailedAt(cfg, cs, visited, attempts, after, sends, history, n)
    ensures Lost(cs, visited, before, n) <= Lost(cs, visited, after, |cs|)
  {
    LostElsewhere(cs, visited, before, after, n);
    LostWithin(cs, cs, visited, after, after, n, |cs|);
    forall j | 0 <= j < n ensures Updated(cfg, cs[j], visited[j], attempts[j], after[j], sends, history) {
      assert SameOrLater(before[j], after[j]);
    }
    forall j | n <= j < |cs| ensures Kept(cs[j], after[j]) {
      assert SameOrLater(cs[j], before[j]) && SameOrLater(before[j], after[j]);
    }
  }

  /** The same seen from before the reclaim. */
  lemma FailedSince(cfg: Config, before: seq<Option<Connection>>, cs: seq<Option<Connection>>, visited: seq<Option<nat>>,
                    attempts: seq<Attempt>, cs': seq<Option<Connection>>, sends: nat, history: nat, n: nat)
    requires AllKept(before, cs)
    requires FailedAt(cfg, cs, visited, attempts, cs', sends, history, n)
    ensures FailedAt(cfg, before, visited, attempts, cs', sends, history, n)
  {
    forall j | 0 <= j < |cs| ensures Fatal(before, visited, attempts, j) == Fatal(cs, visited, attempts, j) {
      assert Kept(before[j], cs[j]);
    }
  }

  lemma UpdateNext(cfg: Config, cs: seq<Option<Connection>>, visited: seq<Option<nat>>, attempts: seq<Attempt>,
                   before: seq<Option<Connection>>, after: seq<Option<Connection>>, sends: nat, history: nat, n: nat)
    requires UpdatedUpTo(cfg, cs, visited, attempts, before, sends, history, n) && n < |cs|
    requires OthersLater(before, after, n) && !Fatal(cs, visited, attempts, n)
    requires Updated(cfg, before[n], visited[n], attempts[n], after[n], sends, history)
    ensures UpdatedUpTo(cfg, cs, visited, attempts, after, sends, history, n + 1)
    ensures Lost(cs, visited, after, n + 1) == Lost(cs, visited, before, n) + LostAt(before[n], visited[n], after[n])
  {
    LostElsewhere(cs, visited, before, after, n);
    assert SameOrLater(cs[n], before[n]);
    forall j | 0 <= j < n ensures Updated(cfg, cs[j], visited[j], attempts[j], after[j], sends, history) {
      assert SameOrLater(before[j], after[j]);
    }
    forall j | n < j < |cs| ensures SameOrLater(cs[j], after[j]) {
      assert SameOrLater(cs[j], before[j]) && SameOrLater(before[j], after[j]);
    }
  }

  /** What one send does to a connection, seen from outside. */
  ghost predicate OfferedOne(cfg: Config, x: Option<Connection>, y: Option<Connection>) {
    && y.Some? == x.Some?
    && (x.Some? ==>
          && y.value.owner == x.value.owner && y.value.first == x.value.first && y.value.next == x.value.next + 1
          && y.value.refused >= x.value.refused && y.value.evicted >= x.value.evicted
          && y.value.refused + y.value.evicted <= x.value.refused + x.value.evicted + 1
          && (Size(x) < cfg.bufferSize ==> y.value.refused == x.value.refused && y.value.evicted == x.value.evicted))
  }

  lemma PushedLater(cfg: Config, before: seq<Option<Connection>>, pushed: seq<Option<Connection>>,
                    after: seq<Option<Connection>>, i: nat, e: Entry)
    requires i < |before| && before[i].Some? && e.id == before[i].value.next
    requires pushed == before[i := Some(Push(cfg, before[i].value, e))] && LaterAll(pushed, after)
    ensures OthersLater(before, after, i) && OfferedOne(cfg, before[i], after[i])
    ensures after[i].value.refused == before[i].value.refused
  {
    forall j | 0 <= j < |before| && j != i ensures SameOrLater(before[j], after[j]) {
      assert pushed[j] == before[j];
    }
  }

  /** The first `n` connections have been offered a sample. */
  ghost predicate OfferedUpTo(cfg: Config, cs: seq<Option<Connection>>, cs': seq<Option<Connection>>, n: nat) {
    && n <= |cs| == |cs'|
    && (forall j :: 0 <= j < n ==> OfferedOne(cfg, cs[j], cs'[j]))
    && (forall j :: n <= j < |cs| ==> SameOrLater(cs[j], cs'[j]))
  }

  lemma OfferNext(cfg: Config, cs: seq<Option<Connection>>, before: seq<Option<Connection>>, after: seq<Option<Connection>>, n: nat)
    requires OfferedUpTo(cfg, cs, before, n) && n < |cs|
    requires OthersLater(before, after, n) && OfferedOne(cfg, before[n], after[n])
    ensures OfferedUpTo(cfg, cs, after, n + 1)
  {
    assert SameOrLater(cs[n], before[n]);
    forall j | 0 <= j < n ensures OfferedOne(cfg, cs[j], after[j]) {
      assert SameOrLater(before[j], after[j]);
    }
    forall j | n < j < |cs| ensures SameOrLater(cs[j], after[j]) {
      assert SameOrLater(cs[j], before[j]) && SameOrLater(before[j], after[j]);
    }
  }

  /** A slot after a send that updated the connections first. A late joiner has been offered the history and
      then the sample; if the history leaves room in its buffer, all of it and the sample are there. */
  ghost predicate SentTo(cfg: Config, x: Option<Connection>, visitor: Option<nat>, attempt: Attempt,
                         y: Option<Connection>, sends: nat, history: nat)
  {
    if visitor.None? then y.None?
    else if x.Some? then
      y.Some? && y.value.owner == x.value.owner && y.value.first == x.value.first && y.value.next == sends + 1
    else if attempt.Succeeds? then
      && y.Some? && y.value.owner == visitor.value
      && y.value.first == sends - history && y.value.next == sends + 1
      && (history < cfg.bufferSize ==> y.value.refused == 0 && y.value.evicted == 0)
      && (history == cfg.bufferSize ==> y.value.refused + y.value.evicted <= 1)
    else y.None?
  }

  /** A connection holds no more than it was offered. */
  ghost predicate WithinOffers(x: Option<Connection>) {
    x.Some? ==> Size(x) <= x.value.next - x.value.first
  }

  lemma AllWithinOffers(cfg: Config, s: State)
    requires Reachable(cfg, s)
    ensures forall i :: 0 <= i < |s.connections| ==> WithinOffers(s.connections[i])
  {
    forall i | 0 <= i < |s.connections| && s.connections[i].Some? ensures WithinOffers(s.connections[i]) {
      OrderedDelivery(cfg, s, i);
    }
  }

  lemma UpdatedThenSent(cfg: Config, x: Option<Connection>, visitor: Option<nat>, attempt: Attempt,
                        mid: Option<Connection>, y: Option<Connection>, sends: nat, history: nat)
    requires Updated(cfg, x, visitor, attempt, mid, sends, history) && OfferedOne(cfg, mid, y)
    requires WithinOffers(mid) && (mid.Some? ==> mid.value.next == sends)
    ensures SentTo(cfg, x, visitor, attempt, y, sends, history)
    ensures LostAt(x, visitor, mid) <= LostAt(x, visitor, y)
  {
  }

  ghost predicate AllOffered(cfg: Config, cs: seq<Option<Connection>>, cs': seq<Option<Connection>>) {
    |cs'| == |cs| && forall i :: 0 <= i < |cs| ==> OfferedOne(cfg, cs[i], cs'[i])
  }

  ghost predicate AllSent(cfg: Config, cs: seq<Option<Connection>>, visited: seq<Option<nat>>, attempts: seq<Attempt>,
                          cs': seq<Option<Connection>>, sends: nat, history: nat)
  {
    && |cs| == |visited| == |attempts| == |cs'|
    && forall i :: 0 <= i < |cs| ==> SentTo(cfg, cs[i], visited[i], attempts[i], cs'[i], sends, history)
  }

  /** Every connection has been offered `n` sends, and holds no more than it was offered. */
  ghost predicate AllReady(cs: seq<Option<Connection>>, n: nat) {
    forall i :: 0 <= i < |cs| ==> WithinOffers(cs[i]) && (cs[i].Some? ==> cs[i].value.next == n)
  }

  lemma SlotSent(cfg: Config, cs: seq<Option<Connection>>, visited: seq<Option<nat>>, attempts: seq<Attempt>,
                 mid: seq<Option<Connection>>, cs': seq<Option<Connection>>, sends: nat, history: nat, i: nat)
    requires AllUpdated(cfg, cs, visited, attempts, mid, sends, history) && AllOffered(cfg, mid, cs')
    requires AllReady(mid, sends) && i < |cs|
    ensures SentTo(cfg, cs[i], visited[i], attempts[i], cs'[i], sends, history)
    ensures LostAt(cs[i], visited[i], mid[i]) <= LostAt(cs[i], visited[i], cs'[i])
  {
    assert WithinOffers(mid[i]);
    UpdatedThenSent(cfg, cs[i], visited[i], attempts[i], mid[i], cs'[i], sends, history);
  }

  lemma SentToAll(cfg: Config, cs: seq<Option<Connection>>, visited: seq<Option<nat>>, attempts: seq<Attempt>,
                  mid: seq<Option<Connection>>, cs': seq<Option<Connection>>, sends: nat, history: nat)
    requires AllUpdated(cfg, cs, visited, attempts, mid, sends, history) && AllOffered(cfg, mid, cs')
    requires AllReady(mid, sends)
    ensures AllSent(cfg, cs, visited, attempts, cs', sends, history)
    ensures Lost(cs, visited, mid, |cs|) <= Lost(cs, visited, cs', |cs|)
  {
    forall i | 0 <= i < |cs|
      ensures SentTo(cfg, cs[i], visited[i], attempts[i], cs'[i], sends, history)
      ensures LostAt(cs[i], visited[i], mid[i]) <= LostAt(cs[i], visited[i], cs'[i])
    {
      SlotSent(cfg, cs, visited, attempts, mid, cs', sends, history, i);
    }
    LostWithin(cs, cs, visited, mid, cs', |cs|, |cs|);
  }

  lemma UpdatedServes(cfg: Config, cs: seq<Option<Connection>>, visited: seq<Option<nat>>, attempts: seq<Attempt>, s: State)
    requires AllUpdated(cfg, cs, visited, attempts, s.connections, |s.sent|, |s.history|) && CaughtUp(s)
    ensures ServesAsUpdated(cs, visited, attempts, s.connections, |s.sent|)
  {
    forall i, b: nat | 0 <= i < |cs|
      ensures Serves(s.connections[i], b, |s.sent|) <==> WillServe(OwnerOf(cs[i]), visited[i], attempts[i], b)
    {
      assert s.connections[i].Some? ==> Connected(s, i);
    }
  }

  /** An update seen from before the reclaim. */
  lemma UpdatedSince(cfg: Config, before: seq<Option<Connection>>, cs: seq<Option<Connection>>, visited: seq<Option<nat>>,
                     attempts: seq<Attempt>, cs': seq<Option<Connection>>, sends: nat, history: nat)
    requires AllKept(before, cs) && AllUpdated(cfg, cs, visited, attempts, cs', sends, history)
    ensures AllUpdated(cfg, before, visited, attempts, cs', sends, history)
  {
    forall j | 0 <= j < |cs| ensures Updated(cfg, before[j], visited[j], attempts[j], cs'[j], sends, history) {
      assert Kept(before[j], cs[j]) && Updated(cfg, cs[j], visited[j], attempts[j], cs'[j], sends, history);
    }
  }

  /** It takes nothing back into a connection. */
  lemma UpdatedEmptied(cfg: Config, before: seq<Option<Connection>>, cs: seq<Option<Connection>>, visited: seq<Option<nat>>,
                       attempts: seq<Attempt>, cs': seq<Option<Connection>>, sends: nat, history: nat, n: nat)
    requires n <= |cs| == |visited| == |attempts| == |cs'| && AllKept(before, cs) && AllEmptied(before, cs)
    requires forall j :: 0 <= j < n ==> Updated(cfg, cs[j], visited[j], attempts[j], cs'[j], sends, history)
    requires forall j :: n <= j < |cs| ==> Kept(cs[j], cs'[j])
    ensures AllEmptied(before, cs')
  {
    forall j | 0 <= j < |cs| ensures Emptied(before[j], cs'[j]) {
      assert Kept(before[j], cs[j]) && Emptied(before[j], cs[j]);
    }
  }

  /** What the reclaim before an update leaves open. */
  lemma SameSlots(cs: seq<Option<Connection>>, cs': seq<Option<Connection>>, visited: seq<Option<nat>>, attempts: seq<Attempt>,
                  y: seq<Option<Connection>>)
    requires AllKept(cs, cs') && |cs| == |visited| == |attempts| == |y|
    ensures forall i :: 0 <= i < |cs| ==> Fatal(cs, visited, attempts, i) == Fatal(cs', visited, attempts, i)
    ensures NoneRemoved(cs, visited) == NoneRemoved(cs', visited)
    ensures Lost(cs', visited, y, |cs|) <= Lost(cs, visited, y, |cs|)
  {
    assert forall i :: 0 <= i < |cs| ==> Kept(cs[i], cs'[i]);
    LostWithin(cs', cs, visited, y, y, |cs|, |cs|);
  }

  lemma SentServes(cfg: Config, cs: seq<Option<Connection>>, visited: seq<Option<nat>>, attempts: seq<Attempt>,
                   cs': seq<Option<Connection>>, sends: nat, history: nat)
    requires AllSent(cfg, cs, visited, attempts, cs', sends, history)
    ensures ServesAsUpdated(cs, visited, attempts, cs', sends + 1)
  {
  }

  /** The receive channel is full. */
  predicate Full(cfg: Config, x: Option<Connection>) {
    x.Some? && |x.value.buffered| >= cfg.bufferSize
  }

  ghost predicate SomeFull(cfg: Config, cs: seq<Option<Connection>>) {
    exists i :: 0 <= i < |cs| && Full(cfg, cs[i])
  }

  datatype Delivery = Delivered | Discarded(error: SendError) | Waiting

  /** How far a sample must have come before it is offered to the connections. */
  function ReadyToOffer(cfg: Config): Progress {
    if cfg.historySize > 0 then Stored else Published
  }

  /** The history after a send. */
  function HistoryWith(cfg: Config, h: seq<Entry>, e: Entry): seq<Entry> {
    if cfg.historySize > 0 then HistoryAfter(cfg, h, e) else h
  }

  ghost predicate OthersLater(cs: seq<Option<Connection>>, cs': seq<Option<Connection>>, i: nat) {
    && |cs'| == |cs|
    && forall j :: 0 <= j < |cs| && j != i ==>
         && cs'[j].Some? == cs[j].Some?
         && (cs[j].Some? ==> Later(cs[j].value, cs'[j].value))
  }

  /** The connections among the first `n` that have not refused anything between two moments. */
  ghost function Takers(cs: seq<Option<Connection>>, cs': seq<Option<Connection>>, n: nat): set<nat>
    requires n <= |cs| == |cs'|
  {
    set j: nat | j < n && cs[j].Some? && cs'[j].Some? && cs'[j].value.refused == cs[j].value.refused
  }

  lemma TakersStep(cs: seq<Option<Connection>>, before: seq<Option<Connection>>, after: seq<Option<Connection>>,
                   i: nat, taken: bool)
    requires i < |cs| == |before| == |after|
    requires OthersLater(before, after, i)
    requires taken <==> cs[i].Some? && after[i].Some? && after[i].value.refused == cs[i].value.refused
    ensures |Takers(cs, after, i + 1)| == |Takers(cs, before, i)| + if taken then 1 else 0
  {
    assert Takers(cs, after, i) == Takers(cs, before, i);
    assert Takers(cs, after, i + 1) == Takers(cs, after, i) + if taken then {i} else {};
  }

  lemma LoanReached(cfg: Config, s: State, c: nat, junk: int)
    requires Reachable(cfg, s) && s.inFlight.None? && CaughtUp(s) && Drained(cfg, s) && s.loanCounter < cfg.maxLoans
    requires c in s.free && c < |s.counter| && c < |s.memory|
    ensures Reachable(cfg, s.(counter := s.counter[c := s.counter[c] + 1], free := s.free - {c},
                              memory := s.memory[c := junk], loans := s.loans + multiset{c},
                              loanCounter := s.loanCounter + 1))
  {
    ReachableStep(cfg, s, Loan(c, junk));
  }

  lemma FinishReached(cfg: Config, s: State, c: nat)
    requires Reachable(cfg, s) && CaughtUp(s) && s.owed == multiset{} && s.held == multiset{} && s.loans[c] > 0
    requires s.inFlight.Some? && s.inFlight.value.entry.chunk == c && s.inFlight.value.progress == ReadyToOffer(cfg)
    ensures Reachable(cfg, s.(loans := s.loans - multiset{c}, loanCounter := s.loanCounter - 1,
                              held := multiset{c}, inFlight := None))
  {
    assert s.held + multiset{c} == multiset{c};
    ReachableStep(cfg, s, FinishSend);
  }

  lemma RemoveReached(cfg: Config, s: State, i: nat)
    requires Reachable(cfg, s) && Connected(s, i) && s.inFlight.None?
    ensures Reachable(cfg, s.(connections := s.connections[i := None], orphaned := s.orphaned + Contents(s.connections[i])))
  {
    var k := s.connections[i].value;
    Regrouped(s.orphaned, k.buffered, k.borrowed, k.returned);
    ReachableStep(cfg, s, Disconnect(i));
  }

  lemma Regrouped(a: seq<Entry>, b: seq<Entry>, c: seq<Entry>, d: seq<Entry>)
    ensures a + b + c + d == a + (b + c + d)
  {
  }

  lemma CountReached(cfg: Config, s: State, e: Entry)
    requires Reachable(cfg, s) && cfg.historySize > 0 && s.inFlight == Some(InFlight(e, Published)) && s.held == multiset{}
    requires e.chunk < |s.counter|
    ensures Reachable(cfg, s.(counter := s.counter[e.chunk := s.counter[e.chunk] + 1], held := multiset{e.chunk},
                              inFlight := Some(InFlight(e, Counted))))
  {
    assert s.held + multiset{e.chunk} == multiset{e.chunk};
    ReachableStep(cfg, s, CountHistory);
  }

  lemma DropReached(cfg: Config, s: State, c: nat)
    requires Reachable(cfg, s) && s.loans[c] > 0 && s.inFlight.None? && s.held == multiset{}
    ensures Reachable(cfg, s.(loans := s.loans - multiset{c}, loanCounter := s.loanCounter - 1, held := multiset{c}))
  {
    assert s.held + multiset{c} == multiset{c};
    ReachableStep(cfg, s, DropLoan(c));
  }

  /** The state after entry `j` of the history has been offered to the connection in slot `i`. */
  ghost function HistoryOffered(cfg: Config, s: State, i: nat, j: nat, accepted: bool): State
    requires Connected(s, i) && j < |s.history|
  {
    var k, e := s.connections[i].value, s.history[j];
    if accepted then
      s.(connections := s.connections[i := Some(Push(cfg, k, e))], owed := multiset{e.chunk},
         orphaned := s.orphaned + Evicted(cfg, k))
    else s.(connections := s.connections[i := Some(Refuse(k, e))])
  }

  lemma HistoryOfferedReached(cfg: Config, s: State, i: nat, j: nat, accepted: bool)
    requires Reachable(cfg, s) && Connected(s, i) && s.owed == multiset{} && s.inFlight.None?
    requires j < |s.history| && s.connections[i].value.next == |s.sent| - |s.history| + j
    requires CanAnswer(cfg, s.connections[i].value, accepted)
    ensures Reachable(cfg, HistoryOffered(cfg, s, i, j, accepted))
    ensures s.history[j].id == |s.sent| - |s.history| + j
  {
    HistoryEntryId(cfg, s, j);
    assert HistoryIndex(s, s.connections[i].value) == j;
    assert multiset{} + multiset{s.history[j].chunk} == multiset{s.history[j].chunk};
    ReachableStep(cfg, s, OfferHistory(i, accepted));
  }

  class Publisher {
    const cfg: Config
    const blocking: bool
    var counter: seq<int>
    var free: set<nat>
    var memory: seq<int>
    var loanCounter: int
    var history: seq<Entry>
    var connections: seq<Option<Connection>>
    var sent: seq<int>
    ghost var loans: multiset<nat>
    ghost var inFlight: Option<InFlight>
    ghost var held: multiset<nat>
    ghost var owed: multiset<nat>
    ghost var orphaned: seq<Entry>

    ghost function Abs(): State
      reads this
    {
      State(counter, free, memory, loans, loanCounter, history, connections, sent, inFlight, held, owed, orphaned)
    }

    ghost predicate Valid()
      reads this
    {
      Reachable(cfg, Abs())
    }

    /** `Publisher::new`, which ends with a first update of the connections. There is no degradation callback
        yet, so a connection that cannot be created is only reported. */
    constructor (cfg: Config, blocking: bool, visited: seq<Option<nat>>, attempts: seq<Attempt>)
      requires |visited| == |attempts| == cfg.maxSubscribers && Fails(true) !in attempts
      ensures this.cfg == cfg && this.blocking == blocking && Valid() && Idle(Abs())
      ensures sent == [] && history == [] && orphaned == [] && loans == multiset{} && loanCounter == 0
      ensures |connections| == cfg.maxSubscribers
      ensures forall i :: 0 <= i < |connections| ==>
                if visited[i].Some? && attempts[i].Succeeds?
                then connections[i].Some? && connections[i].value.owner == visited[i].value && connections[i].value.first == 0
                else connections[i].None?
    {
      var n := NumberOfSamples(cfg);
      this.cfg, this.blocking := cfg, blocking;
      counter, free, memory, loanCounter := seq(n, _ => 0), Below(n), seq(n, _ => 0), 0;
      history, connections := [], seq(cfg.maxSubscribers, _ => None);
      loans, sent, inFlight, held, owed, orphaned := multiset{}, [], None, multiset{}, multiset{}, [];
      new;
      assert counter == Initial(cfg).counter;
      assert connections == Initial(cfg).connections;
      InitialReachable(cfg);
      var ok := PopulateSubscriberChannels(visited, attempts);
    }

    // -------------------------------------------------------------- subscriber side

    /** `Subscriber::receive` on the connection in slot `i`. */
    method Receive(i: nat) returns (r: ReceiveResult)
      requires Valid() && Connected(Abs(), i)
      modifies this`connections
      ensures Valid() && Interfered(old(Abs()), Abs())
      ensures r.ExceedsMaxBorrowedSamples? <==> |old(connections[i].value.borrowed)| >= cfg.maxBorrowed
      ensures r.Nothing? <==> |old(connections[i].value.borrowed)| < cfg.maxBorrowed && old(connections[i].value.buffered) == []
      ensures r.Taken? ==>
                && Abs() == Step(cfg, old(Abs()), SampleLifecycle.Receive(i))
                && connections[i].Some?
                && old(connections[i].value.buffered) == [r.entry] + connections[i].value.buffered
                && connections[i].value.borrowed == old(connections[i].value.borrowed) + [r.entry]
                && connections[i].value.returned == old(connections[i].value.returned)
                && r.entry.chunk < |memory| && r.entry.id < |sent|
                && memory[r.entry.chunk] == sent[r.entry.id]
      ensures !r.Taken? ==> connections == old(connections)
    {
      ghost var s := Abs();
      var k := connections[i].value;
      if |k.borrowed| >= cfg.maxBorrowed {
        return ExceedsMaxBorrowedSamples;
      }
      if |k.buffered| == 0 {
        return Nothing;
      }
      PayloadIntegrity(cfg, s, i, k.buffered[0]);
      connections := connections[i := Some(Received(k))];
      ReachableStep(cfg, s, SampleLifecycle.Receive(i));
      return Taken(k.buffered[0]);
    }

    /** `Subscriber::release_sample`: refused exactly when the return channel is full. */
    method ReturnSample(i: nat, which: nat) returns (ok: bool)
      requires Valid() && Connected(Abs(), i) && which < |connections[i].value.borrowed|
      modifies this`connections
      ensures Valid() && Interfered(old(Abs()), Abs())
      ensures ok <==> |old(connections[i].value.returned)| < ReturnChannelSize(cfg)
      ensures OneAtATime(cfg) ==> ok
      ensures if ok then Abs() == Step(cfg, old(Abs()), Return(i, which)) else connections == old(connections)
      ensures ok ==>
                && connections[i].Some? && connections[i].value.buffered == old(connections[i].value.buffered)
                && connections[i].value.returned
                   == old(connections[i].value.returned) + [old(connections[i].value.borrowed)[which]]
                && connections[i].value.borrowed
                   == old(connections[i].value.borrowed)[..which] + old(connections[i].value.borrowed)[which + 1..]
    {
      ghost var s := Abs();
      var k := connections[i].value;
      if |k.returned| >= ReturnChannelSize(cfg) {
        if OneAtATime(cfg) {
          ReturnIsPossible(cfg, s, i);
        }
        return false;
      }
      connections := connections[i := Some(Returned(k, which))];
      ReachableStep(cfg, s, Return(i, which));
      return true;
    }

    /** Any number of subscriber steps, on any connections. */
    method Interfere()
      requires Valid()
      modifies this`connections
      ensures Valid() && Interfered(old(Abs()), Abs())
    {
      var steps: nat := *;
      while steps > 0
        invariant Valid() && Interfered(old(Abs()), Abs())
      {
        var i: nat, which: nat, receive: bool := *, *, *;
        if i < |connections| && connections[i].Some? {
          if receive {
            var _ := Receive(i);
          } else if which < |connections[i].value.borrowed| {
            var _ := ReturnSample(i, which);
          }
        }
        steps := steps - 1;
      }
    }

    // -------------------------------------------------------------- references

    /** `release_sample`: gives up the reference the publisher has in hand. The counter never
        underflows, and what goes back to the allocator was allocated. */
    method ReleaseSample(c: nat)
      requires Valid() && held == multiset{c} && owed == multiset{}
      modifies this`counter, this`free, this`held
      ensures Valid() && held == multiset{}
      ensures c < |old(counter)| && old(counter[c]) >= 1 && c !in old(free)
      ensures counter == old(counter)[c := old(counter[c]) - 1]
      ensures free == if counter[c] == 0 then old(free) + {c} else old(free)
    {
      ghost var s := Abs();
      ReleaseIsSafe(cfg, s, c);
      var before := counter[c];
      counter := counter[c := before - 1];
      held := multiset{};
      if before == 1 {
        free := free + {c};
      }
      assert s.held - multiset{c} == multiset{};
      ReachableStep(cfg, s, Release(c));
    }

    /** `retrieve_returned_samples`: everything returned before is reclaimed, and afterwards every connection
        holds at most a full buffer and all borrows, whatever the subscribers did meanwhile. */
    method RetrieveReturnedSamples()
      requires Valid() && held == multiset{} && owed == multiset{}
      modifies this`connections, this`counter, this`free, this`held
      ensures Valid() && held == multiset{}
      ensures RecoveredAll(old(Abs()), Abs())
      ensures Drained(cfg, Abs())
      ensures AllEmptied(old(connections), connections)
    {
      for i := 0 to |connections|
        invariant Valid() && held == multiset{} && owed == multiset{}
        invariant RecoveredAll(old(Abs()), Abs())
        invariant forall j :: 0 <= j < i ==> Size(connections[j]) <= cfg.bufferSize + cfg.maxBorrowed
        invariant forall j :: 0 <= j < i ==> Emptied(old(connections)[j], connections[j])
      {
        if connections[i].Some? {
          ghost var before := connections;
          DrainConnection(i);
          EmptiedNext(old(connections), before, connections, i);
        }
      }
    }

    method DrainConnection(i: nat)
      requires Valid() && held == multiset{} && owed == multiset{}
      requires Connected(Abs(), i)
      modifies this`connections, this`counter, this`free, this`held
      ensures Valid() && held == multiset{}
      ensures RecoveredAll(old(Abs()), Abs())
      ensures Size(connections[i]) <= cfg.bufferSize + cfg.maxBorrowed
      ensures Emptied(old(connections[i]), connections[i])
    {
      while true
        invariant Valid() && held == multiset{} && Connected(Abs(), i)
        invariant RecoveredAll(old(Abs()), Abs())
        decreases Size(connections[i])
      {
        Interfere();
        if |connections[i].value.returned| == 0 {
          EmptyReturnSize(cfg, Abs(), i);
          return;
        }
        ReclaimOne(i);
      }
    }

    method ReclaimOne(i: nat)
      requires Valid() && held == multiset{} && owed == multiset{}
      requires Connected(Abs(), i) && |connections[i].value.returned| > 0
      modifies this`connections, this`counter, this`free, this`held
      ensures Valid() && held == multiset{}
      ensures connections == old(connections)[i := Some(Reclaimed(old(connections[i].value)))]
    {
      ghost var s := Abs();
      var k := connections[i].value;
      connections := connections[i := Some(Reclaimed(k))];
      held := multiset{k.returned[0].chunk};
      assert s.held + held == held;
      ReachableStep(cfg, s, Reclaim(i));
      ReleaseSample(k.returned[0].chunk);
    }

    // -------------------------------------------------------------- loans

    /** `loan_uninit`: never hands out a chunk in use, refuses exactly at the loan limit, and runs out
        of memory only if at least two chunks have been orphaned. */
    method LoanUninit() returns (r: LoanResult)
      requires Valid() && Idle(Abs())
      modifies this
      ensures Valid() && Idle(Abs())
      ensures r.ExceedsMaxLoanedChunks? <==> old(loanCounter) >= cfg.maxLoans
      ensures r.OutOfMemory? <==>
                old(loanCounter) < cfg.maxLoans && free + (if r.Loaned? then {r.chunk} else {}) == {}
      ensures r.OutOfMemory? ==> |ChunkSet(orphaned)| >= 2
      ensures !r.AlreadyInUse?
      ensures sent == old(sent) && history == old(history) && orphaned == old(orphaned)
      ensures AllKept(old(connections), connections) && AllEmptied(old(connections), connections)
      ensures r.Loaned? ==>
                && loans == old(loans) + multiset{r.chunk} && loanCounter == old(loanCounter) + 1
                && old(loans)[r.chunk] == 0
                && r.chunk < |old(memory)| == |memory| && memory == old(memory)[r.chunk := memory[r.chunk]]
      ensures !r.Loaned? ==> loans == old(loans) && loanCounter == old(loanCounter) && memory == old(memory)
    {
      RetrieveReturnedSamples();
      ghost var s := Abs();
      if loanCounter >= cfg.maxLoans {
        return ExceedsMaxLoanedChunks;
      }
      if free == {} {
        OutOfMemoryNeedsOrphans(cfg, s);
        return OutOfMemory;
      }
      r := TakeChunk();
    }

    /** The allocation of a chunk and the first increment of its counter. */
    method TakeChunk() returns (r: LoanResult)
      requires Valid() && Idle(Abs()) && Drained(cfg, Abs()) && free != {} && loanCounter < cfg.maxLoans
      modifies this`counter, this`free, this`memory, this`loans, this`loanCounter
      ensures Valid()
      ensures r.Loaned? && loans == old(loans) + multiset{r.chunk} && loanCounter == old(loanCounter) + 1
      ensures old(loans)[r.chunk] == 0
      ensures r.chunk < |old(memory)| == |memory| && memory == old(memory)[r.chunk := memory[r.chunk]]
    {
      var c :| c in free;
      LoanedChunkIsUnused(cfg, Abs(), c);
      SameLengths(cfg, Abs());
      var inUse := counter[c] != 0;
      var junk: int := *;
      Allocate(c, junk);
      r := if inUse then AlreadyInUse else Loaned(c);
    }

    /** The allocator hands out the chunk with whatever it contains, and the loan counts. */
    method Allocate(c: nat, junk: int)
      requires Valid() && Idle(Abs()) && Drained(cfg, Abs())
      requires c in free && loanCounter < cfg.maxLoans && c < |counter| && c < |memory|
      modifies this`counter, this`free, this`memory, this`loans, this`loanCounter
      ensures Valid() && memory == old(memory)[c := junk]
      ensures loans == old(loans) + multiset{c} && loanCounter == old(loanCounter) + 1
    {
      LoanReached(cfg, Abs(), c, junk);
      counter, free, memory := counter[c := counter[c] + 1], free - {c}, memory[c := junk];
      loans, loanCounter := loans + multiset{c}, loanCounter + 1;
    }

    /** `write_payload` on a loaned sample. */
    method WritePayload(c: nat, value: int)
      requires Valid() && Idle(Abs()) && loans[c] > 0
      modifies this`memory
      ensures Valid() && Idle(Abs())
      ensures c < |old(memory)| && memory == old(memory)[c := value]
    {
      ghost var s := Abs();
      LoanInRange(cfg, s, c);
      memory := memory[c := value];
      ReachableStep(cfg, s, Write(c, value));
    }

    /** Dropping a loaned sample without sending it. */
    method DropSample(c: nat)
      requires Valid() && Idle(Abs()) && loans[c] > 0
      modifies this`loans, this`loanCounter, this`held, this`counter, this`free
      ensures Valid() && Idle(Abs())
      ensures loans == old(loans) - multiset{c} && loanCounter == old(loanCounter) - 1 && c in free
    {
      UnsentLoanCounter(cfg, Abs(), c);
      GiveUpLoan(c);
      ReleaseSample(c);
    }

    /** The loan ends; its reference is still to be released. */
    method GiveUpLoan(c: nat)
      requires Valid() && Idle(Abs()) && loans[c] > 0
      modifies this`loans, this`loanCounter, this`held
      ensures Valid() && held == multiset{c}
      ensures loans == old(loans) - multiset{c} && loanCounter == old(loanCounter) - 1
    {
      DropReached(cfg, Abs(), c);
      loans := loans - multiset{c};
      held := multiset{c};
      loanCounter := loanCounter - 1;
    }

    // -------------------------------------------------------------- delivery

    /** The checks of `try_send`. The length of the return channel is read first and the length of
        the receive channel later, with subscribers running in between. */
    method CheckSend(i: nat) returns (r: Option<SendError>)
      requires Valid() && Connected(Abs(), i)
      modifies this`connections
      ensures Valid() && Interfered(old(Abs()), Abs()) && Connected(Abs(), i)
      ensures CanAnswer(cfg, connections[i].value, r.None?)
      ensures r == Some(ReceiveBufferFull) ==> !cfg.overflow && |old(connections[i].value.buffered)| >= cfg.bufferSize
      ensures Size(old(connections[i])) < cfg.bufferSize ==> r.None?
      ensures cfg.overflow && Size(old(connections[i])) <= cfg.bufferSize ==> r.None?
      ensures if r == Some(ClearRetrieveChannelBeforeSend)
              then ReturnChannelSize(cfg) - |old(connections[i].value.returned)|
                   <= cfg.maxBorrowed + |old(connections[i].value.buffered)|
              else ReturnChannelSize(cfg) - |old(connections[i].value.returned)|
                   > cfg.maxBorrowed + |connections[i].value.buffered|
    {
      var inReturn := |connections[i].value.returned|;
      Interfere();
      var waiting := |connections[i].value.buffered|;
      if ReturnChannelSize(cfg) - inReturn <= cfg.maxBorrowed + waiting {
        return Some(ClearRetrieveChannelBeforeSend);
      }
      Interfere();
      if !cfg.overflow && |connections[i].value.buffered| >= cfg.bufferSize {
        return Some(ReceiveBufferFull);
      }
      Interfere();
      return None;
    }

    /** `deliver_history`: a new connection is offered the whole history, oldest first. If the
        history fits into the buffer, none of it is lost. An evicted sample is forgotten here. */
    method DeliverHistory(i: nat)
      requires Valid() && Connected(Abs(), i) && held == multiset{} && owed == multiset{} && inFlight.None?
      requires connections[i].value.first == connections[i].value.next == |sent| - |history|
      requires Size(connections[i]) == 0
      requires connections[i].value.refused == connections[i].value.evicted == 0
      modifies this`connections, this`counter, this`owed, this`orphaned
      ensures Valid() && Connected(Abs(), i) && owed == multiset{}
      ensures Others(old(Abs()), Abs(), i)
      ensures connections[i].value.next == |sent| && connections[i].value.first == |sent| - |history|
      ensures connections[i].value.owner == old(connections[i].value.owner)
      ensures |history| <= cfg.bufferSize ==> connections[i].value.refused == 0 && connections[i].value.evicted == 0
      ensures old(orphaned) <= orphaned && |orphaned| == |old(orphaned)| + connections[i].value.evicted
      ensures Fits(cfg, |history|) ==> orphaned == old(orphaned)
    {
      for j := 0 to |history|
        invariant Valid() && Connected(Abs(), i) && held == multiset{} && owed == multiset{}
        invariant Others(old(Abs()), Abs(), i)
        invariant connections[i].value.first == |sent| - |history|
        invariant connections[i].value.next == |sent| - |history| + j
        invariant connections[i].value.owner == old(connections[i].value.owner)
        invariant |history| <= cfg.bufferSize ==>
                    && connections[i].value.refused == 0 && connections[i].value.evicted == 0 && Size(connections[i]) <= j
        invariant old(orphaned) <= orphaned && |orphaned| == |old(orphaned)| + connections[i].value.evicted
        invariant !cfg.overflow ==> connections[i].value.evicted == 0
      {
        OfferHistoryEntry(i, j);
      }
    }

    method OfferHistoryEntry(i: nat, j: nat)
      requires Valid() && Connected(Abs(), i) && owed == multiset{} && inFlight.None?
      requires j < |history| && connections[i].value.next == |sent| - |history| + j
      modifies this`connections, this`counter, this`owed, this`orphaned
      ensures Valid() && Connected(Abs(), i) && owed == multiset{}
      ensures Others(old(Abs()), Abs(), i) && HistoryTaken(cfg, old(connections[i].value), connections[i].value)
      ensures Size(old(connections[i])) < cfg.bufferSize ==>
                connections[i].value.refused == old(connections[i].value.refused)
                && Size(connections[i]) == Size(old(connections[i])) + 1
      ensures old(orphaned) <= orphaned
      ensures |orphaned| - |old(orphaned)| == connections[i].value.evicted - old(connections[i].value.evicted)
    {
      ghost var s := Abs();
      var r := CheckSend(i);
      ghost var t := Abs();
      AnswerHistory(i, j, r.None?);
      InterferedOthers(s, t, Abs(), i);
    }

    method AnswerHistory(i: nat, j: nat, accepted: bool)
      requires Valid() && Connected(Abs(), i) && owed == multiset{} && inFlight.None?
      requires j < |history| && connections[i].value.next == |sent| - |history| + j
      requires CanAnswer(cfg, connections[i].value, accepted)
      modifies this`connections, this`counter, this`owed, this`orphaned
      ensures Valid() && Connected(Abs(), i) && owed == multiset{}
      ensures Others(old(Abs()), Abs(), i) && HistoryTaken(cfg, old(connections[i].value), connections[i].value)
      ensures accepted ==> connections[i].value.refused == old(connections[i].value.refused)
      ensures accepted && Size(old(connections[i])) < cfg.bufferSize ==> Size(connections[i]) == Size(old(connections[i])) + 1
      ensures old(orphaned) <= orphaned
      ensures |orphaned| - |old(orphaned)| == connections[i].value.evicted - old(connections[i].value.evicted)
    {
      ghost var s := Abs();
      var e := PushHistory(i, j, accepted);
      ghost var t := Abs();
      assert Others(s, t, i);
      if accepted {
        Interfere();
        OthersInterfered(s, t, Abs(), i);
        CountDelivered(e.chunk);
      }
    }

    method PushHistory(i: nat, j: nat, accepted: bool) returns (e: Entry)
      requires Valid() && Connected(Abs(), i) && owed == multiset{} && inFlight.None?
      requires j < |history| && connections[i].value.next == |sent| - |history| + j
      requires CanAnswer(cfg, connections[i].value, accepted)
      modifies this`connections, this`owed, this`orphaned
      ensures Valid() && Connected(Abs(), i)
      ensures owed == if accepted then multiset{e.chunk} else multiset{}
      ensures connections == old(connections)[i := Some(if accepted then Push(cfg, old(connections[i].value), e)
                                                        else Refuse(old(connections[i].value), e))]
      ensures e.id == old(connections[i].value.next)
      ensures orphaned == old(orphaned) + if accepted then Evicted(cfg, old(connections[i].value)) else []
    {
      HistoryOfferedReached(cfg, Abs(), i, j, accepted);
      var k := connections[i].value;
      e := history[j];
      if accepted {
        connections := connections[i := Some(Push(cfg, k, e))];
        owed := multiset{e.chunk};
        orphaned := orphaned + Evicted(cfg, k);
      } else {
        connections := connections[i := Some(Refuse(k, e))];
      }
    }

    /** The increment that follows a successful `try_send`. */
    method CountDelivered(c: nat)
      requires Valid() && owed == multiset{c}
      modifies this`counter, this`owed
      ensures Valid() && owed == multiset{}
      ensures c < |old(counter)| && counter == old(counter)[c := old(counter[c]) + 1]
    {
      ghost var s := Abs();
      OwedInRange(cfg, s, c);
      counter := counter[c := counter[c] + 1];
      owed := multiset{};
      assert s.owed - multiset{c} == multiset{};
      ReachableStep(cfg, s, CountDelivery(c));
    }

    // -------------------------------------------------------------- connections

    /** `populate_subscriber_channels`: `visited` is the current subscriber list. A slot without a
        subscriber loses its connection, and with it every reference it held. An empty slot with a
        subscriber gets a connection and the history. An occupied slot is left alone, even if its
        connection belongs to a subscriber that has left. */
    method PopulateSubscriberChannels(visited: seq<Option<nat>>, attempts: seq<Attempt>) returns (ok: bool)
      requires Valid() && Idle(Abs())
      requires |visited| == |attempts| == |connections|
      modifies this`connections, this`counter, this`free, this`held, this`owed, this`orphaned
      ensures Valid() && Idle(Abs()) && |connections| == |visited|
      ensures ok <==> forall i :: 0 <= i < |visited| ==> !Fatal(old(connections), visited, attempts, i)
      ensures ok ==> AllUpdated(cfg, old(connections), visited, attempts, connections, |sent|, |history|)
      ensures ok ==> ServesAsUpdated(old(connections), visited, attempts, connections, |sent|)
      ensures !ok ==> exists n: nat :: FailedAt(cfg, old(connections), visited, attempts, connections, |sent|, |history|, n)
      ensures AllEmptied(old(connections), connections)
      ensures old(orphaned) <= orphaned
      ensures |orphaned| <= |old(orphaned)| + Lost(old(connections), visited, connections, |visited|)
      ensures Fits(cfg, |history|) && NoneRemoved(old(connections), visited) ==> orphaned == old(orphaned)
    {
      RetrieveReturnedSamples();
      ghost var cs := connections;
      ok := UpdateSlots(visited, attempts);
      assert AllKept(old(connections), cs);
      SameSlots(old(connections), cs, visited, attempts, connections);
      if ok {
        UpdatedSince(cfg, old(connections), cs, visited, attempts, connections, |sent|, |history|);
        UpdatedServes(cfg, old(connections), visited, attempts, Abs());
        UpdatedEmptied(cfg, old(connections), cs, visited, attempts, connections, |sent|, |history|, |visited|);
      } else {
        ghost var n: nat :| FailedAt(cfg, cs, visited, attempts, connections, |sent|, |history|, n);
        FailedSince(cfg, old(connections), cs, visited, attempts, connections, |sent|, |history|, n);
        UpdatedEmptied(cfg, old(connections), cs, visited, attempts, connections, |sent|, |history|, n);
      }
    }

    method UpdateSlots(visited: seq<Option<nat>>, attempts: seq<Attempt>) returns (ok: bool)
      requires Valid() && Idle(Abs())
      requires |visited| == |attempts| == |connections|
      modifies this`connections, this`counter, this`owed, this`orphaned
      ensures Valid() && Idle(Abs()) && |connections| == |visited|
      ensures ok <==> forall i :: 0 <= i < |visited| ==> !Fatal(old(connections), visited, attempts, i)
      ensures ok ==> AllUpdated(cfg, old(connections), visited, attempts, connections, |sent|, |history|)
      ensures !ok ==> exists n: nat :: FailedAt(cfg, old(connections), visited, attempts, connections, |sent|, |history|, n)
      ensures old(orphaned) <= orphaned
      ensures |orphaned| <= |old(orphaned)| + Lost(old(connections), visited, connections, |visited|)
      ensures ok ==> |orphaned| == |old(orphaned)| + Lost(old(connections), visited, connections, |visited|)
      ensures Fits(cfg, |history|) && NoneRemoved(old(connections), visited) ==> orphaned == old(orphaned)
    {
      for i := 0 to |visited|
        invariant Valid() && Idle(Abs())
        invariant UpdatedUpTo(cfg, old(connections), visited, attempts, connections, |sent|, |history|, i)
        invariant old(orphaned) <= orphaned
        invariant |orphaned| == |old(orphaned)| + Lost(old(connections), visited, connections, i)
        invariant Fits(cfg, |history|) && NoneRemoved(old(connections), visited) ==> orphaned == old(orphaned)
      {
        ghost var before := connections;
        assert SameOrLater(old(connections)[i], before[i]);
        ok := UpdateSlot(i, visited[i], attempts[i]);
        if !ok {
          UpdateFails(cfg, old(connections), visited, attempts, before, connections, |sent|, |history|, i);
          return;
        }
        UpdateNext(cfg, old(connections), visited, attempts, before, connections, |sent|, |history|, i);
      }
      ok := true;
    }

    method UpdateSlot(i: nat, visitor: Option<nat>, attempt: Attempt) returns (ok: bool)
      requires Valid() && Idle(Abs()) && i < |connections|
      modifies this`connections, this`counter, this`owed, this`orphaned
      ensures Valid() && Idle(Abs()) && OthersLater(old(connections), connections, i)
      ensures ok <==> !(visitor.Some? && old(connections[i]).None? && attempt == Fails(true))
      ensures ok ==> Updated(cfg, old(connections[i]), visitor, attempt, connections[i], |sent|, |history|)
      ensures !ok ==> connections == old(connections)
      ensures old(orphaned) <= orphaned
      ensures |orphaned| == |old(orphaned)| + LostAt(old(connections[i]), visitor, connections[i])
      ensures visitor.Some? && (old(connections[i]).Some? || !ok || Fits(cfg, |history|)) ==> orphaned == old(orphaned)
    {
      if visitor.None? {
        Remove(i);
      } else if connections[i].None? {
        if attempt.Succeeds? {
          Create(i, visitor.value);
        } else {
          return !attempt.fatal;
        }
      }
      return true;
    }

    /** `SubscriberConnections::remove`: whatever the connection held, in whichever queue, is lost. */
    method Remove(i: nat)
      requires Valid() && Idle(Abs()) && i < |connections|
      modifies this`connections, this`orphaned
      ensures Valid() && Idle(Abs())
      ensures connections == old(connections)[i := None]
      ensures orphaned == old(orphaned) + Contents(old(connections[i]))
    {
      if connections[i].Some? {
        RemoveReached(cfg, Abs(), i);
        orphaned := orphaned + Contents(connections[i]);
        connections := connections[i := None];
      }
    }

    /** `SubscriberConnections::create` on an empty slot, followed by the history. */
    method Create(i: nat, owner: nat)
      requires Valid() && Idle(Abs()) && i < |connections| && connections[i].None?
      modifies this`connections, this`counter, this`owed, this`orphaned
      ensures Valid() && Idle(Abs()) && OthersLater(old(connections), connections, i)
      ensures Updated(cfg, None, Some(owner), Succeeds, connections[i], |sent|, |history|)
      ensures old(orphaned) <= orphaned && |orphaned| == |old(orphaned)| + connections[i].value.evicted
      ensures Fits(cfg, |history|) ==> orphaned == old(orphaned)
    {
      ghost var s := Abs();
      HistoryWithinSends(cfg, s);
      connections := connections[i := Some(Fresh(|sent|, |history|, owner))];
      ReachableStep(cfg, s, Connect(i, owner));
      DeliverHistory(i);
    }

    // -------------------------------------------------------------- send

    /** `add_to_history`. The evicted sample gives up its reference. */
    method AddToHistory(e: Entry)
      requires Valid() && owed == multiset{} && held == multiset{}
      requires inFlight == Some(InFlight(e, Published))
      modifies this`counter, this`history, this`free, this`held, this`inFlight
      ensures Valid() && held == multiset{}
      ensures inFlight == Some(InFlight(e, ReadyToOffer(cfg)))
      ensures history == HistoryWith(cfg, old(history), e)
    {
      if cfg.historySize == 0 {
        return;
      }
      InFlightInRange(cfg, Abs());
      CountReached(cfg, Abs(), e);
      counter := counter[e.chunk := counter[e.chunk] + 1];
      held := multiset{e.chunk};
      inFlight := Some(InFlight(e, Counted));
      StoreInHistory(e);
    }

    /** `push_with_overflow` on the history queue, and the release of what it evicts. */
    method StoreInHistory(e: Entry)
      requires Valid() && owed == multiset{} && held == multiset{e.chunk} && cfg.historySize > 0
      requires inFlight == Some(InFlight(e, Counted))
      modifies this`counter, this`history, this`free, this`held, this`inFlight
      ensures Valid() && held == multiset{}
      ensures inFlight == Some(InFlight(e, Stored)) && history == HistoryAfter(cfg, old(history), e)
    {
      ghost var s := Abs();
      inFlight := Some(InFlight(e, Stored));
      if |history| < cfg.historySize {
        history := history + [e];
        held := multiset{};
        assert s.held - multiset{e.chunk} + multiset{} == held;
        ReachableStep(cfg, s, StoreHistory);
      } else {
        var oldest := history[0].chunk;
        history := history[1..] + [e];
        held := multiset{oldest};
        assert s.held - multiset{e.chunk} + multiset{oldest} == held;
        ReachableStep(cfg, s, StoreHistory);
        ReleaseSample(oldest);
      }
    }

    /** One connection of `deliver_sample`. With the blocking strategy the publisher first waits for
        room; `Waiting` says that it still does. */
    method OfferSample(i: nat, e: Entry) returns (r: Delivery)
      requires Valid() && Connected(Abs(), i) && owed == multiset{} && held == multiset{}
      requires inFlight == Some(InFlight(e, ReadyToOffer(cfg))) && connections[i].value.next == e.id
      modifies this`connections, this`counter, this`free, this`held, this`owed
      ensures Valid() && Connected(Abs(), i) && owed == multiset{} && held == multiset{}
      ensures OthersLater(old(connections), connections, i)
      ensures r.Waiting? ==> blocking && !cfg.overflow && Full(cfg, old(connections[i]))
      ensures blocking ==> r != Discarded(ReceiveBufferFull)
      ensures cfg.overflow ==> r != Discarded(ReceiveBufferFull)
      ensures !r.Waiting? ==> connections[i].value.next == e.id + 1
      ensures r.Delivered? <==> !r.Waiting? && connections[i].value.refused == old(connections[i].value.refused)
      ensures !r.Waiting? ==> OfferedOne(cfg, old(connections[i]), connections[i])
      ensures Size(old(connections[i])) < cfg.bufferSize ==> r.Delivered?
      ensures cfg.overflow && Size(old(connections[i])) <= cfg.bufferSize ==> r.Delivered?
    {
      if blocking && !cfg.overflow {
        Interfere();
        if |connections[i].value.buffered| >= cfg.bufferSize {
          return Waiting;
        }
      }
      var error := CheckSend(i);
      if error.Some? {
        RefuseSample(i, e);
        return Discarded(error.value);
      }
      DeliverTo(i, e);
      return Delivered;
    }

    /** The sample is not delivered to this connection. */
    method RefuseSample(i: nat, e: Entry)
      requires Valid() && Connected(Abs(), i) && Refusable(cfg, connections[i].value)
      requires inFlight == Some(InFlight(e, ReadyToOffer(cfg))) && connections[i].value.next == e.id
      modifies this`connections
      ensures Valid() && connections == old(connections)[i := Some(Refuse(old(connections[i].value), e))]
    {
      ghost var s := Abs();
      connections := connections[i := Some(Refuse(connections[i].value, e))];
      ReachableStep(cfg, s, Offer(i, false));
    }

    /** The push into the receive channel. */
    method PushSample(i: nat, e: Entry) returns (evicted: seq<Entry>)
      requires Valid() && Connected(Abs(), i) && owed == multiset{} && held == multiset{}
      requires inFlight == Some(InFlight(e, ReadyToOffer(cfg))) && connections[i].value.next == e.id
      requires Room(cfg, connections[i].value)
      modifies this`connections, this`held, this`owed
      ensures Valid() && owed == multiset{e.chunk} && held == Chunks(evicted)
      ensures evicted == Evicted(cfg, old(connections[i].value))
      ensures connections == old(connections)[i := Some(Push(cfg, old(connections[i].value), e))]
    {
      ghost var s := Abs();
      var k := connections[i].value;
      evicted := Evicted(cfg, k);
      connections := connections[i := Some(Push(cfg, k, e))];
      owed := multiset{e.chunk};
      held := Chunks(evicted);
      assert s.held + held == held && s.owed + owed == owed;
      ReachableStep(cfg, s, Offer(i, true));
    }

    /** The push and the increment. */
    method PushAndCount(i: nat, e: Entry) returns (evicted: seq<Entry>)
      requires Valid() && Connected(Abs(), i) && owed == multiset{} && held == multiset{}
      requires inFlight == Some(InFlight(e, ReadyToOffer(cfg))) && connections[i].value.next == e.id
      requires Room(cfg, connections[i].value)
      modifies this`connections, this`counter, this`held, this`owed
      ensures Valid() && owed == multiset{} && held == Chunks(evicted) && |evicted| <= 1
      ensures Connected(Abs(), i) && OthersLater(old(connections), connections, i)
      ensures OfferedOne(cfg, old(connections[i]), connections[i])
      ensures connections[i].value.refused == old(connections[i].value.refused)
    {
      ghost var before := connections;
      evicted := PushSample(i, e);
      ghost var pushed := connections;
      Interfere();
      PushedLater(cfg, before, pushed, connections, i, e);
      CountDelivered(e.chunk);
    }

    /** The push, the increment, and the release of an evicted sample. */
    method DeliverTo(i: nat, e: Entry)
      requires Valid() && Connected(Abs(), i) && owed == multiset{} && held == multiset{}
      requires inFlight == Some(InFlight(e, ReadyToOffer(cfg))) && connections[i].value.next == e.id
      requires Room(cfg, connections[i].value)
      modifies this`connections, this`counter, this`free, this`held, this`owed
      ensures Valid() && Connected(Abs(), i) && owed == multiset{} && held == multiset{}
      ensures OthersLater(old(connections), connections, i)
      ensures OfferedOne(cfg, old(connections[i]), connections[i])
      ensures connections[i].value.refused == old(connections[i].value.refused)
    {
      var evicted := PushAndCount(i, e);
      if |evicted| > 0 {
        assert held == multiset{evicted[0].chunk};
        ReleaseSample(evicted[0].chunk);
      }
    }

    /** `deliver_sample`: offers the sample to every connection and counts those that took it. */
    method DeliverSample(e: Entry) returns (recipients: nat, waiting: bool)
      requires Valid() && owed == multiset{} && held == multiset{}
      requires inFlight == Some(InFlight(e, ReadyToOffer(cfg)))
      requires forall i: nat :: Connected(Abs(), i) ==> connections[i].value.next == e.id
      modifies this`connections, this`counter, this`free, this`held, this`owed
      ensures Valid() && owed == multiset{} && held == multiset{}
      ensures waiting ==> blocking && !cfg.overflow && SomeFull(cfg, old(connections))
      ensures |connections| == |old(connections)|
      ensures !waiting ==>
                && AllOffered(cfg, old(connections), connections)
                && recipients == |Takers(old(connections), connections, |connections|)|
    {
      recipients := 0;
      for i := 0 to |connections|
        invariant Valid() && owed == multiset{} && held == multiset{}
        invariant OfferedUpTo(cfg, old(connections), connections, i)
        invariant recipients == |Takers(old(connections), connections, i)|
      {
        ghost var before := connections;
        assert SameOrLater(old(connections)[i], before[i]);
        if connections[i].Some? {
          assert Connected(old(Abs()), i);
          var r := OfferSample(i, e);
          if r.Waiting? {
            assert Full(cfg, old(connections)[i]);
            return recipients, true;
          }
          TakersStep(old(connections), before, connections, i, r.Delivered?);
          if r.Delivered? {
            recipients := recipients + 1;
          }
        } else {
          TakersStep(old(connections), before, connections, i, false);
        }
        OfferNext(cfg, old(connections), before, connections, i);
      }
      waiting := false;
    }

    /** `send`: `visited` is the subscriber list if it has changed since the last update. */
    method Send(c: nat, visited: Option<seq<Option<nat>>>, attempts: seq<Attempt>) returns (r: SendResult)
      requires Valid() && Idle(Abs()) && loans[c] > 0
      requires |attempts| == |connections| && (visited.Some? ==> |visited.value| == |connections|)
      modifies this
      ensures Valid() && memory == old(memory)
      ensures !r.Blocked? ==> Idle(Abs()) && loans == old(loans) - multiset{c} && loanCounter == old(loanCounter) - 1
      ensures r.ConnectionError? <==>
                visited.Some? && exists i :: 0 <= i < |attempts| && Fatal(old(connections), visited.value, attempts, i)
      ensures r.ConnectionError? ==> sent == old(sent) && history == old(history)
      ensures !r.ConnectionError? ==>
                && c < |memory| && sent == old(sent) + [memory[c]]
                && history == HistoryWith(cfg, old(history), Entry(c, |old(sent)|))
      ensures r.ConnectionError? ==> exists n: nat ::
                FailedAt(cfg, old(connections), visited.value, attempts, connections, |sent|, |history|, n)
      ensures r.Blocked? ==> blocking && !cfg.overflow
      ensures r.Blocked? && visited.None? ==> SomeFull(cfg, old(connections))
      ensures r.Blocked? && visited.Some? ==> exists mid ::
                AllUpdated(cfg, old(connections), visited.value, attempts, mid, |old(sent)|, |old(history)|) && SomeFull(cfg, mid)
      ensures |connections| == |old(connections)|
      ensures r.Sent? && visited.Some? ==> exists mid ::
                && AllUpdated(cfg, old(connections), visited.value, attempts, mid, |old(sent)|, |old(history)|)
                && r.recipients == |Takers(mid, connections, |connections|)|
      ensures r.Sent? && visited.None? ==>
                && r.recipients == |Takers(old(connections), connections, |connections|)|
                && AllOffered(cfg, old(connections), connections)
      ensures r.Sent? && visited.Some? ==>
                AllSent(cfg, old(connections), visited.value, attempts, connections, |old(sent)|, |old(history)|)
      ensures r.Sent? && visited.Some? ==>
                ServesAsUpdated(old(connections), visited.value, attempts, connections, |old(sent)| + 1)
      ensures visited.None? ==> orphaned == old(orphaned)
      ensures visited.Some? ==> old(orphaned) <= orphaned
      ensures visited.Some? && Fits(cfg, |old(history)|) && NoneRemoved(old(connections), visited.value) ==>
                orphaned == old(orphaned)
      ensures visited.Some? && r.Sent? ==>
                |orphaned| <= |old(orphaned)| + Lost(old(connections), visited.value, connections, |connections|)
    {
      if visited.None? {
        r := SendToAll(c);
      } else {
        r := UpdateAndSend(c, visited.value, attempts);
        if r.Sent? {
          SentServes(cfg, old(connections), visited.value, attempts, connections, |old(sent)|, |old(history)|);
        }
      }
    }

    method UpdateAndSend(c: nat, visited: seq<Option<nat>>, attempts: seq<Attempt>) returns (r: SendResult)
      requires Valid() && Idle(Abs()) && loans[c] > 0 && |visited| == |attempts| == |connections|
      modifies this
      ensures Valid() && memory == old(memory) && |connections| == |old(connections)|
      ensures !r.Blocked? ==> Idle(Abs()) && loans == old(loans) - multiset{c} && loanCounter == old(loanCounter) - 1
      ensures r.ConnectionError? <==> exists i :: 0 <= i < |attempts| && Fatal(old(connections), visited, attempts, i)
      ensures r.ConnectionError? ==> sent == old(sent) && history == old(history)
      ensures !r.ConnectionError? ==>
                && c < |memory| && sent == old(sent) + [memory[c]]
                && history == HistoryWith(cfg, old(history), Entry(c, |old(sent)|))
      ensures r.ConnectionError? ==> exists n: nat ::
                FailedAt(cfg, old(connections), visited, attempts, connections, |sent|, |history|, n)
      ensures r.Blocked? ==> blocking && !cfg.overflow && exists mid ::
                AllUpdated(cfg, old(connections), visited, attempts, mid, |old(sent)|, |old(history)|) && SomeFull(cfg, mid)
      ensures r.Sent? ==> exists mid ::
                && AllUpdated(cfg, old(connections), visited, attempts, mid, |old(sent)|, |old(history)|)
                && r.recipients == |Takers(mid, connections, |connections|)|
      ensures r.Sent? ==> AllSent(cfg, old(connections), visited, attempts, connections, |old(sent)|, |old(history)|)
      ensures old(orphaned) <= orphaned
      ensures Fits(cfg, |old(history)|) && NoneRemoved(old(connections), visited) ==> orphaned == old(orphaned)
      ensures r.Sent? ==> |orphaned| <= |old(orphaned)| + Lost(old(connections), visited, connections, |connections|)
    {
      var ok := PopulateSubscriberChannels(visited, attempts);
      if !ok {
        DropSample(c);
        return ConnectionError;
      }
      ghost var mid := connections;
      AllWithinOffers(cfg, Abs());
      assert AllReady(mid, |old(sent)|) by {
        assert forall i :: 0 <= i < |mid| && mid[i].Some? ==> Connected(Abs(), i);
      }
      r := SendToAll(c);
      if r.Sent? {
        SentToAll(cfg, old(connections), visited, attempts, mid, connections, |old(sent)|, |old(history)|);
      }
    }

    method SendToAll(c: nat) returns (r: SendResult)
      requires Valid() && Idle(Abs()) && loans[c] > 0
      modifies this`connections, this`counter, this`free, this`held, this`owed, this`history, this`inFlight,
               this`sent, this`loans, this`loanCounter
      ensures Valid() && !r.ConnectionError?
      ensures r.Sent? ==> Idle(Abs()) && loans == old(loans) - multiset{c} && loanCounter == old(loanCounter) - 1
      ensures |connections| == |old(connections)|
      ensures r.Sent? ==> r.recipients == |Takers(old(connections), connections, |connections|)|
      ensures r.Sent? ==> AllOffered(cfg, old(connections), connections)
      ensures c < |memory| && sent == old(sent) + [memory[c]]
      ensures history == HistoryWith(cfg, old(history), Entry(c, |old(sent)|))
      ensures r.Blocked? ==> blocking && !cfg.overflow && SomeFull(cfg, old(connections))
    {
      var e := BeginSend(c);
      AddToHistory(e);
      r := DeliverAndFinish(e);
    }

    method DeliverAndFinish(e: Entry) returns (r: SendResult)
      requires Valid() && owed == multiset{} && held == multiset{} && e.id + 1 == |sent|
      requires inFlight == Some(InFlight(e, ReadyToOffer(cfg)))
      requires forall i: nat :: Connected(Abs(), i) ==> connections[i].value.next == e.id
      modifies this`connections, this`counter, this`free, this`held, this`owed, this`inFlight, this`loans, this`loanCounter
      ensures Valid() && !r.ConnectionError? && |connections| == |old(connections)|
      ensures r.Blocked? ==> blocking && !cfg.overflow && SomeFull(cfg, old(connections))
      ensures r.Sent? ==>
                && Idle(Abs()) && loans == old(loans) - multiset{e.chunk} && loanCounter == old(loanCounter) - 1
                && r.recipients == |Takers(old(connections), connections, |connections|)|
                && AllOffered(cfg, old(connections), connections)
    {
      var recipients, waiting := DeliverSample(e);
      if waiting {
        return Blocked;
      }
      assert forall i: nat :: Connected(Abs(), i) ==> Connected(old(Abs()), i);
      FinishSending(e);
      return Sent(recipients);
    }

    method BeginSend(c: nat) returns (e: Entry)
      requires Valid() && Idle(Abs()) && loans[c] > 0
      modifies this`sent, this`inFlight
      ensures Valid() && inFlight == Some(InFlight(e, Published)) && e == Entry(c, |old(sent)|)
      ensures c < |memory| && sent == old(sent) + [memory[c]]
    {
      ghost var s := Abs();
      LoanInRange(cfg, s, c);
      e := Entry(c, |sent|);
      sent := sent + [memory[c]];
      inFlight := Some(InFlight(e, Published));
      ReachableStep(cfg, s, Publish(c));
    }

    /** The sent sample goes out of scope: the loan's reference and the loan are given up. */
    method FinishSending(e: Entry)
      requires Valid() && CaughtUp(Abs()) && owed == multiset{} && held == multiset{}
      requires inFlight == Some(InFlight(e, ReadyToOffer(cfg)))
      modifies this`loans, this`loanCounter, this`held, this`inFlight, this`counter, this`free
      ensures Valid() && held == multiset{} && inFlight.None?
      ensures loans == old(loans) - multiset{e.chunk} && loanCounter == old(loanCounter) - 1
    {
      InFlightInRange(cfg, Abs());
      GiveUpSentLoan(e);
      ReleaseSample(e.chunk);
    }

    method GiveUpSentLoan(e: Entry)
      requires Valid() && CaughtUp(Abs()) && owed == multiset{} && held == multiset{} && loans[e.chunk] > 0
      requires inFlight == Some(InFlight(e, ReadyToOffer(cfg)))
      modifies this`loans, this`loanCounter, this`held, this`inFlight
      ensures Valid() && held == multiset{e.chunk} && inFlight.None?
      ensures loans == old(loans) - multiset{e.chunk} && loanCounter == old(loanCounter) - 1
    {
      FinishReached(cfg, Abs(), e.chunk);
      loans := loans - multiset{e.chunk};
      loanCounter := loanCounter - 1;
      held := multiset{e.chunk};
      inFlight := None;
    }
  }

  /** Only slot 0 is taken. */
  function InSlot0(cfg: Config, id: nat): seq<Option<nat>> {
    seq(cfg.maxSubscribers, i => if i == 0 then Some(id) else None)
  }

  /** Subscriber `a` leaves and subscriber `b` joins in its slot before the publisher updates its connections:
      the sample goes to the connection of `a`, and `b` has none. */
  method LateJoinerInTakenSlot(cfg: Config, a: nat, b: nat) returns (p: Publisher, r: SendResult)
    requires cfg.maxSubscribers > 0 && cfg.maxLoans > 0 && a != b
    ensures p.Valid() && p.cfg == cfg && fresh(p) && r.Sent? && |p.sent| == 1
    ensures |p.connections| == cfg.maxSubscribers && Serves(p.connections[0], a, 1)
    ensures forall i :: 0 <= i < |p.connections| ==> !Serves(p.connections[i], b, 1)
  {
    var attempts := seq(cfg.maxSubscribers, _ => Succeeds);
    p := new Publisher(cfg, false, InSlot0(cfg, a), attempts);
    assert ChunkSet(p.orphaned) == {};
    var loan := p.LoanUninit();
    r := p.Send(loan.chunk, Some(InSlot0(cfg, b)), attempts);
  }
}
