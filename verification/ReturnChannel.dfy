/** The return channel of a connection: can a subscriber always give a sample back?

    `try_send` reads the length of the return channel first and the length of the receive channel
    afterwards, and a subscriber may run in between. Here the two reads and the push are steps of
    their own, added to the steps of the sample lifecycle. */
module ReturnChannel {
  import opened Common
  import opened SampleLifecycle
  import opened SampleReferences
  import opened SampleTheorems
  import opened SampleReturns
  import opened SampleCapacity
  import SampleLeaks

  // ---------------------------------------------------------------- sends in three steps

  /** How far `try_send` has come: it has read the length of the return channel of a slot, or has found
      that the channel is long enough. */
  datatype Phase = Idle | Measured(slot: nat, returned: nat) | Passed(slot: nat)

  datatype Port = Port(state: State, phase: Phase)

  datatype Move = Do(action: Action) | Measure(slot: nat) | Check | Push

  function Start(cfg: Config): Port {
    Port(Initial(cfg), Idle)
  }

  /** The answer to the sample that is sent or to the next entry of the history. */
  function Answer(s: State, i: nat, accepted: bool): Action {
    if s.inFlight.Some? then Offer(i, accepted) else OfferHistory(i, accepted)
  }

  /** The connection in slot `i` is to be offered a sample. */
  ghost predicate Due(cfg: Config, s: State, i: nat) {
    && Connected(s, i)
    && match s.inFlight
       case None => 0 <= HistoryIndex(s, s.connections[i].value) < |s.history|
       case Some(f) =>
         && f.progress == (if cfg.historySize > 0 then Stored else Published)
         && s.connections[i].value.next == f.entry.id
  }

  /** The space in the return channel, as measured, is not enough for what may come back. */
  predicate TooShort(cfg: Config, returned: nat, buffered: nat) {
    ReturnChannelSize(cfg) - returned <= cfg.maxBorrowed + buffered
  }

  /** While a send is under way only subscribers do anything else. */
  ghost predicate CanMove(cfg: Config, p: Port, m: Move) {
    match m
    case Do(a) =>
      && !a.Offer? && !a.OfferHistory? && Enabled(cfg, p.state, a)
      && (p.phase.Idle? || a.Receive? || a.Return?)
    case Measure(i) => p.phase.Idle? && Due(cfg, p.state, i)
    case Check => p.phase.Measured? && Consistent(cfg, p)
    case Push => p.phase.Passed? && Consistent(cfg, p)
  }

  /** What holds while a send is under way. */
  ghost predicate Consistent(cfg: Config, p: Port) {
    match p.phase
    case Idle => true
    case Measured(i, n) => Due(cfg, p.state, i) && n <= |p.state.connections[i].value.returned|
    case Passed(i) => Due(cfg, p.state, i)
  }

  ghost function After(cfg: Config, p: Port, m: Move): Port
    requires CanMove(cfg, p, m)
  {
    match m
    case Do(a) => p.(state := Step(cfg, p.state, a))
    case Measure(i) => p.(phase := Measured(i, |p.state.connections[i].value.returned|))
    case Check =>
      var i := p.phase.slot;
      if TooShort(cfg, p.phase.returned, |p.state.connections[i].value.buffered|)
      then Port(Step(cfg, p.state, Answer(p.state, i, false)), Idle)
      else p.(phase := Passed(i))
    case Push =>
      var i := p.phase.slot;
      Port(Step(cfg, p.state, Answer(p.state, i, Room(cfg, p.state.connections[i].value))), Idle)
  }

  ghost predicate Course(cfg: Config, ports: seq<Port>, run: seq<Move>) {
    && |ports| == |run| + 1
    && forall k {:trigger run[k]} :: 0 <= k < |run| ==> CanMove(cfg, ports[k], run[k]) && ports[k + 1] == After(cfg, ports[k], run[k])
  }

  ghost predicate Reached(cfg: Config, p: Port) {
    exists run, ports :: Course(cfg, ports, run) && ports[0] == Start(cfg) && ports[|run|] == p
  }

  lemma Then(cfg: Config, p: Port, m: Move) returns (q: Port)
    requires Reached(cfg, p) && CanMove(cfg, p, m)
    ensures Reached(cfg, q) && q == After(cfg, p, m)
  {
    var run, ports :| Course(cfg, ports, run) && ports[0] == Start(cfg) && ports[|run|] == p;
    q := After(cfg, p, m);
    var all, moves := ports + [q], run + [m];
    forall k | 0 <= k < |moves| ensures CanMove(cfg, all[k], moves[k]) && all[k + 1] == After(cfg, all[k], moves[k]) {
      if k < |run| {
        assert moves[k] == run[k];
      }
    }
    assert Course(cfg, all, moves);
  }

  // ---------------------------------------------------------------- the lifecycle behind it

  /** A move leaves the lifecycle where it is or makes one of its steps. */
  lemma MoveKeeps(cfg: Config, p: Port, m: Move)
    requires Reachable(cfg, p.state) && Consistent(cfg, p) && CanMove(cfg, p, m)
    ensures Reachable(cfg, After(cfg, p, m).state) && Consistent(cfg, After(cfg, p, m))
  {
    match m
    case Do(a) => ReachableStep(cfg, p.state, a);
    case Measure(_) =>
    case Check =>
      var i := p.phase.slot;
      if TooShort(cfg, p.phase.returned, |p.state.connections[i].value.buffered|) {
        ReachableStep(cfg, p.state, Answer(p.state, i, false));
      }
    case Push =>
      var i := p.phase.slot;
      ReachableStep(cfg, p.state, Answer(p.state, i, Room(cfg, p.state.connections[i].value)));
  }

  lemma {:induction false} CourseKeeps(cfg: Config, ports: seq<Port>, run: seq<Move>, n: nat)
    requires Course(cfg, ports, run) && ports[0] == Start(cfg) && n <= |run|
    ensures Reachable(cfg, ports[n].state) && Consistent(cfg, ports[n])
  {
    if n == 0 {
      InitialReachable(cfg);
    } else {
      CourseKeeps(cfg, ports, run, n - 1);
      MoveKeeps(cfg, ports[n - 1], run[n - 1]);
    }
  }

  /** Every run with separate reads is a run of the lifecycle, and a send under way is never stuck. */
  lemma ReachedIsReachable(cfg: Config, p: Port)
    requires Reached(cfg, p)
    ensures Reachable(cfg, p.state)
    ensures p.phase.Measured? ==> CanMove(cfg, p, Check)
    ensures p.phase.Passed? ==> CanMove(cfg, p, Push)
  {
    var run, ports :| Course(cfg, ports, run) && ports[0] == Start(cfg) && ports[|run|] == p;
    CourseKeeps(cfg, ports, run, |run|);
  }

  /** A step of the lifecycle without a subscriber between the reads. */
  lemma QuietStep(cfg: Config, p: Port, a: Action) returns (q: Port)
    requires Reached(cfg, p) && p.phase.Idle? && Enabled(cfg, p.state, a) && SampleLeaks.Undisturbed(cfg, p.state, a)
    ensures Reached(cfg, q) && q == Port(Step(cfg, p.state, a), Idle)
  {
    if a.Offer? || a.OfferHistory? {
      q := Then(cfg, p, Measure(a.slot));
      q := Then(cfg, q, Check);
      if !q.phase.Idle? {
        q := Then(cfg, q, Push);
      }
    } else {
      q := Then(cfg, p, Do(a));
    }
  }

  lemma {:induction false} QuietCourse(cfg: Config, states: seq<State>, run: seq<Action>, n: nat)
    requires SampleLeaks.QuietPath(cfg, states, run) && states[0] == Initial(cfg) && n <= |run|
    ensures Reached(cfg, Port(states[n], Idle))
  {
    if n == 0 {
      assert Course(cfg, [Start(cfg)], []);
    } else {
      QuietCourse(cfg, states, run, n - 1);
      assert run[n - 1] == run[n - 1];
      var q := QuietStep(cfg, Port(states[n - 1], Idle), run[n - 1]);
    }
  }

  lemma FromQuiet(cfg: Config, s: State)
    requires SampleLeaks.QuietlyReachable(cfg, s)
    ensures Reached(cfg, Port(s, Idle))
  {
    var run, states :| SampleLeaks.QuietPath(cfg, states, run) && states[0] == Initial(cfg) && states[|run|] == s;
    QuietCourse(cfg, states, run, |run|);
  }

  // ---------------------------------------------------------------- one subscriber

  /** Slot 0 has the only connection, with so many samples buffered, borrowed and returned. */
  ghost predicate Sole(cfg: Config, s: State, buffered: nat, borrowed: nat, returned: nat) {
    && |s.connections| == cfg.maxSubscribers && s.connections[0].Some? && SampleLeaks.NobodyElse(s)
    && |s.connections[0].value.buffered| == buffered && |s.connections[0].value.borrowed| == borrowed
    && |s.connections[0].value.returned| == returned
  }

  /** No send is under way, `loans` are loaned, and the connection is still to be offered the last `todo`
      sends, which are in the history. */
  ghost predicate Rests(cfg: Config, p: Port, loans: multiset<nat>, todo: nat, buffered: nat, borrowed: nat, returned: nat) {
    && Reached(cfg, p) && p.phase.Idle? && Sole(cfg, p.state, buffered, borrowed, returned)
    && p.state.inFlight.None? && p.state.held == multiset{} && p.state.owed == multiset{}
    && p.state.loans == loans && p.state.orphaned == []
    && p.state.connections[0].value.next + todo == |p.state.sent| && todo <= |p.state.history|
  }

  /** The sample `e` is about to be offered to the connection. */
  ghost predicate Sends(cfg: Config, p: Port, loans: multiset<nat>, e: Entry, buffered: nat, borrowed: nat, returned: nat) {
    && Reached(cfg, p) && Sole(cfg, p.state, buffered, borrowed, returned)
    && p.state.inFlight == Some(InFlight(e, if cfg.historySize > 0 then Stored else Published))
    && p.state.held == multiset{} && p.state.owed == multiset{}
    && p.state.loans == loans && e.chunk in loans && p.state.orphaned == []
    && p.state.connections[0].value.next == e.id && |p.state.sent| == e.id + 1
  }

  /** Only the queues of the connection differ. */
  ghost predicate Handled(p: Port, q: Port) {
    && |p.state.connections| == |q.state.connections| > 0 && p.state.connections[0].Some? && q.state.connections[0].Some?
    && q == p.(state := p.state.(connections := p.state.connections[0 := q.state.connections[0]]))
    && q.state.connections[0].value.next == p.state.connections[0].value.next
  }

  lemma Receives(cfg: Config, p: Port, buffered: nat, borrowed: nat, returned: nat) returns (q: Port)
    requires Reached(cfg, p) && Sole(cfg, p.state, buffered, borrowed, returned) && buffered > 0 && borrowed < cfg.maxBorrowed
    ensures Reached(cfg, q) && Handled(p, q) && Sole(cfg, q.state, buffered - 1, borrowed + 1, returned)
  {
    q := Then(cfg, p, Do(Receive(0)));
  }

  lemma Returns(cfg: Config, p: Port, buffered: nat, borrowed: nat, returned: nat) returns (q: Port)
    requires Reached(cfg, p) && Sole(cfg, p.state, buffered, borrowed, returned)
    requires borrowed > 0 && returned < ReturnChannelSize(cfg)
    ensures Reached(cfg, q) && Handled(p, q) && Sole(cfg, q.state, buffered, borrowed - 1, returned + 1)
  {
    q := Then(cfg, p, Do(Return(0, 0)));
  }

  /** The subscriber returns `n` samples. */
  lemma {:induction false} ReturnMany(cfg: Config, p: Port, b: nat, w: nat, r: nat, n: nat) returns (q: Port)
    requires Reached(cfg, p) && Sole(cfg, p.state, b, w, r) && n <= w && r + n <= ReturnChannelSize(cfg)
    ensures Reached(cfg, q) && Sole(cfg, q.state, b, w - n, r + n)
  {
    if n == 0 {
      q := p;
    } else {
      q := ReturnMany(cfg, p, b, w, r, n - 1);
      q := Returns(cfg, q, b, w - (n - 1), r + n - 1);
    }
  }

  /** The subscriber receives and returns `n` samples, one after the other. */
  lemma {:induction false} PassThrough(cfg: Config, p: Port, b: nat, r: nat, n: nat) returns (q: Port)
    requires Reached(cfg, p) && Sole(cfg, p.state, b, 0, r) && n <= b && r + n <= ReturnChannelSize(cfg)
    ensures Reached(cfg, q) && Sole(cfg, q.state, b - n, 0, r + n)
  {
    if n == 0 {
      q := p;
    } else {
      q := PassThrough(cfg, p, b, r, n - 1);
      q := Receives(cfg, q, b - (n - 1), 0, r + n - 1);
      q := Returns(cfg, q, b - n, 1, r + n - 1);
    }
  }

  /** A subscriber holds a sample and finds the return channel full: the fatal error of
      `Subscriber::release_sample`. */
  ghost predicate ReturnRefused(cfg: Config, s: State, i: nat) {
    Connected(s, i) && s.connections[i].value.borrowed != [] && |s.connections[i].value.returned| >= ReturnChannelSize(cfg)
  }

  /** More samples on the way than the return channel can take. */
  lemma Overfull(cfg: Config, p: Port, b: nat, r: nat) returns (q: Port)
    requires Reached(cfg, p) && Sole(cfg, p.state, b, cfg.maxBorrowed, r) && b > 0
    requires b + cfg.maxBorrowed + r > ReturnChannelSize(cfg) && cfg.maxBorrowed + r <= ReturnChannelSize(cfg)
    ensures Reached(cfg, q) && ReturnRefused(cfg, q.state, 0)
  {
    var n := ReturnChannelSize(cfg) - (cfg.maxBorrowed + r);
    q := ReturnMany(cfg, p, b, cfg.maxBorrowed, r, cfg.maxBorrowed);
    q := PassThrough(cfg, q, b, r + cfg.maxBorrowed, n);
    q := Receives(cfg, q, b - n, 0, ReturnChannelSize(cfg));
  }

  // ---------------------------------------------------------------- sends

  lemma Loans(cfg: Config, p: Port, loans: multiset<nat>, b: nat, w: nat) returns (q: Port, c: nat)
    requires Rests(cfg, p, loans, 0, b, w, 0) && |loans| < cfg.maxLoans && b <= cfg.bufferSize && w <= cfg.maxBorrowed
    ensures Rests(cfg, q, loans + multiset{c}, 0, b, w, 0)
  {
    ReachedIsReachable(cfg, p);
    ReachableInv(cfg, p.state);
    FreeChunkExists(cfg, p.state);
    c :| c in p.state.free;
    LoanedChunkIsUnused(cfg, p.state, c);
    q := Then(cfg, p, Do(Loan(c, 0)));
  }

  /** The sample is published and recorded in the history. */
  lemma Begins(cfg: Config, p: Port, loans: multiset<nat>, c: nat, b: nat, w: nat, r: nat) returns (q: Port, e: Entry)
    requires Rests(cfg, p, loans, 0, b, w, r) && c in loans
    ensures Sends(cfg, q, loans, e, b, w, r) && q.phase.Idle? && e.chunk == c
  {
    ReachedIsReachable(cfg, p);
    LoanInRange(cfg, p.state, c);
    e := Entry(c, |p.state.sent|);
    q := Then(cfg, p, Do(Publish(c)));
    if cfg.historySize > 0 {
      q := Records(cfg, q, e);
    }
  }

  lemma Records(cfg: Config, p: Port, e: Entry) returns (q: Port)
    requires Reached(cfg, p) && p.phase.Idle? && p.state.inFlight == Some(InFlight(e, Published)) && cfg.historySize > 0
    requires p.state.held == multiset{} && p.state.owed == multiset{}
    ensures Reached(cfg, q)
    ensures q == p.(state := p.state.(counter := q.state.counter, free := q.state.free, history := q.state.history,
                                      inFlight := Some(InFlight(e, Stored))))
  {
    ReachedIsReachable(cfg, p);
    InFlightInRange(cfg, p.state);
    q := Then(cfg, p, Do(CountHistory));
    assert q.state.held == multiset{e.chunk};
    q := Then(cfg, q, Do(StoreHistory));
    assert q.state.held == HistoryEvicted(cfg, p.state.history);
    if |p.state.history| >= cfg.historySize {
      q := Releases(cfg, q, p.state.history[0].chunk);
    }
  }

  lemma Releases(cfg: Config, p: Port, c: nat) returns (q: Port)
    requires Reached(cfg, p) && p.phase.Idle? && p.state.held == multiset{c} && p.state.owed == multiset{}
    ensures Reached(cfg, q)
    ensures q == p.(state := p.state.(counter := q.state.counter, free := q.state.free, held := multiset{}))
  {
    ReachedIsReachable(cfg, p);
    ReleaseIsSafe(cfg, p.state, c);
    q := Then(cfg, p, Do(Release(c)));
    assert q.state.held == multiset{};
  }

  /** The second half of a send, from the moment the return channel was measured. */
  lemma Finishes(cfg: Config, p: Port, loans: multiset<nat>, e: Entry, b: nat, w: nat, r: nat) returns (q: Port)
    requires Sends(cfg, p, loans, e, b, w, r) && b < cfg.bufferSize
    requires p.phase.Measured? && p.phase.slot == 0 && p.phase.returned + b <= cfg.bufferSize
    ensures Rests(cfg, q, loans - multiset{e.chunk}, 0, b + 1, w, r)
  {
    ReachedIsReachable(cfg, p);
    q := Then(cfg, p, Check);
    q := Then(cfg, q, Push);
    q := Counts(cfg, q, e.chunk);
    q := Ends(cfg, q, e);
  }

  lemma Counts(cfg: Config, p: Port, c: nat) returns (q: Port)
    requires Reached(cfg, p) && p.phase.Idle? && p.state.owed == multiset{c}
    ensures Reached(cfg, q) && q == p.(state := p.state.(counter := q.state.counter, owed := multiset{}))
  {
    ReachedIsReachable(cfg, p);
    OwedInRange(cfg, p.state, c);
    q := Then(cfg, p, Do(CountDelivery(c)));
    assert q.state.owed == multiset{};
  }

  lemma Ends(cfg: Config, p: Port, e: Entry) returns (q: Port)
    requires Reached(cfg, p) && p.phase.Idle? && CaughtUp(p.state) && p.state.held == multiset{} && p.state.owed == multiset{}
    requires p.state.inFlight == Some(InFlight(e, if cfg.historySize > 0 then Stored else Published))
    requires e.chunk in p.state.loans
    ensures Reached(cfg, q)
    ensures q == p.(state := p.state.(counter := q.state.counter, free := q.state.free, inFlight := None,
                                      loans := p.state.loans - multiset{e.chunk}, loanCounter := q.state.loanCounter))
  {
    q := Then(cfg, p, Do(FinishSend));
    assert q.state.held == multiset{e.chunk};
    q := Releases(cfg, q, e.chunk);
  }

  /** A send that nobody disturbs. */
  lemma SendQuietly(cfg: Config, p: Port, loans: multiset<nat>, c: nat, b: nat, w: nat, r: nat) returns (q: Port)
    requires Rests(cfg, p, loans, 0, b, w, r) && c in loans && b < cfg.bufferSize && r + b <= cfg.bufferSize
    ensures Rests(cfg, q, loans - multiset{c}, 0, b + 1, w, r)
  {
    var e;
    q, e := Begins(cfg, p, loans, c, b, w, r);
    q := Then(cfg, q, Measure(0));
    q := Finishes(cfg, q, loans, e, b, w, r);
  }

  /** A send during which the subscriber returns a sample and receives another, after the return
      channel has been measured and before the receive channel is. */
  lemma SendDisturbed(cfg: Config, p: Port, loans: multiset<nat>, c: nat, b: nat, w: nat, r: nat) returns (q: Port)
    requires Rests(cfg, p, loans, 0, b, w, r) && c in loans && 0 < b <= cfg.bufferSize && 0 < w <= cfg.maxBorrowed
    requires r < ReturnChannelSize(cfg) && r + b <= cfg.bufferSize + 1
    ensures Rests(cfg, q, loans - multiset{c}, 0, b, w, r + 1)
  {
    var e;
    q, e := Begins(cfg, p, loans, c, b, w, r);
    q := Then(cfg, q, Measure(0));
    q := Returns(cfg, q, b, w, r);
    q := Receives(cfg, q, b, w - 1, r + 1);
    q := Finishes(cfg, q, loans, e, b - 1, w, r + 1);
  }

  /** The next entry of the history is delivered, and nobody disturbs it. */
  lemma Delivers(cfg: Config, p: Port, loans: multiset<nat>, todo: nat, b: nat, w: nat, r: nat) returns (q: Port)
    requires Rests(cfg, p, loans, todo, b, w, r) && todo > 0 && b < cfg.bufferSize && r + b <= cfg.bufferSize
    ensures Rests(cfg, q, loans, todo - 1, b + 1, w, r)
  {
    var j := HistoryIndex(p.state, p.state.connections[0].value);
    ReachedIsReachable(cfg, p);
    HistoryEntryId(cfg, p.state, j);
    q := Then(cfg, p, Measure(0));
    q := Then(cfg, q, Check);
    q := Then(cfg, q, Push);
    q := Counts(cfg, q, p.state.history[j].chunk);
  }

  // ---------------------------------------------------------------- two loans

  lemma Joins(cfg: Config) returns (p: Port)
    ensures Rests(cfg, p, multiset{}, 0, 0, 0, 0)
  {
    SampleLeaks.StartAtRest(cfg);
    var s := SampleLeaks.Connects(cfg, Initial(cfg));
    FromQuiet(cfg, s);
    p := Port(s, Idle);
  }

  /** A sample is loaned and sent. */
  lemma LoanAndSend(cfg: Config, p: Port, b: nat, w: nat) returns (q: Port)
    requires Rests(cfg, p, multiset{}, 0, b, w, 0) && cfg.maxLoans > 0 && b < cfg.bufferSize && w <= cfg.maxBorrowed
    ensures Rests(cfg, q, multiset{}, 0, b + 1, w, 0)
  {
    var c;
    q, c := Loans(cfg, p, multiset{}, b, w);
    q := SendQuietly(cfg, q, multiset{} + multiset{c}, c, b, w, 0);
    assert multiset{} + multiset{c} - multiset{c} == multiset{};
  }

  /** The subscriber receives every sample and keeps it. */
  lemma {:induction false} BorrowSent(cfg: Config, n: nat) returns (p: Port)
    requires n <= cfg.maxBorrowed && cfg.maxLoans > 0
    ensures Rests(cfg, p, multiset{}, 0, 0, n, 0)
  {
    if n == 0 {
      p := Joins(cfg);
    } else {
      p := BorrowSent(cfg, n - 1);
      p := LoanAndSend(cfg, p, 0, n - 1);
      p := Receives(cfg, p, 1, n - 1, 0);
    }
  }

  /** And then its buffer fills up. */
  lemma {:induction false} FillBuffer(cfg: Config, n: nat) returns (p: Port)
    requires n <= cfg.bufferSize && cfg.maxLoans > 0
    ensures Rests(cfg, p, multiset{}, 0, n, cfg.maxBorrowed, 0)
  {
    if n == 0 {
      p := BorrowSent(cfg, cfg.maxBorrowed);
    } else {
      p := FillBuffer(cfg, n - 1);
      p := LoanAndSend(cfg, p, n - 1, cfg.maxBorrowed);
    }
  }

  /** Two samples are loaned and then sent without another reclaim. */
  lemma TwoSendsInARow(cfg: Config) returns (p: Port)
    requires cfg.maxLoans >= 2
    ensures Reached(cfg, p) && ReturnRefused(cfg, p.state, 0)
  {
    var c, d;
    p := FillBuffer(cfg, cfg.bufferSize);
    p, c := Loans(cfg, p, multiset{}, cfg.bufferSize, cfg.maxBorrowed);
    p, d := Loans(cfg, p, multiset{} + multiset{c}, cfg.bufferSize, cfg.maxBorrowed);
    var both := multiset{} + multiset{c} + multiset{d};
    p := SendDisturbed(cfg, p, both, c, cfg.bufferSize, cfg.maxBorrowed, 0);
    p := SendDisturbed(cfg, p, both - multiset{c}, d, cfg.bufferSize, cfg.maxBorrowed, 1);
    p := Overfull(cfg, p, cfg.bufferSize, 2);
  }

  // ---------------------------------------------------------------- a long history

  /** A sample is loaned, and then a subscriber connects. */
  lemma JoinsLate(cfg: Config, n: nat) returns (p: Port, c: nat)
    requires 0 < n <= cfg.historySize && cfg.maxLoans > 0
    ensures Rests(cfg, p, multiset{c}, n, 0, 0, 0)
  {
    var s := SampleLeaks.FillHistory(cfg, n);
    FromQuiet(cfg, s);
    p := Port(s, Idle);
    ReachedIsReachable(cfg, p);
    ReachableInv(cfg, s);
    FreeChunkExists(cfg, s);
    HistoryWithinSends(cfg, s);
    c :| c in s.free;
    LoanedChunkIsUnused(cfg, s, c);
    p := Then(cfg, p, Do(Loan(c, 0)));
    assert p.state.loans == multiset{c};
    p := Then(cfg, p, Do(Connect(0, 0)));
  }

  /** The subscriber receives every entry and keeps it. */
  lemma {:induction false} BorrowHistory(cfg: Config, h: nat, n: nat) returns (p: Port, c: nat)
    requires n <= cfg.maxBorrowed && n <= h && 0 < h <= cfg.historySize && cfg.maxLoans > 0
    ensures Rests(cfg, p, multiset{c}, h - n, 0, n, 0)
  {
    if n == 0 {
      p, c := JoinsLate(cfg, h);
    } else {
      p, c := BorrowHistory(cfg, h, n - 1);
      p := Delivers(cfg, p, multiset{c}, h - (n - 1), 0, n - 1, 0);
      p := Receives(cfg, p, 1, n - 1, 0);
    }
  }

  /** And then it returns a sample and receives the next one, `n` times. */
  lemma {:induction false} CycleHistory(cfg: Config, h: nat, n: nat) returns (p: Port, c: nat)
    requires n <= cfg.bufferSize && cfg.maxBorrowed + n <= h <= cfg.historySize && cfg.maxLoans > 0
    ensures Rests(cfg, p, multiset{c}, h - cfg.maxBorrowed - n, 0, cfg.maxBorrowed, n)
  {
    if n == 0 {
      p, c := BorrowHistory(cfg, h, cfg.maxBorrowed);
    } else {
      var todo := h - cfg.maxBorrowed - (n - 1);
      p, c := CycleHistory(cfg, h, n - 1);
      p := Delivers(cfg, p, multiset{c}, todo, 0, cfg.maxBorrowed, n - 1);
      p := Returns(cfg, p, 1, cfg.maxBorrowed, n - 1);
      p := Receives(cfg, p, 1, cfg.maxBorrowed - 1, n);
    }
  }

  /** A history that is longer than buffer and borrowed samples together arrives before the first reclaim, and
      then the loaned sample. */
  lemma LongHistory(cfg: Config) returns (p: Port)
    requires cfg.maxLoans > 0 && cfg.historySize > cfg.bufferSize + cfg.maxBorrowed
    ensures Reached(cfg, p) && ReturnRefused(cfg, p.state, 0)
  {
    var c;
    p, c := CycleHistory(cfg, cfg.bufferSize + cfg.maxBorrowed + 1, cfg.bufferSize);
    p := Delivers(cfg, p, multiset{c}, 1, 0, cfg.maxBorrowed, cfg.bufferSize);
    p := SendDisturbed(cfg, p, multiset{c}, c, 1, cfg.maxBorrowed, cfg.bufferSize);
    p := Overfull(cfg, p, 1, cfg.bufferSize + 1);
  }

  // ---------------------------------------------------------------- the condition

  /** Whatever a subscriber has borrowed it can give back at any time, in every run of the lifecycle. */
  ghost predicate AlwaysReturnable(cfg: Config) {
    forall s, i: nat :: Reachable(cfg, s) ==> !ReturnRefused(cfg, s, i)
  }

  /** The same in those runs in which `try_send` decides by its two reads. */
  ghost predicate ReturnableAsMeasured(cfg: Config) {
    forall p, i: nat :: Reached(cfg, p) ==> !ReturnRefused(cfg, p.state, i)
  }

  /** Without a loan nothing is ever borrowed. */
  lemma NothingToReturn(cfg: Config, s: State, i: nat)
    requires cfg.maxLoans == 0 && Reachable(cfg, s) && Connected(s, i)
    ensures s.connections[i].value.borrowed == []
  {
    var run :| Runs(cfg, Initial(cfg), run, s);
    InitialInv(cfg);
    SampleLeaks.NothingSent(cfg, Initial(cfg), run, s);
    OrderedDelivery(cfg, s, i);
  }

  lemma NeverRefused(cfg: Config, s: State, i: nat)
    requires (cfg.maxLoans == 0 || OneAtATime(cfg)) && Reachable(cfg, s)
    ensures !ReturnRefused(cfg, s, i)
  {
    if Connected(s, i) {
      if cfg.maxLoans == 0 {
        NothingToReturn(cfg, s, i);
      } else {
        ReturnIsPossible(cfg, s, i);
      }
    }
  }

  /** A subscriber can always give its samples back if and only if the publisher never sends, or it loans one
      sample at a time and the history fits into buffer and borrowed samples. */
  lemma PublisherReturnsPossible(cfg: Config)
    ensures ReturnableAsMeasured(cfg) <==> cfg.maxLoans == 0 || OneAtATime(cfg)
    ensures AlwaysReturnable(cfg) <==> cfg.maxLoans == 0 || OneAtATime(cfg)
  {
    if cfg.maxLoans == 0 || OneAtATime(cfg) {
      forall s, i: nat | Reachable(cfg, s) ensures !ReturnRefused(cfg, s, i) {
        NeverRefused(cfg, s, i);
      }
      forall p | Reached(cfg, p) ensures Reachable(cfg, p.state) {
        ReachedIsReachable(cfg, p);
      }
    } else {
      var p;
      if cfg.maxLoans >= 2 {
        p := TwoSendsInARow(cfg);
      } else {
        p := LongHistory(cfg);
      }
      ReachedIsReachable(cfg, p);
    }
  }
}
