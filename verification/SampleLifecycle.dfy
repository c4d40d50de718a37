/** The life of a sample: loaned by a publisher from a fixed pool, reference counted, kept in the
    history, handed to many subscribers, taken back through the return channels.

    The publisher runs in one thread. A subscriber may receive and return samples between any two
    steps of the publisher, so every publisher operation is cut into the steps at which shared
    state changes hands, and the theorems hold after each of them.
 */
module SampleLifecycle {
  import opened Common

  type pos = x: int | 0 < x witness 1

  /** The static configuration of a publish-subscribe service, and the publisher's own setting.
      Service creation lifts the first three to at least 1. */
  datatype Config = Config(
    maxSubscribers: pos,
    bufferSize: pos,
    maxBorrowed: pos,
    historySize: nat,
    maxLoans: nat,
    overflow: bool)

  /** The number of chunks in a publisher's data segment. */
  function NumberOfSamples(cfg: Config): nat {
    cfg.maxSubscribers * (cfg.bufferSize + cfg.maxBorrowed) + cfg.historySize + cfg.maxLoans + 1
  }

  function ReturnChannelSize(cfg: Config): nat {
    cfg.bufferSize + cfg.maxBorrowed + 1
  }

  /** What the queues carry: the chunk, and (for the statements only) which send put it there. */
  datatype Entry = Entry(chunk: nat, id: nat)

  /** One zero-copy connection of the subscriber `owner`. The last five fields record its past: the
      ids the subscriber has received, the range `first..next` of ids offered to it so far, and how
      many of those were refused or evicted. */
  datatype Connection = Connection(
    owner: nat,
    buffered: seq<Entry>,
    borrowed: seq<Entry>,
    returned: seq<Entry>,
    received: seq<nat>,
    first: nat,
    next: nat,
    refused: nat,
    evicted: nat)

  datatype Progress = Published | Counted | Stored

  /** The sample that `send` is delivering right now. */
  datatype InFlight = InFlight(entry: Entry, progress: Progress)

  /** `held` are references the publisher has in hand: taken out of a queue or a loan, not yet
      subtracted from the counter. `owed` are references already handed to a connection whose
      increment has not run yet. `orphaned` are references nobody will give back. */
  datatype State = State(
    counter: seq<int>,
    free: set<nat>,
    memory: seq<int>,
    loans: multiset<nat>,
    loanCounter: int,
    history: seq<Entry>,
    connections: seq<Option<Connection>>,
    sent: seq<int>,
    inFlight: Option<InFlight>,
    held: multiset<nat>,
    owed: multiset<nat>,
    orphaned: seq<Entry>)

  /** The steps. All but the last two belong to the publisher. */
  datatype Action =
    | Loan(chunk: nat, junk: int)
    | Write(chunk: nat, value: int)
    | DropLoan(chunk: nat)
    | Publish(chunk: nat)
    | CountHistory
    | StoreHistory
    | Offer(slot: nat, accepted: bool)
    | CountDelivery(chunk: nat)
    | FinishSend
    | Release(chunk: nat)
    | Reclaim(slot: nat)
    | Connect(slot: nat, owner: nat)
    | OfferHistory(slot: nat, accepted: bool)
    | Disconnect(slot: nat)
    | Receive(slot: nat)
    | Return(slot: nat, which: nat)

  /** The steps on one connection. */
  predicate OnSlot(a: Action) {
    a.Offer? || a.OfferHistory? || a.Receive? || a.Return? || a.Reclaim? || a.Connect? || a.Disconnect?
  }

  // ---------------------------------------------------------------- references

  function Count(s: seq<Entry>, c: nat): nat {
    if |s| == 0 then 0 else (if s[0].chunk == c then 1 else 0) + Count(s[1..], c)
  }

  function ConnectionRefs(x: Option<Connection>, c: nat): nat {
    match x
    case None => 0
    case Some(k) => Count(k.buffered, c) + Count(k.borrowed, c) + Count(k.returned, c)
  }

  function AllConnectionRefs(cs: seq<Option<Connection>>, c: nat): nat {
    if |cs| == 0 then 0 else ConnectionRefs(cs[0], c) + AllConnectionRefs(cs[1..], c)
  }

  /** Every place that can hold a reference to chunk `c`. */
  function Refs(s: State, c: nat): nat {
    s.loans[c] + Count(s.history, c) + AllConnectionRefs(s.connections, c) + s.held[c] + Count(s.orphaned, c)
  }

  function CounterAt(s: State, c: nat): int {
    if c < |s.counter| then s.counter[c] else 0
  }

  // ---------------------------------------------------------------- steps

  function Initial(cfg: Config): State {
    var n := NumberOfSamples(cfg);
    State(seq(n, _ => 0), Below(n), seq(n, _ => 0), multiset{}, 0, [],
          seq(cfg.maxSubscribers, _ => None), [], None, multiset{}, multiset{}, [])
  }

  predicate Connected(s: State, i: nat) {
    i < |s.connections| && s.connections[i].Some?
  }

  /** A fresh connection is about to be offered the whole history, then every later send. */
  function Fresh(sends: nat, recorded: nat, owner: nat): Connection {
    var first := if recorded <= sends then sends - recorded else 0;
    Connection(owner, [], [], [], [], first, first, 0, 0)
  }

  /** The position in the history of the entry a connection is to be offered next. */
  function HistoryIndex(s: State, k: Connection): int {
    k.next - (|s.sent| - |s.history|)
  }

  predicate Room(cfg: Config, k: Connection) {
    |k.buffered| < cfg.bufferSize || cfg.overflow
  }

  /** `try_send` can only refuse a sample while the return channel might become too short for what is on
      its way, or while the buffer is full and must not overflow. */
  predicate Refusable(cfg: Config, k: Connection) {
    |k.returned| + |k.buffered| > cfg.bufferSize || (|k.buffered| >= cfg.bufferSize && !cfg.overflow)
  }

  predicate CanAnswer(cfg: Config, k: Connection, accepted: bool) {
    if accepted then Room(cfg, k) else Refusable(cfg, k)
  }

  /** How many samples a connection holds. */
  function Size(x: Option<Connection>): nat {
    match x
    case None => 0
    case Some(k) => |k.buffered| + |k.borrowed| + |k.returned|
  }

  /** After a reclaim a connection holds no more than a full buffer and all borrows. */
  ghost predicate Drained(cfg: Config, s: State) {
    forall i :: 0 <= i < |s.connections| ==> Size(s.connections[i]) <= cfg.bufferSize + cfg.maxBorrowed
  }

  /** Every connection has been offered all sends. */
  ghost predicate CaughtUp(s: State) {
    forall i: nat :: Connected(s, i) ==> s.connections[i].value.next == |s.sent|
  }

  /** When a step can happen: what the called function checks, and the publisher's program order. */
  ghost predicate Enabled(cfg: Config, s: State, a: Action) {
    match a
    case Loan(c, _) =>
      && c in s.free && c < |s.counter| && c < |s.memory| && s.loanCounter < cfg.maxLoans
      && s.inFlight.None? && CaughtUp(s) && Drained(cfg, s)
    case Write(c, _) => s.loans[c] > 0 && c < |s.memory| && !IsInFlight(s, c)
    case DropLoan(c) => s.loans[c] > 0 && !IsInFlight(s, c)
    case Publish(c) =>
      s.loans[c] > 0 && s.inFlight.None? && c < |s.memory| && s.owed == multiset{} && CaughtUp(s)
    case CountHistory =>
      && cfg.historySize > 0 && s.inFlight.Some? && s.inFlight.value.progress == Published
      && s.inFlight.value.entry.chunk < |s.counter|
    case StoreHistory =>
      && cfg.historySize > 0 && s.inFlight.Some? && s.inFlight.value.progress == Counted
      && s.held[s.inFlight.value.entry.chunk] > 0
    case Offer(i, accepted) =>
      && Connected(s, i) && s.inFlight.Some?
      && s.inFlight.value.progress == (if cfg.historySize > 0 then Stored else Published)
      && s.connections[i].value.next == s.inFlight.value.entry.id
      && CanAnswer(cfg, s.connections[i].value, accepted)
    case CountDelivery(c) => s.owed[c] > 0 && c < |s.counter|
    case FinishSend =>
      && s.inFlight.Some? && s.owed == multiset{} && CaughtUp(s)
      && s.loans[s.inFlight.value.entry.chunk] > 0
      && s.inFlight.value.progress == (if cfg.historySize > 0 then Stored else Published)
    case Release(c) => s.held[c] > 0 && s.owed == multiset{} && c < |s.counter|
    case Reclaim(i) => Connected(s, i) && |s.connections[i].value.returned| > 0
    case Connect(i, _) => i < |s.connections| && s.connections[i].None? && s.inFlight.None?
    case OfferHistory(i, accepted) =>
      && Connected(s, i) && s.inFlight.None?
      && 0 <= HistoryIndex(s, s.connections[i].value) < |s.history|
      && CanAnswer(cfg, s.connections[i].value, accepted)
    case Disconnect(i) => Connected(s, i) && s.inFlight.None?
    case Receive(i) =>
      && Connected(s, i) && |s.connections[i].value.buffered| > 0
      && |s.connections[i].value.borrowed| < cfg.maxBorrowed
    case Return(i, w) =>
      && Connected(s, i) && w < |s.connections[i].value.borrowed|
      && |s.connections[i].value.returned| < ReturnChannelSize(cfg)
  }

  predicate IsInFlight(s: State, c: nat) {
    s.inFlight.Some? && s.inFlight.value.entry.chunk == c
  }

  /** `push` on the receive channel: when it is full, the oldest entry makes room. */
  function Push(cfg: Config, k: Connection, e: Entry): Connection {
    if |k.buffered| < cfg.bufferSize then
      k.(buffered := k.buffered + [e], next := e.id + 1)
    else
      k.(buffered := k.buffered[1..] + [e], next := e.id + 1, evicted := k.evicted + 1)
  }

  function Evicted(cfg: Config, k: Connection): seq<Entry> {
    if |k.buffered| < cfg.bufferSize then [] else [k.buffered[0]]
  }

  function Refuse(k: Connection, e: Entry): Connection {
    k.(next := e.id + 1, refused := k.refused + 1)
  }

  function Received(k: Connection): Connection
    requires |k.buffered| > 0
  {
    k.(buffered := k.buffered[1..], borrowed := k.borrowed + [k.buffered[0]],
       received := k.received + [k.buffered[0].id])
  }

  function Returned(k: Connection, w: nat): Connection
    requires w < |k.borrowed|
  {
    k.(borrowed := k.borrowed[..w] + k.borrowed[w + 1..], returned := k.returned + [k.borrowed[w]])
  }

  function Reclaimed(k: Connection): Connection
    requires |k.returned| > 0
  {
    k.(returned := k.returned[1..])
  }

  function Chunks(s: seq<Entry>): multiset<nat> {
    if |s| == 0 then multiset{} else multiset{s[0].chunk} + Chunks(s[1..])
  }

  function SetConnection(s: State, i: nat, k: Connection): State
    requires i < |s.connections|
  {
    s.(connections := s.connections[i := Some(k)])
  }

  /** `push_with_overflow` of the history queue. */
  function HistoryAfter(cfg: Config, h: seq<Entry>, e: Entry): seq<Entry>
    requires cfg.historySize > 0
  {
    if |h| < cfg.historySize then h + [e] else h[1..] + [e]
  }

  function HistoryEvicted(cfg: Config, h: seq<Entry>): multiset<nat>
    requires cfg.historySize > 0
  {
    if |h| < cfg.historySize then multiset{} else multiset{h[0].chunk}
  }

  ghost function Step(cfg: Config, s: State, a: Action): State
    requires Enabled(cfg, s, a)
  {
    match a
    case Loan(c, junk) =>
      s.(counter := s.counter[c := s.counter[c] + 1], free := s.free - {c}, memory := s.memory[c := junk],
         loans := s.loans + multiset{c}, loanCounter := s.loanCounter + 1)
    case Write(c, v) =>
      s.(memory := s.memory[c := v])
    case DropLoan(c) =>
      s.(loans := s.loans - multiset{c}, loanCounter := s.loanCounter - 1, held := s.held + multiset{c})
    case Publish(c) =>
      s.(sent := s.sent + [s.memory[c]], inFlight := Some(InFlight(Entry(c, |s.sent|), Published)))
    case CountHistory =>
      var c := s.inFlight.value.entry.chunk;
      s.(counter := s.counter[c := s.counter[c] + 1], held := s.held + multiset{c},
         inFlight := Some(s.inFlight.value.(progress := Counted)))
    case StoreHistory =>
      var e := s.inFlight.value.entry;
      s.(held := s.held - multiset{e.chunk} + HistoryEvicted(cfg, s.history),
         history := HistoryAfter(cfg, s.history, e),
         inFlight := Some(s.inFlight.value.(progress := Stored)))
    case Offer(i, accepted) =>
      var e := s.inFlight.value.entry;
      var k := s.connections[i].value;
      if accepted then
        SetConnection(s, i, Push(cfg, k, e)).(owed := s.owed + multiset{e.chunk},
                                              held := s.held + Chunks(Evicted(cfg, k)))
      else
        SetConnection(s, i, Refuse(k, e))
    case CountDelivery(c) =>
      s.(counter := s.counter[c := s.counter[c] + 1], owed := s.owed - multiset{c})
    case FinishSend =>
      var c := s.inFlight.value.entry.chunk;
      s.(loans := s.loans - multiset{c}, loanCounter := s.loanCounter - 1, held := s.held + multiset{c},
         inFlight := None)
    case Release(c) =>
      s.(counter := s.counter[c := s.counter[c] - 1], held := s.held - multiset{c},
         free := if s.counter[c] == 1 then s.free + {c} else s.free)
    case Reclaim(i) =>
      var k := s.connections[i].value;
      SetConnection(s, i, Reclaimed(k)).(held := s.held + multiset{k.returned[0].chunk})
    case Connect(i, owner) =>
      SetConnection(s, i, Fresh(|s.sent|, |s.history|, owner))
    case OfferHistory(i, accepted) =>
      var k := s.connections[i].value;
      var e := s.history[HistoryIndex(s, k)];
      if accepted then
        SetConnection(s, i, Push(cfg, k, e)).(owed := s.owed + multiset{e.chunk},
                                              orphaned := s.orphaned + Evicted(cfg, k))
      else
        SetConnection(s, i, Refuse(k, e))
    case Disconnect(i) =>
      var k := s.connections[i].value;
      s.(connections := s.connections[i := None],
         orphaned := s.orphaned + k.buffered + k.borrowed + k.returned)
    case Receive(i) =>
      SetConnection(s, i, Received(s.connections[i].value))
    case Return(i, w) =>
      SetConnection(s, i, Returned(s.connections[i].value, w))
  }
}
