/** The generator of process-wide unique ids: threads race on the nanosecond fraction of the last id,
    and pack process id, seconds and nanoseconds into one 128-bit number.

    The clock is monotone and counts nanoseconds. */
module UniqueSystemId {
  import opened Common
  import opened Bits

  const SECOND: nat := 1_000_000_000

  /** `previous` is the fraction a thread has loaded and `since` the time of the id it belongs to;
      `now` is the time it has read. */
  datatype Thread =
    | Idle
    | Loaded(previous: nat, since: nat)
    | Timed(previous: nat, since: nat, now: nat)

  /** `last` is the shared fraction, `latest` the time of the id that stored it, and `ids` the times of
      all ids in the order of their exchanges. */
  datatype Generator = Generator(clock: nat, last: nat, latest: nat, threads: seq<Thread>, ids: seq<int>)

  datatype Action = Tick(elapsed: nat) | Load(thread: nat) | Read(thread: nat) | Exchange(thread: nat)

  /** The fraction is 0 at first, as if an id had been made at the last full second. */
  function Initial(clock: nat, threads: nat): Generator {
    Generator(clock, 0, clock - clock % SECOND, seq(threads, _ => Idle), [])
  }

  predicate Enabled(s: Generator, a: Action) {
    match a
    case Tick(_) => true
    case Load(t) => t < |s.threads| && s.threads[t].Idle?
    case Read(t) => t < |s.threads| && s.threads[t].Loaded?
    case Exchange(t) => t < |s.threads| && s.threads[t].Timed?
  }

  predicate Succeeds(s: Generator, a: Action) {
    Enabled(s, a) && a.Exchange? && s.last == s.threads[a.thread].previous
  }

  function Step(s: Generator, a: Action): Generator
    requires Enabled(s, a)
  {
    match a
    case Tick(d) => s.(clock := s.clock + d)
    case Load(t) => s.(threads := s.threads[t := Loaded(s.last, s.latest)])
    case Read(t) =>
      var x := s.threads[t];
      if s.clock % SECOND == x.previous then s
      else s.(threads := s.threads[t := Timed(x.previous, x.since, s.clock)])
    case Exchange(t) =>
      var x := s.threads[t];
      if s.last == x.previous then
        s.(last := x.now % SECOND, latest := x.now, threads := s.threads[t := Idle], ids := s.ids + [x.now])
      else s.(threads := s.threads[t := Loaded(s.last, s.latest)])
  }

  // ---------------------------------------------------------------- runs

  /** Which schedules are considered: all of them; those in which the stored fraction does not come back
      between a load and the exchange that relies on it; those in which a successful exchange comes less
      than `bound` nanoseconds after the id whose fraction it loaded. */
  datatype Rule = Anything | NoRecurrence | Within(bound: nat)

  predicate Admits(rule: Rule, s: Generator, a: Action) {
    Succeeds(s, a) ==>
      match rule
      case Anything => true
      case NoRecurrence => s.threads[a.thread].since == s.latest
      case Within(bound) => s.clock - s.threads[a.thread].since < bound
  }

  ghost predicate Runs(rule: Rule, s: Generator, run: seq<Action>, u: Generator)
    decreases |run|
  {
    if |run| == 0 then s == u
    else Enabled(s, run[0]) && Admits(rule, s, run[0]) && Runs(rule, Step(s, run[0]), run[1..], u)
  }

  ghost predicate Reachable(rule: Rule, threads: nat, u: Generator) {
    exists clock: nat, run :: Runs(rule, Initial(clock, threads), run, u)
  }

  // ---------------------------------------------------------------- the invariant

  ghost predicate ThreadInv(s: Generator, x: Thread) {
    match x
    case Idle => true
    case Loaded(previous, since) => previous == since % SECOND && since <= s.latest
    case Timed(previous, since, now) =>
      previous == since % SECOND && since <= s.latest && since <= now <= s.clock && now % SECOND != previous
  }

  ghost predicate Inv(s: Generator) {
    && s.last == s.latest % SECOND && s.latest <= s.clock
    && Increasing(s.ids)
    && (|s.ids| > 0 ==> s.ids[|s.ids| - 1] == s.latest)
    && (forall t :: 0 <= t < |s.threads| ==> ThreadInv(s, s.threads[t]))
    && (|s.threads| <= 1 ==> forall t :: 0 <= t < |s.threads| && !s.threads[t].Idle? ==> s.threads[t].since == s.latest)
  }

  lemma InitialInv(clock: nat, threads: nat)
    ensures Inv(Initial(clock, threads))
  {
    assert clock == SECOND * (clock / SECOND) + clock % SECOND;
    assert (SECOND * (clock / SECOND)) % SECOND == 0;
  }

  /** The fraction alone tells which id was loaded when less than a second has passed. */
  lemma SameFraction(a: nat, b: nat)
    requires a <= b < a + SECOND && a % SECOND == b % SECOND
    ensures a == b
  {
    if a < b {
      ModDiffers(a, b, SECOND);
    }
  }

  lemma WithinASecondNoRecurrence(s: Generator, a: Action)
    requires Inv(s) && Succeeds(s, a) && Admits(Within(SECOND), s, a)
    ensures Admits(NoRecurrence, s, a)
  {
    assert ThreadInv(s, s.threads[a.thread]);
    SameFraction(s.threads[a.thread].since, s.latest);
  }

  /** An exchange that was not overtaken makes a later id than all before. */
  lemma StepInv(s: Generator, a: Action)
    requires Inv(s) && Enabled(s, a) && Admits(NoRecurrence, s, a)
    ensures Inv(Step(s, a))
  {
    if !a.Tick? {
      assert ThreadInv(s, s.threads[a.thread]);
    }
    var u := Step(s, a);
    if Succeeds(s, a) {
      assert s.threads[a.thread].now > s.latest;
    }
    forall t | 0 <= t < |u.threads| ensures ThreadInv(u, u.threads[t]) {
      assert ThreadInv(s, s.threads[t]);
    }
  }

  /** The schedules that are safe: no recurrence, less than a second, or a single thread. */
  ghost predicate Safe(rule: Rule, threads: nat) {
    rule.NoRecurrence? || threads <= 1 || (rule.Within? && rule.bound <= SECOND)
  }

  lemma {:induction false} RunInv(rule: Rule, s: Generator, run: seq<Action>, u: Generator)
    requires Inv(s) && Safe(rule, |s.threads|) && Runs(rule, s, run, u)
    ensures Inv(u)
    decreases |run|
  {
    if |run| == 0 {
    } else {
      if Succeeds(s, run[0]) && !rule.NoRecurrence? && |s.threads| > 1 {
        WithinASecondNoRecurrence(s, run[0]);
      }
      StepInv(s, run[0]);
      RunInv(rule, Step(s, run[0]), run[1..], u);
    }
  }

  /** Ids of one process are strictly increasing in time, whatever the threads do, under a safe
      schedule. */
  lemma StrictlyIncreasing(rule: Rule, threads: nat, u: Generator)
    requires Safe(rule, threads) && Reachable(rule, threads, u)
    ensures Increasing(u.ids)
  {
    var clock: nat, run :| Runs(rule, Initial(clock, threads), run, u);
    InitialInv(clock, threads);
    RunInv(rule, Initial(clock, threads), run, u);
  }

  // ---------------------------------------------------------------- a duplicate

  lemma {:induction false} RunsAppend(rule: Rule, s: Generator, run: seq<Action>, u: Generator, a: Action)
    requires Runs(rule, s, run, u) && Enabled(u, a) && Admits(rule, u, a)
    ensures Runs(rule, s, run + [a], Step(u, a))
    decreases |run|
  {
    if |run| == 0 {
      assert run + [a] == [a] && [a][1..] == [];
    } else {
      assert (run + [a])[1..] == run[1..] + [a];
      RunsAppend(rule, Step(s, run[0]), run[1..], u, a);
    }
  }

  lemma Then(rule: Rule, threads: nat, s: Generator, a: Action) returns (u: Generator)
    requires Reachable(rule, threads, s) && Enabled(s, a) && Admits(rule, s, a)
    ensures Reachable(rule, threads, u) && u == Step(s, a)
  {
    var clock: nat, run :| Runs(rule, Initial(clock, threads), run, s);
    RunsAppend(rule, Initial(clock, threads), run, s, a);
    u := Step(s, a);
  }

  /** Thread `t` makes an id from the current time, without being disturbed. */
  lemma MakeId(rule: Rule, threads: nat, s: Generator, t: nat) returns (u: Generator)
    requires Reachable(rule, threads, s) && t < |s.threads| && s.threads[t].Idle? && s.clock % SECOND != s.last
    requires rule.Within? ==> s.clock - s.latest < rule.bound
    ensures Reachable(rule, threads, u)
    ensures u == s.(last := s.clock % SECOND, latest := s.clock, ids := s.ids + [s.clock])
  {
    u := Then(rule, threads, s, Load(t));
    u := Then(rule, threads, u, Read(t));
    u := Then(rule, threads, u, Exchange(t));
    assert u.threads == s.threads;
  }

  /** Thread 0 loads the fraction at the start of a second and reads the time 5 nanoseconds later;
      thread 1 makes an id from that time and another one at the start of the next second, which
      restores the fraction. */
  lemma Duplicate(rule: Rule, threads: nat) returns (u: Generator)
    requires threads >= 2 && !Safe(rule, threads)
    ensures Reachable(rule, threads, u) && u.ids == [5, SECOND, 5]
  {
    u := Initial(0, threads);
    assert Runs(rule, u, [], u);
    u := Then(rule, threads, u, Load(0));
    u := Then(rule, threads, u, Tick(5));
    u := Then(rule, threads, u, Read(0));
    u := MakeId(rule, threads, u, 1);
    u := Then(rule, threads, u, Tick(SECOND - 5));
    u := MakeId(rule, threads, u, 1);
    u := Then(rule, threads, u, Exchange(0));
  }

  /** In every run under the rule, ids are strictly increasing. */
  ghost predicate AlwaysIncreasing(rule: Rule, threads: nat) {
    forall u :: Reachable(rule, threads, u) ==> Increasing(u.ids)
  }

  /** In every run under the rule, no id is made twice. */
  ghost predicate AlwaysUnique(rule: Rule, threads: nat) {
    forall u, j, k :: Reachable(rule, threads, u) && 0 <= j < k < |u.ids| ==> u.ids[j] != u.ids[k]
  }

  /** Ids are unique, and then even increasing, exactly in the safe schedules. */
  lemma UniqueIffSafe(rule: Rule, threads: nat)
    ensures AlwaysUnique(rule, threads) <==> Safe(rule, threads)
    ensures AlwaysIncreasing(rule, threads) <==> Safe(rule, threads)
  {
    if Safe(rule, threads) {
      forall u | Reachable(rule, threads, u) ensures Increasing(u.ids) {
        StrictlyIncreasing(rule, threads, u);
      }
    } else {
      var u := Duplicate(rule, threads);
      assert u.ids[0] == u.ids[2] && u.ids[1] == SECOND;
    }
  }

  // ---------------------------------------------------------------- packing

  /** The fields of the 128-bit id: 32 bits process id, 64 bits seconds, 32 bits nanoseconds. */
  ghost predicate Fits(pid: nat, seconds: nat, nanoseconds: nat) {
    pid < Pow2(32) && seconds < Pow2(64) && nanoseconds < Pow2(32)
  }

  function Pack(pid: nat, seconds: nat, nanoseconds: nat): nat {
    Or(Or(ShiftLeft(pid, 96, 128), ShiftLeft(seconds, 32, 128)), nanoseconds)
  }

  function Pid(value: nat): nat {
    ShiftRight(value, 96) % Pow2(32)
  }

  function Seconds(value: nat): nat {
    ShiftRight(ShiftLeft(value, 32, 128), 64) % Pow2(64)
  }

  function Nanoseconds(value: nat): nat {
    ShiftRight(ShiftLeft(value, 96, 128), 96) % Pow2(32)
  }

  lemma OrSum(a: nat, b: nat, k: nat, p: nat)
    requires Pow2(k) == p && b < p
    ensures Or(a * p, b) == a * p + b
  {
    OrDisjoint(a, b, k);
  }

  lemma ShiftFits(v: nat, k: nat, width: nat, p: nat)
    requires Pow2(k) == p && v * p < Pow2(width)
    ensures ShiftLeft(v, k, width) == v * p
  {
    Divide(0, v * p, Pow2(width));
  }

  lemma PackIsSum(pid: nat, seconds: nat, nanoseconds: nat)
    requires Fits(pid, seconds, nanoseconds)
    ensures Pack(pid, seconds, nanoseconds) == pid * TWO_96 + seconds * TWO_32 + nanoseconds
  {
    WordSizes();
    ShiftFits(pid, 96, 128, TWO_96);
    ShiftFits(seconds, 32, 128, TWO_32);
    OrSum(pid, seconds * TWO_32, 96, TWO_96);
    OrSum(pid * TWO_64 + seconds, nanoseconds, 32, TWO_32);
  }

  /** `pid` and `creation_time` recover what was packed. */
  lemma PackRoundTrip(pid: nat, seconds: nat, nanoseconds: nat)
    requires Fits(pid, seconds, nanoseconds)
    ensures Pid(Pack(pid, seconds, nanoseconds)) == pid
    ensures Seconds(Pack(pid, seconds, nanoseconds)) == seconds
    ensures Nanoseconds(Pack(pid, seconds, nanoseconds)) == nanoseconds
  {
    WordSizes();
    PackIsSum(pid, seconds, nanoseconds);
    UnpackPid(pid, seconds, nanoseconds);
    UnpackSeconds(pid, seconds, nanoseconds);
    UnpackNanoseconds(pid, seconds, nanoseconds);
  }

  lemma UnpackPid(pid: nat, seconds: nat, nanoseconds: nat)
    requires pid < TWO_32 && seconds < TWO_64 && nanoseconds < TWO_32
    ensures (pid * TWO_96 + seconds * TWO_32 + nanoseconds) / TWO_96 % TWO_32 == pid
  {
    Divide(pid, seconds * TWO_32 + nanoseconds, TWO_96);
    Divide(0, pid, TWO_32);
  }

  lemma UnpackSeconds(pid: nat, seconds: nat, nanoseconds: nat)
    requires pid < TWO_32 && seconds < TWO_64 && nanoseconds < TWO_32
    ensures (pid * TWO_96 + seconds * TWO_32 + nanoseconds) * TWO_32 % TWO_128 / TWO_64 % TWO_64 == seconds
  {
    Divide(pid, seconds * TWO_64 + nanoseconds * TWO_32, TWO_128);
    Divide(seconds, nanoseconds * TWO_32, TWO_64);
    Divide(0, seconds, TWO_64);
  }

  lemma UnpackNanoseconds(pid: nat, seconds: nat, nanoseconds: nat)
    requires pid < TWO_32 && seconds < TWO_64 && nanoseconds < TWO_32
    ensures (pid * TWO_96 + seconds * TWO_32 + nanoseconds) * TWO_96 % TWO_128 / TWO_96 % TWO_32 == nanoseconds
  {
    Divide(pid * TWO_64 + seconds, nanoseconds * TWO_96, TWO_128);
    Divide(nanoseconds, 0, TWO_96);
    Divide(0, nanoseconds, TWO_32);
  }

  /** The number made from a time of the clock. */
  function Value(pid: nat, time: nat): nat {
    Pack(pid, time / SECOND, time % SECOND)
  }

  /** Later ids of a process are larger numbers. */
  lemma LaterIsLarger(pid: nat, a: nat, b: nat)
    requires pid < Pow2(32) && a < b && b / SECOND < Pow2(64)
    ensures Value(pid, a) < Value(pid, b)
  {
    WordSizes();
    PackIsSum(pid, a / SECOND, a % SECOND);
    PackIsSum(pid, b / SECOND, b % SECOND);
    assert a / SECOND < b / SECOND || (a / SECOND == b / SECOND && a % SECOND < b % SECOND);
  }

  /** Ids of different processes differ. */
  lemma ProcessesDiffer(p: nat, q: nat, a: nat, b: nat)
    requires p < Pow2(32) && q < Pow2(32) && p != q && a / SECOND < Pow2(64) && b / SECOND < Pow2(64)
    ensures Value(p, a) != Value(q, b)
  {
    WordSizes();
    PackRoundTrip(p, a / SECOND, a % SECOND);
    PackRoundTrip(q, b / SECOND, b % SECOND);
  }
}
