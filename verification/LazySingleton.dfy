/** The lazily initialised singleton: any number of threads call `set_value` and `get` concurrently.
    Each step is one access to the shared flags or to the cell. */
module LazySingleton {
  import opened Common

  datatype Thread =
    | Idle
    | Writing(value: nat)
    | Finalizing(value: nat)
    | NotFinalized
    | Spinning
    | Reading

  /** `accepted` and `refused` are the values of the `set_value` calls that returned true and false,
      `answers` what the `get` calls returned, and `panics` the number of those that panicked. */
  datatype Singleton = Singleton(
    data: Option<nat>,
    isInitialized: bool,
    isFinalized: bool,
    threads: seq<Thread>,
    accepted: seq<nat>,
    refused: seq<nat>,
    answers: seq<nat>,
    panics: nat)

  datatype Action = Claim(value: nat) | Write | Finalize | Get | CheckInitialized | Spin | Read

  function Initial(threads: nat): Singleton {
    Singleton(None, false, false, seq(threads, _ => Idle), [], [], [], 0)
  }

  /** The cell is read through `unwrap`, so it must be filled. */
  predicate CanRead(s: Singleton) {
    s.data.Some?
  }

  predicate Enabled(s: Singleton, t: nat, a: Action) {
    && t < |s.threads|
    && var x := s.threads[t];
    match a
    case Claim(_) => x.Idle?
    case Write => x.Writing?
    case Finalize => x.Finalizing?
    case Get => x.Idle?
    case CheckInitialized => x.NotFinalized?
    case Spin => x.Spinning?
    case Read => x.Reading? && CanRead(s)
  }

  function Step(s: Singleton, t: nat, a: Action): Singleton
    requires Enabled(s, t, a)
  {
    var x := s.threads[t];
    match a
    case Claim(v) =>
      if s.isInitialized then s.(refused := s.refused + [v])
      else s.(isInitialized := true, threads := s.threads[t := Writing(v)])
    case Write => s.(data := Some(x.value), threads := s.threads[t := Finalizing(x.value)])
    case Finalize => s.(isFinalized := true, accepted := s.accepted + [x.value], threads := s.threads[t := Idle])
    case Get => s.(threads := s.threads[t := if s.isFinalized then Reading else NotFinalized])
    case CheckInitialized =>
      if s.isInitialized then s.(threads := s.threads[t := Spinning])
      else s.(panics := s.panics + 1, threads := s.threads[t := Idle])
    case Spin => if s.isFinalized then s.(threads := s.threads[t := Reading]) else s
    case Read => s.(answers := s.answers + [s.data.value], threads := s.threads[t := Idle])
  }

  predicate Setting(x: Thread) {
    x.Writing? || x.Finalizing?
  }

  /** A `set_value` has claimed the singleton and not finished. */
  ghost predicate InProgress(s: Singleton) {
    exists t :: 0 <= t < |s.threads| && Setting(s.threads[t])
  }

  /** At most one thread is between claiming and finalising, and only until the flag is set. */
  ghost predicate Inv(s: Singleton) {
    && (forall t, u :: 0 <= t < |s.threads| && 0 <= u < |s.threads| && Setting(s.threads[t]) && Setting(s.threads[u]) ==> t == u)
    && (forall t :: 0 <= t < |s.threads| && Setting(s.threads[t]) ==> s.isInitialized && !s.isFinalized)
    && (forall t :: 0 <= t < |s.threads| && s.threads[t].Finalizing? ==> s.data == Some(s.threads[t].value))
    && (forall t :: 0 <= t < |s.threads| && s.threads[t].Reading? ==> s.isFinalized)
    && (s.isFinalized ==> s.isInitialized && s.data.Some? && s.accepted == [s.data.value])
    && (!s.isFinalized ==> s.accepted == [] && s.answers == [])
    && (s.isInitialized && !s.isFinalized ==> InProgress(s))
    && (|s.refused| > 0 ==> s.isInitialized)
    && (forall k :: 0 <= k < |s.answers| ==> s.data == Some(s.answers[k]))
  }

  lemma StepInv(s: Singleton, t: nat, a: Action)
    requires Inv(s) && Enabled(s, t, a)
    ensures Inv(Step(s, t, a))
  {
    var u := Step(s, t, a);
    if u.isInitialized && !u.isFinalized {
      if w :| 0 <= w < |s.threads| && Setting(s.threads[w]) {
        assert Setting(u.threads[w]);
      } else {
        assert Setting(u.threads[t]);
      }
    }
  }

  datatype Move = Move(thread: nat, action: Action)

  ghost predicate Runs(s: Singleton, run: seq<Move>, u: Singleton)
    decreases |run|
  {
    if |run| == 0 then s == u
    else Enabled(s, run[0].thread, run[0].action) && Runs(Step(s, run[0].thread, run[0].action), run[1..], u)
  }

  ghost predicate Reachable(u: Singleton) {
    exists threads: nat, run :: Runs(Initial(threads), run, u)
  }

  lemma {:induction false} RunInv(s: Singleton, run: seq<Move>, u: Singleton)
    requires Inv(s) && Runs(s, run, u)
    ensures Inv(u)
    decreases |run|
  {
    if |run| == 0 {
    } else {
      StepInv(s, run[0].thread, run[0].action);
      RunInv(Step(s, run[0].thread, run[0].action), run[1..], u);
    }
  }

  lemma ReachableInv(u: Singleton)
    requires Reachable(u)
    ensures Inv(u)
  {
    var threads: nat, run :| Runs(Initial(threads), run, u);
    RunInv(Initial(threads), run, u);
  }

  /** At most one `set_value` returns true, every `get` that returns has returned its value, and one
      call was accepted before any `get` returned. */
  lemma OneValueForAll(u: Singleton)
    requires Reachable(u)
    ensures |u.accepted| <= 1
    ensures forall k :: 0 <= k < |u.answers| ==> u.accepted == [u.answers[k]]
  {
    ReachableInv(u);
  }

  /** A `get` that is about to read finds a value, and nobody writes the cell any more. */
  lemma ReadsAreSafe(u: Singleton, t: nat, w: nat)
    requires Reachable(u) && t < |u.threads| && u.threads[t].Reading? && w < |u.threads|
    ensures Enabled(u, t, Read) && !Enabled(u, w, Write)
  {
    ReachableInv(u);
  }

  lemma {:induction false} StaysAccepted(s: Singleton, run: seq<Move>, u: Singleton)
    requires Inv(s) && s.isFinalized && Runs(s, run, u)
    ensures u.accepted == s.accepted && u.isFinalized
    decreases |run|
  {
    if |run| == 0 {
    } else {
      StepInv(s, run[0].thread, run[0].action);
      StaysAccepted(Step(s, run[0].thread, run[0].action), run[1..], u);
    }
  }

  /** Once a `set_value` has returned true, its value stays, later calls are refused, and a `get` that
      begins reads it without spinning or panicking. */
  lemma AcceptedForever(s: Singleton, run: seq<Move>, u: Singleton, t: nat, v: nat)
    requires Reachable(s) && |s.accepted| > 0 && Runs(s, run, u) && t < |u.threads| && u.threads[t].Idle?
    ensures u.accepted == s.accepted
    ensures Step(u, t, Claim(v)).refused == u.refused + [v]
    ensures Enabled(Step(u, t, Get), t, Read)
    ensures Step(Step(u, t, Get), t, Read).answers == u.answers + [s.accepted[0]]
  {
    ReachableInv(s);
    StaysAccepted(s, run, u);
    RunInv(s, run, u);
  }

  /** No `set_value` has returned true, and none is about to. */
  ghost predicate Unclaimed(s: Singleton) {
    s.accepted == [] && !InProgress(s)
  }

  /** A call of `set_value` that nobody disturbs. */
  function SetValue(s: Singleton, t: nat, v: nat): Singleton
    requires Enabled(s, t, Claim(v))
  {
    var claimed := Step(s, t, Claim(v));
    if claimed.threads[t].Idle? then claimed else Step(Step(claimed, t, Write), t, Finalize)
  }

  /** It is accepted if and only if nobody has claimed the singleton, and changes nothing otherwise. */
  lemma AcceptedIffUnclaimed(u: Singleton, t: nat, v: nat)
    requires Reachable(u) && Enabled(u, t, Claim(v))
    ensures if Unclaimed(u)
            then SetValue(u, t, v) == u.(data := Some(v), isInitialized := true, isFinalized := true, accepted := [v])
            else SetValue(u, t, v) == u.(refused := u.refused + [v])
  {
    ReachableInv(u);
    assert SetValue(u, t, v).threads == u.threads;
  }

  /** A `get` panics if and only if it finds the singleton unclaimed. */
  lemma PanicsIffUnclaimed(u: Singleton, t: nat, a: Action)
    requires Reachable(u) && Enabled(u, t, a)
    ensures Step(u, t, a).panics == u.panics + if a.CheckInitialized? && Unclaimed(u) then 1 else 0
    ensures a.CheckInitialized? ==>
              Step(u, t, a) == if Unclaimed(u) then u.(panics := u.panics + 1, threads := u.threads[t := Idle])
                               else u.(threads := u.threads[t := Spinning])
  {
    ReachableInv(u);
  }

  /** A `get` that spins goes on if and only if a value has been accepted, and then returns it. */
  lemma SpinsUntilAccepted(u: Singleton, t: nat)
    requires Reachable(u) && Enabled(u, t, Spin)
    ensures if u.accepted == [] then Step(u, t, Spin) == u
            else && Enabled(Step(u, t, Spin), t, Read)
                 && Step(Step(u, t, Spin), t, Read) == u.(answers := u.answers + u.accepted, threads := u.threads[t := Idle])
  {
    ReachableInv(u);
    if u.accepted != [] {
      assert u.threads[t := Reading][t := Idle] == u.threads[t := Idle];
    }
  }
}
