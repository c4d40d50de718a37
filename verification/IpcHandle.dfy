/** The reference counter that guards an inter-process mutex or read-write mutex: creation, opening
    through the handle, and destruction by the last construct.

    Any number of agents, each with at most one construct, take atomic steps in any order. */
module IpcHandle {
  import opened Common

  const UNINITIALIZED := -1
  const PERFORMING_INITIALIZATION := 0
  const INITIALIZED := 1

  /** The mutex writes its value before the native initialisation and never clears it; the read-write
      mutex writes it afterwards and clears it on destruction. */
  datatype Kind = Mutex | ReadWriteMutex

  /** Result of the native calls that build the lock. */
  datatype Outcome = Success | AttributesFailed | Failed

  datatype Phase =
    | Idle
    | Creating(value: nat, capable: bool, native: bool, written: bool)
    | Opening(seen: int)
    | Checking
    | Rejected
    | Holding(viaHandle: bool)
    | Destroying
    | Clearing
    | Resetting

  /** What one successful creation was given. */
  datatype Life = Life(value: nat, capable: bool)

  /** `native` says that the native lock is initialised; `stuck`, that a failed creation left the
      counter as it was; `created` and `destroyed` record the lives of the handle. */
  datatype Handle = Handle(
    counter: int,
    native: bool,
    value: Option<nat>,
    capable: bool,
    agents: seq<Phase>,
    stuck: bool,
    created: seq<Life>,
    destroyed: nat)

  datatype Action =
    | Create(value: nat, capable: bool) | WriteValue | NativeInit(outcome: Outcome) | Publish
    | Load | Exchange(spurious: bool) | Check
    | Drop | NativeDestroy | ClearValue | Reset

  function Initial(agents: nat): Handle {
    Handle(UNINITIALIZED, false, None, false, seq(agents, _ => Idle), false, [], 0)
  }

  predicate Enabled(kind: Kind, s: Handle, i: nat, a: Action) {
    && i < |s.agents|
    && var p := s.agents[i];
    match a
    case Create(_, _) => p.Idle?
    case WriteValue => p.Creating? && !p.written && (kind.Mutex? || p.native)
    case NativeInit(_) => p.Creating? && !p.native && (kind.ReadWriteMutex? || p.written)
    case Publish => p.Creating? && p.native && p.written
    case Load => p.Idle?
    case Exchange(_) => p.Opening?
    case Check => p.Checking?
    case Drop => p.Holding? || p.Rejected?
    case NativeDestroy => p.Destroying?
    case ClearValue => p.Clearing?
    case Reset => p.Resetting?
  }

  function Set(s: Handle, i: nat, p: Phase): Handle
    requires i < |s.agents|
  {
    s.(agents := s.agents[i := p])
  }

  /** The open loop continues with the counter it has seen, unless that says "not initialised". */
  function Retry(counter: int): Phase {
    if counter <= PERFORMING_INITIALIZATION then Idle else Opening(counter)
  }

  function Step(kind: Kind, s: Handle, i: nat, a: Action): Handle
    requires Enabled(kind, s, i, a)
  {
    var p := s.agents[i];
    match a
    case Create(v, c) =>
      if s.counter == UNINITIALIZED then
        Set(s, i, Creating(v, c, false, false)).(counter := PERFORMING_INITIALIZATION)
      else s
    case WriteValue =>
      Set(s, i, p.(written := true)).(value := Some(p.value), capable := p.capable)
    case NativeInit(outcome) =>
      if outcome.Success? then Set(s, i, p.(native := true)).(native := true)
      else if kind.ReadWriteMutex? && outcome.Failed? then Set(s, i, Idle).(counter := UNINITIALIZED)
      else Set(s, i, Idle).(stuck := true)
    case Publish =>
      Set(s, i, Holding(false)).(counter := INITIALIZED, created := s.created + [Life(p.value, p.capable)])
    case Load => Set(s, i, Retry(s.counter))
    case Exchange(spurious) =>
      if s.counter == p.seen && !spurious then Set(s, i, Checking).(counter := s.counter + 1)
      else Set(s, i, Retry(s.counter))
    case Check => Set(s, i, if s.capable then Holding(true) else Rejected)
    case Drop => Set(s, i, if s.counter == 1 then Destroying else Idle).(counter := s.counter - 1)
    case NativeDestroy =>
      Set(s, i, if kind.ReadWriteMutex? then Clearing else Resetting).(native := false, destroyed := s.destroyed + 1)
    case ClearValue => Set(s, i, Resetting).(value := None)
    case Reset => Set(s, i, Idle).(counter := UNINITIALIZED)
  }

  // ---------------------------------------------------------------- counting

  /** A builder initialises or destroys the lock; a holder has a construct, including the one that
      `from_ipc_handle` builds before it finds out that the handle is not inter-process capable. */
  datatype Role = Outside | Builder | Holder

  function RoleOf(p: Phase): Role {
    match p
    case Idle => Outside
    case Opening(_) => Outside
    case Creating(_, _, _, _) => Builder
    case Destroying => Builder
    case Clearing => Builder
    case Resetting => Builder
    case Checking => Holder
    case Rejected => Holder
    case Holding(_) => Holder
  }

  function Num(agents: seq<Phase>, role: Role): nat {
    if |agents| == 0 then 0
    else (if RoleOf(agents[0]) == role then 1 else 0) + Num(agents[1..], role)
  }

  function One(p: Phase, role: Role): nat {
    if RoleOf(p) == role then 1 else 0
  }

  lemma {:induction false} NumUpdate(agents: seq<Phase>, i: nat, p: Phase, role: Role)
    requires i < |agents|
    ensures Num(agents[i := p], role) + One(agents[i], role) == Num(agents, role) + One(p, role)
  {
    if i == 0 {
      assert agents[0 := p][1..] == agents[1..];
    } else {
      assert agents[i := p][1..] == agents[1..][i - 1 := p];
      NumUpdate(agents[1..], i - 1, p, role);
    }
  }

  lemma {:induction false} NumPositive(agents: seq<Phase>, i: nat, role: Role)
    requires i < |agents| && RoleOf(agents[i]) == role
    ensures Num(agents, role) > 0
  {
    if i == 0 {
    } else {
      NumPositive(agents[1..], i - 1, role);
    }
  }

  lemma {:induction false} NumTwo(agents: seq<Phase>, i: nat, j: nat, role: Role)
    requires i < j < |agents| && RoleOf(agents[i]) == role && RoleOf(agents[j]) == role
    ensures Num(agents, role) > 1
  {
    if i == 0 {
      NumPositive(agents[1..], j - 1, role);
    } else {
      NumTwo(agents[1..], i - 1, j - 1, role);
    }
  }

  lemma {:induction false} NumZero(agents: seq<Phase>, role: Role)
    requires forall i :: 0 <= i < |agents| ==> RoleOf(agents[i]) != role
    ensures Num(agents, role) == 0
  {
    if |agents| == 0 {
    } else {
      NumZero(agents[1..], role);
    }
  }

  // ---------------------------------------------------------------- the invariant

  /** The counter says who is there. */
  ghost predicate Counts(s: Handle) {
    && s.counter >= -1
    && Num(s.agents, Holder) == (if s.counter > 0 then s.counter else 0)
    && Num(s.agents, Builder) == (if s.counter == 0 && !s.stuck then 1 else 0)
    && (s.stuck ==> s.counter == 0)
  }

  /** Between the native initialisation and its destruction lies exactly one life. */
  ghost predicate Lives(s: Handle) {
    && s.destroyed <= |s.created| <= s.destroyed + 1
    && (s.counter > 0 ==> s.native && |s.created| == s.destroyed + 1 && Alive(s, s.created[|s.created| - 1]))
    && (s.counter == -1 || s.stuck ==> !s.native && |s.created| == s.destroyed)
  }

  ghost predicate Alive(s: Handle, life: Life) {
    s.value == Some(life.value) && s.capable == life.capable
  }

  /** What the builder has done so far. */
  ghost predicate Progress(s: Handle, p: Phase) {
    match p
    case Creating(v, c, native, written) =>
      s.native == native && |s.created| == s.destroyed && (written ==> Alive(s, Life(v, c)))
    case Destroying => s.native && |s.created| == s.destroyed + 1
    case Clearing => !s.native && |s.created| == s.destroyed
    case Resetting => !s.native && |s.created| == s.destroyed
    case Holding(viaHandle) => viaHandle ==> s.capable
    case Opening(seen) => seen > 0
    case _ => true
  }

  /** What is left in the value while nobody uses it. */
  ghost predicate Leftover(kind: Kind, s: Handle) {
    s.value.None? <==> kind.ReadWriteMutex? || s.created == []
  }

  ghost predicate LeftoverAt(kind: Kind, s: Handle, p: Phase) {
    match p
    case Creating(_, _, native, written) =>
      (!written ==> Leftover(kind, s)) && (kind.ReadWriteMutex? && !native ==> !written)
    case Destroying => s.value.Some? && s.created != []
    case Clearing => kind.ReadWriteMutex?
    case Resetting => Leftover(kind, s)
    case _ => true
  }

  ghost predicate LeftoverInv(kind: Kind, s: Handle) {
    && (s.counter == -1 ==> Leftover(kind, s))
    && forall i :: 0 <= i < |s.agents| ==> LeftoverAt(kind, s, s.agents[i])
  }

  ghost predicate Inv(s: Handle) {
    && Counts(s) && Lives(s)
    && forall i :: 0 <= i < |s.agents| ==> Progress(s, s.agents[i])
  }

  /** One agent changes its phase. */
  lemma Recount(s: Handle, t: Handle, i: nat)
    requires i < |s.agents| == |t.agents| && t.agents == s.agents[i := t.agents[i]]
    ensures Num(t.agents, Holder) == Num(s.agents, Holder) + One(t.agents[i], Holder) - One(s.agents[i], Holder)
    ensures Num(t.agents, Builder) == Num(s.agents, Builder) + One(t.agents[i], Builder) - One(s.agents[i], Builder)
    ensures RoleOf(s.agents[i]) == Holder ==> Num(s.agents, Holder) > 0
    ensures RoleOf(s.agents[i]) == Builder ==> Num(s.agents, Builder) > 0
  {
    NumUpdate(s.agents, i, t.agents[i], Holder);
    NumUpdate(s.agents, i, t.agents[i], Builder);
    NumPositive(s.agents, i, RoleOf(s.agents[i]));
  }

  predicate OfCreation(a: Action) {
    a.Create? || a.WriteValue? || a.NativeInit? || a.Publish?
  }

  predicate OfOpening(a: Action) {
    a.Load? || a.Exchange? || a.Check?
  }

  lemma StepTouchesOne(kind: Kind, s: Handle, i: nat, a: Action)
    requires Enabled(kind, s, i, a)
    ensures |Step(kind, s, i, a).agents| == |s.agents|
    ensures Step(kind, s, i, a).agents == s.agents[i := Step(kind, s, i, a).agents[i]]
  {
    assert s.agents[i := s.agents[i]] == s.agents;
  }

  lemma CreationCounts(kind: Kind, s: Handle, i: nat, a: Action)
    requires Inv(s) && Enabled(kind, s, i, a) && OfCreation(a)
    ensures Counts(Step(kind, s, i, a))
  {
    StepTouchesOne(kind, s, i, a);
    Recount(s, Step(kind, s, i, a), i);
  }

  lemma OpeningCounts(kind: Kind, s: Handle, i: nat, a: Action)
    requires Inv(s) && Enabled(kind, s, i, a) && OfOpening(a)
    ensures Counts(Step(kind, s, i, a))
  {
    StepTouchesOne(kind, s, i, a);
    Recount(s, Step(kind, s, i, a), i);
    assert Progress(s, s.agents[i]);
  }

  lemma DroppingCounts(kind: Kind, s: Handle, i: nat, a: Action)
    requires Inv(s) && Enabled(kind, s, i, a) && !OfCreation(a) && !OfOpening(a)
    ensures Counts(Step(kind, s, i, a))
  {
    StepTouchesOne(kind, s, i, a);
    Recount(s, Step(kind, s, i, a), i);
  }

  lemma StepCounts(kind: Kind, s: Handle, i: nat, a: Action)
    requires Inv(s) && Enabled(kind, s, i, a)
    ensures Counts(Step(kind, s, i, a))
  {
    if OfCreation(a) {
      CreationCounts(kind, s, i, a);
    } else if OfOpening(a) {
      OpeningCounts(kind, s, i, a);
    } else {
      DroppingCounts(kind, s, i, a);
    }
  }

  /** Nobody else builds while an agent builds or holds, and nobody else holds while it builds. */
  lemma Excludes(s: Handle, i: nat, j: nat)
    requires Counts(s) && i < |s.agents| && j < |s.agents| && i != j
    ensures RoleOf(s.agents[i]) == Builder ==> RoleOf(s.agents[j]) == Outside && s.counter == 0 && !s.stuck
    ensures RoleOf(s.agents[i]) == Holder ==> RoleOf(s.agents[j]) != Builder && s.counter > 0
    ensures RoleOf(s.agents[j]) == Builder ==> s.counter == 0
    ensures RoleOf(s.agents[j]) == Holder ==> s.counter > 0
  {
    NumPositive(s.agents, i, RoleOf(s.agents[i]));
    NumPositive(s.agents, j, RoleOf(s.agents[j]));
    if RoleOf(s.agents[i]) == Builder && RoleOf(s.agents[j]) == Builder {
      NumTwo(s.agents, if i < j then i else j, if i < j then j else i, Builder);
    }
  }

  lemma OtherProgress(kind: Kind, s: Handle, i: nat, a: Action, j: nat)
    requires Inv(s) && Enabled(kind, s, i, a) && j < |s.agents| && i != j
    ensures Progress(Step(kind, s, i, a), s.agents[j])
  {
    Excludes(s, i, j);
    assert Progress(s, s.agents[j]) && Progress(s, s.agents[i]);
  }

  lemma OwnProgress(kind: Kind, s: Handle, i: nat, a: Action)
    requires Inv(s) && Enabled(kind, s, i, a)
    ensures Progress(Step(kind, s, i, a), Step(kind, s, i, a).agents[i])
  {
    NumPositive(s.agents, i, RoleOf(s.agents[i]));
    assert Progress(s, s.agents[i]);
  }

  /** Only the one builder, or a holder that joins or leaves, changes what others rely on. */
  lemma StepProgress(kind: Kind, s: Handle, i: nat, a: Action)
    requires Inv(s) && Enabled(kind, s, i, a)
    ensures |Step(kind, s, i, a).agents| == |s.agents|
    ensures forall j :: 0 <= j < |s.agents| ==> Progress(Step(kind, s, i, a), Step(kind, s, i, a).agents[j])
  {
    StepTouchesOne(kind, s, i, a);
    forall j | 0 <= j < |s.agents| ensures Progress(Step(kind, s, i, a), Step(kind, s, i, a).agents[j]) {
      if j == i {
        OwnProgress(kind, s, i, a);
      } else {
        OtherProgress(kind, s, i, a, j);
      }
    }
  }

  lemma StepLives(kind: Kind, s: Handle, i: nat, a: Action)
    requires Inv(s) && Enabled(kind, s, i, a)
    ensures Lives(Step(kind, s, i, a))
  {
    assert Progress(s, s.agents[i]);
    NumPositive(s.agents, i, RoleOf(s.agents[i]));
  }

  lemma StepInv(kind: Kind, s: Handle, i: nat, a: Action)
    requires Inv(s) && Enabled(kind, s, i, a)
    ensures Inv(Step(kind, s, i, a))
  {
    StepCounts(kind, s, i, a);
    StepLives(kind, s, i, a);
    StepProgress(kind, s, i, a);
  }

  /** The read-write mutex drops its value on destruction, the mutex keeps it. */
  lemma StepLeftover(kind: Kind, s: Handle, i: nat, a: Action)
    requires Inv(s) && LeftoverInv(kind, s) && Enabled(kind, s, i, a)
    ensures LeftoverInv(kind, Step(kind, s, i, a))
  {
    var t := Step(kind, s, i, a);
    StepTouchesOne(kind, s, i, a);
    assert Progress(s, s.agents[i]) && LeftoverAt(kind, s, s.agents[i]);
    NumPositive(s.agents, i, RoleOf(s.agents[i]));
    forall j | 0 <= j < |s.agents| ensures LeftoverAt(kind, t, t.agents[j]) {
      if j != i {
        OtherLeftover(kind, s, i, a, j);
      }
    }
  }

  lemma OtherLeftover(kind: Kind, s: Handle, i: nat, a: Action, j: nat)
    requires Inv(s) && LeftoverInv(kind, s) && Enabled(kind, s, i, a) && j < |s.agents| && i != j
    ensures LeftoverAt(kind, Step(kind, s, i, a), s.agents[j])
  {
    Excludes(s, i, j);
    assert LeftoverAt(kind, s, s.agents[j]);
  }

  // ---------------------------------------------------------------- runs

  datatype Move = Move(agent: nat, action: Action)

  ghost predicate Runs(kind: Kind, s: Handle, run: seq<Move>, t: Handle)
    decreases |run|
  {
    if |run| == 0 then s == t
    else Enabled(kind, s, run[0].agent, run[0].action) && Runs(kind, Step(kind, s, run[0].agent, run[0].action), run[1..], t)
  }

  ghost predicate Reachable(kind: Kind, t: Handle) {
    exists agents: nat, run :: Runs(kind, Initial(agents), run, t)
  }

  lemma {:induction false} RunInv(kind: Kind, s: Handle, run: seq<Move>, t: Handle)
    requires Inv(s) && Runs(kind, s, run, t)
    ensures Inv(t)
    decreases |run|
  {
    if |run| == 0 {
    } else {
      StepInv(kind, s, run[0].agent, run[0].action);
      RunInv(kind, Step(kind, s, run[0].agent, run[0].action), run[1..], t);
    }
  }

  lemma ReachableInv(kind: Kind, t: Handle)
    requires Reachable(kind, t)
    ensures Inv(t)
  {
    var agents: nat, run :| Runs(kind, Initial(agents), run, t);
    NumZero(Initial(agents).agents, Holder);
    NumZero(Initial(agents).agents, Builder);
    RunInv(kind, Initial(agents), run, t);
  }

  lemma {:induction false} RunLeftover(kind: Kind, s: Handle, run: seq<Move>, t: Handle)
    requires Inv(s) && LeftoverInv(kind, s) && Runs(kind, s, run, t)
    ensures LeftoverInv(kind, t)
    decreases |run|
  {
    if |run| == 0 {
    } else {
      StepInv(kind, s, run[0].agent, run[0].action);
      StepLeftover(kind, s, run[0].agent, run[0].action);
      RunLeftover(kind, Step(kind, s, run[0].agent, run[0].action), run[1..], t);
    }
  }

  // ---------------------------------------------------------------- theorems

  /** A positive counter is the number of constructs; otherwise there are none. */
  lemma CounterCountsConstructs(kind: Kind, s: Handle)
    requires Reachable(kind, s)
    ensures s.counter >= -1
    ensures Num(s.agents, Holder) == if s.counter > 0 then s.counter else 0
    ensures Num(s.agents, Builder) <= 1
  {
    ReachableInv(kind, s);
  }

  /** Whoever initialises or destroys is alone: no other builder, and nobody has a construct. */
  lemma BuilderIsAlone(kind: Kind, s: Handle, i: nat, j: nat)
    requires Reachable(kind, s) && i < |s.agents| && j < |s.agents| && i != j
    requires RoleOf(s.agents[i]) == Builder
    ensures RoleOf(s.agents[j]) == Outside && s.counter == 0
  {
    ReachableInv(kind, s);
    Excludes(s, i, j);
  }

  /** The native lock is never initialised twice and never destroyed twice, every creation is destroyed
      at most once, and before the next one begins. */
  lemma NativeCallsAlternate(kind: Kind, s: Handle, i: nat, a: Action)
    requires Reachable(kind, s) && Enabled(kind, s, i, a)
    ensures a.NativeInit? ==> !s.native && |s.created| == s.destroyed
    ensures a.NativeDestroy? ==> s.native && |s.created| == s.destroyed + 1
    ensures s.destroyed <= |s.created| <= s.destroyed + 1
  {
    ReachableInv(kind, s);
    assert Progress(s, s.agents[i]);
  }

  /** A construct finds an initialised lock, and the value and the inter-process flag of the creation that it
      belongs to. One obtained through the handle finds the flag set. */
  lemma ConstructFindsItsValue(kind: Kind, s: Handle, i: nat)
    requires Reachable(kind, s) && i < |s.agents| && RoleOf(s.agents[i]) == Holder
    ensures s.native && |s.created| > 0
    ensures s.value == Some(s.created[|s.created| - 1].value) && s.capable == s.created[|s.created| - 1].capable
    ensures s.agents[i] == Holding(true) ==> s.created[|s.created| - 1].capable
  {
    ReachableInv(kind, s);
    NumPositive(s.agents, i, Holder);
    assert Progress(s, s.agents[i]);
  }

  /** Dropping a construct destroys the lock exactly when it was the last one. */
  lemma LastDropDestroys(kind: Kind, s: Handle, i: nat)
    requires Reachable(kind, s) && Enabled(kind, s, i, Drop)
    ensures Step(kind, s, i, Drop).agents[i].Destroying?
            <==> forall j :: 0 <= j < |s.agents| && j != i ==> RoleOf(s.agents[j]) != Holder
  {
    ReachableInv(kind, s);
    var rest := s.agents[i := Idle];
    NumUpdate(s.agents, i, Idle, Holder);
    if j :| 0 <= j < |s.agents| && j != i && RoleOf(s.agents[j]) == Holder {
      NumPositive(rest, j, Holder);
    } else {
      NumZero(rest, Holder);
    }
  }

  // ---------------------------------------------------------------- undisturbed calls

  /** `from_ipc_handle` without anybody in between. */
  function Opened(kind: Kind, s: Handle, i: nat): Handle
    requires Enabled(kind, s, i, Load)
  {
    var loaded := Step(kind, s, i, Load);
    if loaded.agents[i].Idle? then loaded
    else Step(kind, Step(kind, loaded, i, Exchange(false)), i, Check)
  }

  /** It gives up exactly if the handle is not initialised. Otherwise the counter is one higher, and there is a
      construct exactly if the creation was inter-process capable; if not, dropping it restores the handle. */
  lemma OpensIffCapable(kind: Kind, s: Handle, i: nat)
    requires Reachable(kind, s) && Enabled(kind, s, i, Load)
    ensures Step(kind, s, i, Load).agents[i].Idle? <==> s.counter <= PERFORMING_INITIALIZATION
    ensures s.counter <= PERFORMING_INITIALIZATION ==> Opened(kind, s, i) == s
    ensures s.counter > PERFORMING_INITIALIZATION ==>
              && |s.created| > 0
              && Opened(kind, s, i) == s.(counter := s.counter + 1,
                                          agents := s.agents[i := if s.created[|s.created| - 1].capable then Holding(true)
                                                                  else Rejected])
              && (!s.created[|s.created| - 1].capable ==> Step(kind, Opened(kind, s, i), i, Drop) == s)
  {
    ReachableInv(kind, s);
    assert s.agents[i := Idle] == s.agents;
    if s.counter > 0 {
      var last := if s.capable then Holding(true) else Rejected;
      assert s.agents[i := Opening(s.counter)][i := Checking][i := last] == s.agents[i := last];
      assert s.agents[i := last][i := Idle] == s.agents;
    }
  }

  /** The creation of a lock without anybody in between. */
  function CreatedBy(kind: Kind, s: Handle, i: nat, v: nat, c: bool): Handle
    requires Enabled(kind, s, i, Create(v, c))
  {
    var t := Step(kind, s, i, Create(v, c));
    if t.agents[i].Idle? then t
    else
      var u := if kind.Mutex? then Step(kind, Step(kind, t, i, WriteValue), i, NativeInit(Success))
               else Step(kind, Step(kind, t, i, NativeInit(Success)), i, WriteValue);
      Step(kind, u, i, Publish)
  }

  /** It changes nothing if the handle is in use; otherwise the handle has the given value and flag, an
      initialised lock and one construct. */
  lemma CreatesIffUnused(kind: Kind, s: Handle, i: nat, v: nat, c: bool)
    requires Enabled(kind, s, i, Create(v, c))
    ensures CreatedBy(kind, s, i, v, c) ==
            if s.counter != UNINITIALIZED then s
            else s.(counter := INITIALIZED, native := true, value := Some(v), capable := c,
                    agents := s.agents[i := Holding(false)], created := s.created + [Life(v, c)])
  {
    if s.counter == UNINITIALIZED {
      assert CreatedBy(kind, s, i, v, c).agents == s.agents[i := Holding(false)];
    }
  }

  /** Dropping the last construct without anybody in between. */
  function Destroyed(kind: Kind, s: Handle, i: nat): Handle
    requires Enabled(kind, s, i, Drop) && s.counter == 1
  {
    var t := Step(kind, Step(kind, s, i, Drop), i, NativeDestroy);
    Step(kind, if kind.ReadWriteMutex? then Step(kind, t, i, ClearValue) else t, i, Reset)
  }

  /** Afterwards the handle can be created anew; only the mutex keeps its value. */
  lemma LastDropResets(kind: Kind, s: Handle, i: nat)
    requires Enabled(kind, s, i, Drop) && s.counter == 1
    ensures Destroyed(kind, s, i) ==
            s.(counter := UNINITIALIZED, native := false, value := if kind.ReadWriteMutex? then None else s.value,
               agents := s.agents[i := Idle], destroyed := s.destroyed + 1)
  {
    assert Destroyed(kind, s, i).agents == s.agents[i := Idle];
  }

  // ---------------------------------------------------------------- failed creations

  lemma First(kind: Kind, s: Handle, m: Move, run: seq<Move>, t: Handle)
    requires Enabled(kind, s, m.agent, m.action) && Runs(kind, Step(kind, s, m.agent, m.action), run, t)
    ensures Runs(kind, s, [m] + run, t)
  {
    assert ([m] + run)[1..] == run;
  }

  /** Somebody can still create a lock with the handle. */
  ghost predicate Creatable(kind: Kind, s: Handle) {
    exists run, t :: Runs(kind, s, run, t) && |t.created| > |s.created|
  }

  /** A free handle and an idle agent are enough for a creation. */
  lemma CreateRuns(kind: Kind, s: Handle, i: nat)
    requires i < |s.agents| && s.agents[i].Idle? && s.counter == UNINITIALIZED
    ensures Creatable(kind, s)
  {
    var write, build := Move(i, WriteValue), Move(i, NativeInit(Success));
    var second, third := if kind.Mutex? then write else build, if kind.Mutex? then build else write;
    var s1 := Step(kind, s, i, Create(0, true));
    var s2 := Step(kind, s1, i, second.action);
    var s3 := Step(kind, s2, i, third.action);
    var t := Step(kind, s3, i, Publish);
    First(kind, s3, Move(i, Publish), [], t);
    First(kind, s2, third, [Move(i, Publish)], t);
    First(kind, s1, second, [third] + [Move(i, Publish)], t);
    First(kind, s, Move(i, Create(0, true)), [second] + ([third] + [Move(i, Publish)]), t);
  }

  lemma {:induction false} StuckRun(kind: Kind, s: Handle, run: seq<Move>, t: Handle)
    requires Inv(s) && s.stuck && Runs(kind, s, run, t)
    ensures t.stuck && t.counter == 0 && t.created == s.created
    ensures forall i :: 0 <= i < |t.agents| ==> RoleOf(t.agents[i]) == Outside
    decreases |run|
  {
    forall i | 0 <= i < |s.agents| ensures RoleOf(s.agents[i]) == Outside {
      NumPositive(s.agents, i, RoleOf(s.agents[i]));
    }
    if |run| == 0 {
    } else {
      StepInv(kind, s, run[0].agent, run[0].action);
      StuckRun(kind, Step(kind, s, run[0].agent, run[0].action), run[1..], t);
    }
  }

  /** After a creation that failed, a lock can be created with the handle again if and only if it is a
      read-write mutex whose attributes were initialised. */
  lemma FailedCreation(kind: Kind, s: Handle, i: nat, outcome: Outcome)
    requires Reachable(kind, s) && Enabled(kind, s, i, NativeInit(outcome)) && !outcome.Success?
    ensures Creatable(kind, Step(kind, s, i, NativeInit(outcome))) <==> kind.ReadWriteMutex? && outcome.Failed?
  {
    var t := Step(kind, s, i, NativeInit(outcome));
    if kind.ReadWriteMutex? && outcome.Failed? {
      CreateRuns(kind, t, i);
    } else {
      ReachableInv(kind, s);
      StepInv(kind, s, i, NativeInit(outcome));
      forall run, u | Runs(kind, t, run, u) ensures |u.created| == |t.created| {
        StuckRun(kind, t, run, u);
      }
    }
  }

  /** Both kinds of lock can get stuck. */
  lemma StuckIsReachable(kind: Kind) returns (t: Handle)
    ensures Reachable(kind, t) && t.stuck
  {
    var fail := Move(0, NativeInit(AttributesFailed));
    var s := Initial(1);
    var s1 := Step(kind, s, 0, Create(0, true));
    if kind.Mutex? {
      var s2 := Step(kind, s1, 0, WriteValue);
      t := Step(kind, s2, 0, fail.action);
      First(kind, s2, fail, [], t);
      First(kind, s1, Move(0, WriteValue), [fail], t);
      First(kind, s, Move(0, Create(0, true)), [Move(0, WriteValue)] + [fail], t);
    } else {
      t := Step(kind, s1, 0, fail.action);
      First(kind, s1, fail, [], t);
      First(kind, s, Move(0, Create(0, true)), [fail], t);
    }
  }

  /** A stuck handle can neither be created nor opened by anyone, ever again. */
  lemma StuckForever(kind: Kind, s: Handle, run: seq<Move>, t: Handle)
    requires Reachable(kind, s) && s.stuck && Runs(kind, s, run, t)
    ensures t.stuck && t.counter == 0 && t.created == s.created
    ensures forall i :: 0 <= i < |t.agents| ==> RoleOf(t.agents[i]) == Outside
  {
    ReachableInv(kind, s);
    StuckRun(kind, s, run, t);
  }

  /** An uninitialised handle holds no value, except that a mutex keeps the last one until the next
      creation. */
  lemma ValueBetweenLives(kind: Kind, s: Handle)
    requires Reachable(kind, s) && s.counter == UNINITIALIZED
    ensures s.value.None? <==> kind.ReadWriteMutex? || s.created == []
  {
    var agents: nat, run :| Runs(kind, Initial(agents), run, s);
    NumZero(Initial(agents).agents, Holder);
    NumZero(Initial(agents).agents, Builder);
    RunLeftover(kind, Initial(agents), run, s);
  }
}
