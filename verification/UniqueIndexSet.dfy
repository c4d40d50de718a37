/** The lock-free set of unique indices: a stack of free indices threaded through an array, whose head
    is exchanged together with a 32-bit tag that every exchange increments.

    Any number of threads acquire and release indices; each step is one access to shared memory. */
module UniqueIndexSet {
  import opened Common

  /** The tag is the lower half of a 64-bit word. */
  const TAGS: nat := 0x1_0000_0000

  /** Where an index is: on the free stack, in the hands of the user, or with a thread that is
      acquiring or releasing it. */
  datatype Place = Free | Owned | With(thread: nat)

  /** A thread's copy of the head; `version` is the number of exchanges at the time of the copy, of
      which the code sees only the tag. */
  datatype Snapshot = Snapshot(head: nat, tag: nat, version: nat)

  datatype Thread =
    | Idle
    | Acquiring(seen: Snapshot)
    | GotNext(seen: Snapshot, next: nat)
    | Popped(index: nat)
    | Marked(index: nat)
    | Releasing(index: nat, seen: Snapshot)
    | Linked(index: nat, seen: Snapshot)

  /** `stack` and `place` describe the free list and the whereabouts of each index. */
  datatype IndexSet = IndexSet(
    next: seq<nat>,
    head: nat,
    version: nat,
    threads: seq<Thread>,
    stack: seq<nat>,
    place: seq<Place>)

  datatype Action =
    | AcquireLoad | AcquireNext | AcquireExchange | AcquireMark | AcquireDone
    | ReleaseLoad(index: nat) | ReleaseLink | ReleaseExchange

  function Initial(capacity: nat, threads: nat): IndexSet {
    IndexSet(seq(capacity + 1, i => i + 1), 0, 0, seq(threads, _ => Idle), seq(capacity, i => i), seq(capacity, _ => Free))
  }

  function Look(s: IndexSet): Snapshot {
    Snapshot(s.head, s.version % TAGS, s.version)
  }

  /** The test of `compare_exchange`: head and tag, but not the version, are compared. */
  predicate Unchanged(s: IndexSet, seen: Snapshot) {
    s.head == seen.head && s.version % TAGS == seen.tag
  }

  predicate Enabled(s: IndexSet, t: nat, a: Action) {
    && t < |s.threads|
    && match a
       case AcquireLoad => s.threads[t].Idle?
       case AcquireNext => s.threads[t].Acquiring? && s.threads[t].seen.head < |s.next|
       case AcquireExchange => s.threads[t].GotNext? && s.threads[t].seen.head < |s.place|
       case AcquireMark => s.threads[t].Popped? && s.threads[t].index < |s.next|
       case AcquireDone => s.threads[t].Marked? && s.threads[t].index < |s.place|
       case ReleaseLoad(i) => s.threads[t].Idle? && i < |s.place| && s.place[i] == Owned
       case ReleaseLink => s.threads[t].Releasing? && s.threads[t].index < |s.next|
       case ReleaseExchange => s.threads[t].Linked? && s.threads[t].index < |s.place|
  }

  function SetThread(s: IndexSet, t: nat, x: Thread): IndexSet
    requires t < |s.threads|
  {
    s.(threads := s.threads[t := x])
  }

  function Step(s: IndexSet, t: nat, a: Action): IndexSet
    requires Enabled(s, t, a)
  {
    var x := s.threads[t];
    match a
    case AcquireLoad => SetThread(s, t, Acquiring(Look(s)))
    case AcquireNext =>
      if x.seen.head >= |s.next| - 1 then SetThread(s, t, Idle)
      else SetThread(s, t, GotNext(x.seen, s.next[x.seen.head]))
    case AcquireExchange =>
      if Unchanged(s, x.seen) then
        SetThread(s, t, Popped(x.seen.head)).(
          head := x.next, version := s.version + 1,
          stack := if |s.stack| > 0 then s.stack[1..] else [],
          place := s.place[x.seen.head := With(t)])
      else SetThread(s, t, Acquiring(Look(s)))
    case AcquireMark =>
      SetThread(s, t, Marked(x.index)).(next := s.next[x.index := |s.next|])
    case AcquireDone =>
      SetThread(s, t, Idle).(place := s.place[x.index := Owned])
    case ReleaseLoad(i) =>
      SetThread(s, t, Releasing(i, Look(s))).(place := s.place[i := With(t)])
    case ReleaseLink =>
      SetThread(s, t, Linked(x.index, x.seen)).(next := s.next[x.index := x.seen.head])
    case ReleaseExchange =>
      if Unchanged(s, x.seen) then
        SetThread(s, t, Idle).(
          head := x.index, version := s.version + 1, stack := [x.index] + s.stack,
          place := s.place[x.index := Free])
      else SetThread(s, t, Releasing(x.index, Look(s)))
  }

  // ---------------------------------------------------------------- the invariant

  /** Following the links from `head` visits exactly the stack, and ends at `end`. */
  ghost predicate Chain(next: seq<nat>, head: nat, stack: seq<nat>, end: nat)
    decreases |stack|
  {
    if |stack| == 0 then head == end
    else head == stack[0] && head < |next| && Chain(next, next[head], stack[1..], end)
  }

  ghost predicate NoDuplicates(stack: seq<nat>) {
    forall j, k :: 0 <= j < k < |stack| ==> stack[j] != stack[k]
  }

  /** The list that starts at the head is the stack, and the stack is the set of free indices. */
  ghost predicate FreeList(capacity: nat, next: seq<nat>, head: nat, stack: seq<nat>, place: seq<Place>) {
    && |next| == capacity + 1 && |place| == capacity
    && Chain(next, head, stack, capacity)
    && NoDuplicates(stack)
    && (forall i: nat :: i in stack <==> i < capacity && place[i] == Free)
  }

  ghost predicate StackInv(capacity: nat, s: IndexSet) {
    FreeList(capacity, s.next, s.head, s.stack, s.place)
  }

  lemma PopFront(capacity: nat, next: seq<nat>, head: nat, stack: seq<nat>, place: seq<Place>, to: Place)
    requires FreeList(capacity, next, head, stack, place) && head < capacity && to != Free
    ensures |stack| > 0 && place[head] == Free
    ensures FreeList(capacity, next, next[head], stack[1..], place[head := to])
  {
    assert head in stack;
    assert head !in stack[1..];
    assert forall i :: i in stack <==> i == head || i in stack[1..];
  }

  lemma PushFront(capacity: nat, next: seq<nat>, head: nat, stack: seq<nat>, place: seq<Place>, i: nat)
    requires FreeList(capacity, next, head, stack, place) && i < capacity && place[i] != Free && next[i] == head
    ensures FreeList(capacity, next, i, [i] + stack, place[i := Free])
  {
    assert ([i] + stack)[1..] == stack;
    assert i !in stack;
  }

  lemma {:induction false} ChainTouch(next: seq<nat>, head: nat, stack: seq<nat>, end: nat, i: nat, n: nat)
    requires Chain(next, head, stack, end) && i !in stack && i < |next|
    ensures Chain(next[i := n], head, stack, end)
    decreases |stack|
  {
    if |stack| == 0 {
    } else {
      ChainTouch(next, next[head], stack[1..], end, i, n);
    }
  }

  /** Links and places of indices that are not free may change. */
  lemma TouchOther(capacity: nat, next: seq<nat>, head: nat, stack: seq<nat>, place: seq<Place>, i: nat, n: nat, to: Place)
    requires FreeList(capacity, next, head, stack, place) && i < capacity && place[i] != Free && to != Free
    ensures FreeList(capacity, next[i := n], head, stack, place)
    ensures FreeList(capacity, next, head, stack, place[i := to])
  {
    ChainTouch(next, head, stack, capacity, i, n);
  }

  /** The head is an index or the end. */
  lemma HeadInRange(capacity: nat, s: IndexSet)
    requires StackInv(capacity, s)
    ensures s.head <= capacity
  {
    assert |s.stack| > 0 ==> s.head in s.stack;
  }

  /** The thread has an index in its hands. */
  ghost predicate Working(x: Thread) {
    x.Popped? || x.Marked? || x.Releasing? || x.Linked?
  }

  ghost predicate Holds(x: Thread, i: nat) {
    Working(x) && x.index == i
  }

  ghost predicate InHand(s: IndexSet, u: nat)
    requires u < |s.threads|
  {
    Working(s.threads[u]) ==> s.threads[u].index < |s.place| && s.place[s.threads[u].index] == With(u)
  }

  ghost predicate InPlace(s: IndexSet, i: nat)
    requires i < |s.place|
  {
    s.place[i].With? ==> s.place[i].thread < |s.threads| && Holds(s.threads[s.place[i].thread], i)
  }

  /** An index is with a thread exactly when that thread works on it. */
  ghost predicate HandsInv(s: IndexSet) {
    && (forall t :: 0 <= t < |s.threads| && Working(s.threads[t]) ==>
          s.threads[t].index < |s.place| && s.place[s.threads[t].index] == With(t))
    && (forall i :: 0 <= i < |s.place| && s.place[i].With? ==>
          s.place[i].thread < |s.threads| && Holds(s.threads[s.place[i].thread], i))
  }

  ghost predicate HasSeen(x: Thread) {
    x.Acquiring? || x.GotNext? || x.Releasing? || x.Linked?
  }

  /** As long as no exchange has happened since, a copy of the head is up to date, and so is the
      successor that was read for it. */
  ghost predicate SeenInv(s: IndexSet) {
    forall t :: 0 <= t < |s.threads| && HasSeen(s.threads[t]) ==>
      var x := s.threads[t];
      && x.seen.version <= s.version && x.seen.tag == x.seen.version % TAGS
      && x.seen.head < |s.next|
      && (x.GotNext? ==> x.seen.head < |s.place|)
      && (x.Linked? ==> x.index < |s.next| && s.next[x.index] == x.seen.head)
      && (x.seen.version == s.version ==> x.seen.head == s.head && (x.GotNext? ==> x.next == s.next[s.head]))
  }

  ghost predicate Inv(capacity: nat, s: IndexSet) {
    StackInv(capacity, s) && HandsInv(s) && SeenInv(s)
  }

  /** Fewer than `bound` exchanges have happened since any thread made its copy of the head. */
  ghost predicate Timely(bound: nat, s: IndexSet) {
    forall t :: 0 <= t < |s.threads| && HasSeen(s.threads[t]) ==> s.version - s.threads[t].seen.version < bound
  }

  lemma SameTagSameVersion(s: IndexSet, t: nat)
    requires SeenInv(s) && Timely(TAGS, s) && t < |s.threads| && HasSeen(s.threads[t])
    requires Unchanged(s, s.threads[t].seen)
    ensures s.threads[t].seen.version == s.version
  {
    var v := s.threads[t].seen.version;
    if v < s.version {
      ModDiffers(v, s.version, TAGS);
    }
  }

  /** The head is taken off the stack. */
  lemma PopStack(capacity: nat, s: IndexSet, t: nat)
    requires Inv(capacity, s) && Timely(TAGS, s) && Enabled(s, t, AcquireExchange) && Unchanged(s, s.threads[t].seen)
    ensures StackInv(capacity, Step(s, t, AcquireExchange))
    ensures s.place[s.threads[t].seen.head] == Free
  {
    SameTagSameVersion(s, t);
    PopFront(capacity, s.next, s.head, s.stack, s.place, With(t));
  }

  /** The released index, which nobody else can touch, becomes the head. */
  lemma PushStack(capacity: nat, s: IndexSet, t: nat)
    requires Inv(capacity, s) && Timely(TAGS, s) && Enabled(s, t, ReleaseExchange) && Unchanged(s, s.threads[t].seen)
    ensures StackInv(capacity, Step(s, t, ReleaseExchange))
  {
    SameTagSameVersion(s, t);
    PushFront(capacity, s.next, s.head, s.stack, s.place, s.threads[t].index);
  }

  /** The other steps write only to indices that are not on the stack. */
  lemma KeepStack(capacity: nat, s: IndexSet, t: nat, a: Action)
    requires Inv(capacity, s) && Enabled(s, t, a)
    requires a.AcquireExchange? || a.ReleaseExchange? ==> !Unchanged(s, s.threads[t].seen)
    ensures StackInv(capacity, Step(s, t, a))
  {
    match a
    case AcquireMark => TouchOther(capacity, s.next, s.head, s.stack, s.place, s.threads[t].index, |s.next|, Owned);
    case ReleaseLink => TouchOther(capacity, s.next, s.head, s.stack, s.place, s.threads[t].index, s.threads[t].seen.head, Owned);
    case AcquireDone => TouchOther(capacity, s.next, s.head, s.stack, s.place, s.threads[t].index, 0, Owned);
    case ReleaseLoad(i) => TouchOther(capacity, s.next, s.head, s.stack, s.place, i, 0, With(t));
    case _ =>
  }

  lemma StepStack(capacity: nat, s: IndexSet, t: nat, a: Action)
    requires Inv(capacity, s) && Timely(TAGS, s) && Enabled(s, t, a)
    ensures StackInv(capacity, Step(s, t, a))
  {
    if a.AcquireExchange? && Unchanged(s, s.threads[t].seen) {
      PopStack(capacity, s, t);
    } else if a.ReleaseExchange? && Unchanged(s, s.threads[t].seen) {
      PushStack(capacity, s, t);
    } else {
      KeepStack(capacity, s, t, a);
    }
  }

  /** A step that takes an index out of the stack finds it free, so no other thread has it. */
  lemma TakesFree(capacity: nat, s: IndexSet, t: nat, a: Action)
    requires Inv(capacity, s) && Timely(TAGS, s) && Enabled(s, t, a)
    ensures a.AcquireExchange? && Unchanged(s, s.threads[t].seen) ==> s.place[s.threads[t].seen.head] == Free
  {
    if a.AcquireExchange? && Unchanged(s, s.threads[t].seen) {
      PopStack(capacity, s, t);
    }
  }

  lemma ThreadKeeps(capacity: nat, s: IndexSet, t: nat, a: Action, u: nat)
    requires Inv(capacity, s) && Timely(TAGS, s) && Enabled(s, t, a) && u < |s.threads|
    ensures InHand(Step(s, t, a), u)
  {
    TakesFree(capacity, s, t, a);
    assert InHand(s, u) && InHand(s, t);
  }

  lemma PlaceKeeps(capacity: nat, s: IndexSet, t: nat, a: Action, i: nat)
    requires Inv(capacity, s) && Enabled(s, t, a) && i < |s.place|
    ensures InPlace(Step(s, t, a), i)
  {
    assert InPlace(s, i) && InHand(s, t);
  }

  /** What one step does to the place of an index: only the acting thread's own index moves. */
  lemma StepHands(capacity: nat, s: IndexSet, t: nat, a: Action)
    requires Inv(capacity, s) && Timely(TAGS, s) && Enabled(s, t, a)
    ensures HandsInv(Step(s, t, a))
  {
    StepSizes(s, t, a);
    forall u | 0 <= u < |s.threads| ensures InHand(Step(s, t, a), u) {
      ThreadKeeps(capacity, s, t, a, u);
    }
    forall i | 0 <= i < |s.place| ensures InPlace(Step(s, t, a), i) {
      PlaceKeeps(capacity, s, t, a, i);
    }
    HandsFrom(Step(s, t, a));
  }

  lemma StepSizes(s: IndexSet, t: nat, a: Action)
    requires Enabled(s, t, a)
    ensures |Step(s, t, a).threads| == |s.threads| && |Step(s, t, a).place| == |s.place|
  {
  }

  lemma HandsFrom(s: IndexSet)
    requires forall u :: 0 <= u < |s.threads| ==> InHand(s, u)
    requires forall i :: 0 <= i < |s.place| ==> InPlace(s, i)
    ensures HandsInv(s)
  {
    forall t | 0 <= t < |s.threads| && Working(s.threads[t])
      ensures s.threads[t].index < |s.place| && s.place[s.threads[t].index] == With(t)
    {
      assert InHand(s, t);
    }
    forall i | 0 <= i < |s.place| && s.place[i].With?
      ensures s.place[i].thread < |s.threads| && Holds(s.threads[s.place[i].thread], i)
    {
      assert InPlace(s, i);
    }
  }

  lemma StepSeen(capacity: nat, s: IndexSet, t: nat, a: Action)
    requires Inv(capacity, s) && Timely(TAGS, s) && Enabled(s, t, a)
    ensures SeenInv(Step(s, t, a))
  {
    HeadInRange(capacity, s);
    StepStack(capacity, s, t, a);
    HeadInRange(capacity, Step(s, t, a));
    if a.AcquireExchange? && Unchanged(s, s.threads[t].seen) {
      SameTagSameVersion(s, t);
    }
  }

  lemma StepInv(capacity: nat, s: IndexSet, t: nat, a: Action)
    requires Inv(capacity, s) && Timely(TAGS, s) && Enabled(s, t, a)
    ensures Inv(capacity, Step(s, t, a))
  {
    StepStack(capacity, s, t, a);
    StepHands(capacity, s, t, a);
    StepSeen(capacity, s, t, a);
  }

  // ---------------------------------------------------------------- runs

  /** An action of a thread. */
  datatype Move = Move(thread: nat, action: Action)

  /** A run during which every copy of the head is younger than `bound`. */
  ghost predicate Runs(bound: nat, s: IndexSet, run: seq<Move>, u: IndexSet)
    decreases |run|
  {
    Timely(bound, s) &&
    if |run| == 0 then s == u
    else Enabled(s, run[0].thread, run[0].action) && Runs(bound, Step(s, run[0].thread, run[0].action), run[1..], u)
  }

  ghost predicate Reachable(bound: nat, capacity: nat, threads: nat, u: IndexSet) {
    exists run :: Runs(bound, Initial(capacity, threads), run, u)
  }

  lemma {:induction false} RunsAppend(bound: nat, s: IndexSet, run: seq<Move>, u: IndexSet, m: Move)
    requires Runs(bound, s, run, u) && Enabled(u, m.thread, m.action) && Timely(bound, Step(u, m.thread, m.action))
    ensures Runs(bound, s, run + [m], Step(u, m.thread, m.action))
    decreases |run|
  {
    if |run| == 0 {
      assert run + [m] == [m] && [m][1..] == [];
    } else {
      assert (run + [m])[1..] == run[1..] + [m];
      RunsAppend(bound, Step(s, run[0].thread, run[0].action), run[1..], u, m);
    }
  }

  lemma {:induction false} InitialChain(capacity: nat, i: nat)
    requires i <= capacity
    ensures Chain(Initial(capacity, 0).next, i, Initial(capacity, 0).stack[i..], capacity)
    decreases capacity - i
  {
    if i == capacity {
    } else {
      InitialChain(capacity, i + 1);
      assert Initial(capacity, 0).stack[i..][1..] == Initial(capacity, 0).stack[i + 1..];
    }
  }

  lemma InitialInv(capacity: nat, threads: nat)
    ensures Inv(capacity, Initial(capacity, threads))
  {
    var s := Initial(capacity, threads);
    InitialChain(capacity, 0);
    assert s.next == Initial(capacity, 0).next && s.stack == Initial(capacity, 0).stack[0..];
    forall i: nat ensures i in s.stack <==> i < capacity && s.place[i] == Free {
      if i < capacity {
        assert s.stack[i] == i;
      }
    }
  }

  lemma {:induction false} RunInv(capacity: nat, s: IndexSet, run: seq<Move>, u: IndexSet)
    requires Inv(capacity, s) && Runs(TAGS, s, run, u)
    ensures Inv(capacity, u) && Timely(TAGS, u)
    decreases |run|
  {
    if |run| == 0 {
    } else {
      StepInv(capacity, s, run[0].thread, run[0].action);
      RunInv(capacity, Step(s, run[0].thread, run[0].action), run[1..], u);
    }
  }

  lemma TimelyInv(capacity: nat, threads: nat, u: IndexSet)
    requires Reachable(TAGS, capacity, threads, u)
    ensures Inv(capacity, u) && Timely(TAGS, u)
  {
    var run :| Runs(TAGS, Initial(capacity, threads), run, u);
    InitialInv(capacity, threads);
    RunInv(capacity, Initial(capacity, threads), run, u);
  }

  // ---------------------------------------------------------------- theorems

  /** A successful exchange takes an index that is in range and in nobody's hands. */
  lemma AcquiredIndexIsFree(capacity: nat, threads: nat, s: IndexSet, t: nat)
    requires Reachable(TAGS, capacity, threads, s) && Enabled(s, t, AcquireExchange) && Unchanged(s, s.threads[t].seen)
    ensures s.threads[t].seen.head < capacity == |s.place|
    ensures s.place[s.threads[t].seen.head] == Free
    ensures forall u :: 0 <= u < |s.threads| ==> !Holds(s.threads[u], s.threads[t].seen.head)
  {
    TimelyInv(capacity, threads, s);
    PopStack(capacity, s, t);
  }

  /** Two threads never work on the same index, and neither does its owner. */
  lemma IndicesAreExclusive(capacity: nat, threads: nat, s: IndexSet, t: nat, u: nat)
    requires Reachable(TAGS, capacity, threads, s) && t < |s.threads| && u < |s.threads|
    requires Working(s.threads[t])
    ensures s.threads[t].index < |s.place| && s.place[s.threads[t].index] == With(t)
    ensures t != u && Working(s.threads[u]) ==> s.threads[t].index != s.threads[u].index
  {
    TimelyInv(capacity, threads, s);
  }

  /** No index is lost: what is neither owned nor with a thread can be acquired, and `acquire` finds
      the set empty exactly when every index is in somebody's hands. */
  lemma EmptyMeansAllTaken(capacity: nat, threads: nat, s: IndexSet)
    requires Reachable(TAGS, capacity, threads, s)
    ensures |s.place| == capacity
    ensures s.head >= capacity <==> forall i :: 0 <= i < capacity ==> s.place[i] != Free
    ensures forall i: nat :: i in s.stack <==> i < capacity && s.place[i] == Free
  {
    TimelyInv(capacity, threads, s);
    if |s.stack| > 0 {
      assert s.stack[0] in s.stack;
    }
  }

  // ---------------------------------------------------------------- which index is handed out

  lemma Extend(bound: nat, s: IndexSet, run: seq<Move>, u: IndexSet, t: nat, a: Action)
    returns (longer: seq<Move>, v: IndexSet)
    requires Runs(bound, s, run, u) && Enabled(u, t, a) && Timely(bound, Step(u, t, a))
    ensures v == Step(u, t, a) && longer == run + [Move(t, a)] && Runs(bound, s, longer, v)
  {
    v := Step(u, t, a);
    longer := run + [Move(t, a)];
    RunsAppend(bound, s, run, u, Move(t, a));
  }

  /** Thread `t` puts index `i` on the stack, without being disturbed. */
  lemma ReleaseUndisturbed(bound: nat, s: IndexSet, t: nat, i: nat) returns (run: seq<Move>, v: IndexSet)
    requires Timely(bound, s) && Enabled(s, t, ReleaseLoad(i)) && i < |s.next|
    ensures run == [Move(t, ReleaseLoad(i)), Move(t, ReleaseLink), Move(t, ReleaseExchange)]
    ensures Runs(bound + 1, s, run, v)
    ensures v == s.(head := i, version := s.version + 1, next := s.next[i := s.head], stack := [i] + s.stack,
                    place := s.place[i := Free])
  {
    run, v := Extend(bound + 1, s, [], s, t, ReleaseLoad(i));
    run, v := Extend(bound + 1, s, run, v, t, ReleaseLink);
    run, v := Extend(bound + 1, s, run, v, t, ReleaseExchange);
    assert v.threads == s.threads && v.place == s.place[i := Free];
  }

  /** Thread `t` takes the head off the stack, without being disturbed. */
  lemma AcquireUndisturbed(bound: nat, s: IndexSet, t: nat) returns (run: seq<Move>, v: IndexSet)
    requires Timely(bound, s) && Enabled(s, t, AcquireLoad) && s.head < |s.place| == |s.next| - 1
    ensures run == [Move(t, AcquireLoad), Move(t, AcquireNext), Move(t, AcquireExchange)]
    ensures Runs(bound + 1, s, run, v)
    ensures v == SetThread(s, t, Popped(s.head)).(
                   head := s.next[s.head], version := s.version + 1, place := s.place[s.head := With(t)],
                   stack := if |s.stack| > 0 then s.stack[1..] else [])
  {
    run, v := Extend(bound + 1, s, [], s, t, AcquireLoad);
    run, v := Extend(bound + 1, s, run, v, t, AcquireNext);
    run, v := Extend(bound + 1, s, run, v, t, AcquireExchange);
    assert v.threads == s.threads[t := Popped(s.head)];
  }

  /** An acquire that nobody disturbs gets the index on top of the stack, and none exactly if no index is
      free. */
  lemma AcquiresIffFree(capacity: nat, threads: nat, s: IndexSet, t: nat) returns (run: seq<Move>, v: IndexSet)
    requires Reachable(TAGS, capacity, threads, s) && Enabled(s, t, AcquireLoad)
    ensures Runs(TAGS + 1, s, run, v)
    ensures if forall i :: 0 <= i < |s.place| ==> s.place[i] != Free
            then run == [Move(t, AcquireLoad), Move(t, AcquireNext)] && v == s
            else && run == [Move(t, AcquireLoad), Move(t, AcquireNext), Move(t, AcquireExchange)]
                 && |s.stack| > 0 && s.stack[0] < |s.place| && s.place[s.stack[0]] == Free
                 && v.threads == s.threads[t := Popped(s.stack[0])] && v.stack == s.stack[1..]
  {
    TimelyInv(capacity, threads, s);
    EmptyMeansAllTaken(capacity, threads, s);
    if s.head >= capacity {
      HeadInRange(capacity, s);
      run, v := Extend(TAGS + 1, s, [], s, t, AcquireLoad);
      run, v := Extend(TAGS + 1, s, run, v, t, AcquireNext);
      assert v.threads == s.threads;
    } else {
      run, v := AcquireUndisturbed(TAGS, s, t);
    }
  }

  /** The set is a stack: whichever thread comes next gets the index that was released last. */
  lemma ReleasedIndexComesNext(capacity: nat, threads: nat, s: IndexSet, t: nat, i: nat, u: nat)
    returns (release: seq<Move>, mid: IndexSet, acquire: seq<Move>, v: IndexSet)
    requires Reachable(TAGS, capacity, threads, s) && Enabled(s, t, ReleaseLoad(i)) && Enabled(s, u, AcquireLoad)
    ensures release == [Move(t, ReleaseLoad(i)), Move(t, ReleaseLink), Move(t, ReleaseExchange)]
    ensures acquire == [Move(u, AcquireLoad), Move(u, AcquireNext), Move(u, AcquireExchange)]
    ensures Runs(TAGS + 1, s, release, mid) && Runs(TAGS + 2, mid, acquire, v)
    ensures mid.place == s.place[i := Free] && v.threads == s.threads[u := Popped(i)]
    ensures v.stack == s.stack && v.head == s.head
  {
    TimelyInv(capacity, threads, s);
    release, mid := ReleaseUndisturbed(TAGS, s, t, i);
    acquire, v := AcquireUndisturbed(TAGS + 1, mid, u);
    assert ([i] + s.stack)[1..] == s.stack;
  }

  // ---------------------------------------------------------------- when the tag wraps around

  /** Reachable with two threads and three indices, when a copy of the head may be as old as the tag
      is long. */
  ghost predicate Reached(u: IndexSet) {
    Reachable(TAGS + 1, 3, 2, u)
  }

  lemma Then(s: IndexSet, t: nat, a: Action) returns (u: IndexSet)
    requires Reached(s) && Enabled(s, t, a) && Timely(TAGS + 1, Step(s, t, a))
    ensures Reached(u) && u == Step(s, t, a)
  {
    var run :| Runs(TAGS + 1, Initial(3, 2), run, s);
    RunsAppend(TAGS + 1, Initial(3, 2), run, s, Move(t, a));
    u := Step(s, t, a);
  }

  /** The copy of thread 0 may live until `version`. */
  ghost predicate Waiting(x: Thread, version: nat) {
    x.GotNext? && version - x.seen.version <= TAGS
  }

  /** Thread 1 acquires the head, without being disturbed. */
  lemma AcquireAll(s: IndexSet) returns (u: IndexSet)
    requires Reached(s) && |s.threads| == 2 && s.threads[1].Idle? && |s.next| == |s.place| + 1
    requires Waiting(s.threads[0], s.version + 1)
    requires s.head < |s.place|
    ensures Reached(u) && u == s.(head := s.next[s.head], version := s.version + 1, next := s.next[s.head := |s.next|],
                                  stack := if |s.stack| > 0 then s.stack[1..] else [], place := s.place[s.head := Owned])
  {
    u := Then(s, 1, AcquireLoad);
    u := Then(u, 1, AcquireNext);
    u := Then(u, 1, AcquireExchange);
    u := Then(u, 1, AcquireMark);
    u := Then(u, 1, AcquireDone);
    assert u.threads == s.threads;
    assert u.place == s.place[s.head := Owned];
  }

  /** Thread 1 releases an index, without being disturbed. */
  lemma ReleaseAll(s: IndexSet, i: nat) returns (u: IndexSet)
    requires Reached(s) && |s.threads| == 2 && s.threads[1].Idle? && |s.next| == |s.place| + 1
    requires Waiting(s.threads[0], s.version + 1)
    requires i < |s.place| && s.place[i] == Owned
    ensures Reached(u) && u == s.(head := i, version := s.version + 1, next := s.next[i := s.head],
                                  stack := [i] + s.stack, place := s.place[i := Free])
  {
    u := Then(s, 1, ReleaseLoad(i));
    u := Then(u, 1, ReleaseLink);
    u := Then(u, 1, ReleaseExchange);
    assert u.threads == s.threads;
    assert u.place == s.place[i := Free];
  }

  /** Thread 0 has read the successor of index 0 long ago; since then thread 1 has taken the indices 1
      and 2, and index 0 is back on the stack. */
  function Spinning(version: nat): IndexSet {
    IndexSet([3, 4, 4, 4], 0, version, [GotNext(Snapshot(0, 0, 0), 1), Idle], [0], [Free, Owned, Owned])
  }

  function Early(next: seq<nat>, head: nat, version: nat, stack: seq<nat>, place: seq<Place>): IndexSet {
    IndexSet(next, head, version, [GotNext(Snapshot(0, 0, 0), 1), Idle], stack, place)
  }

  lemma StartThread0()
    ensures Reached(Early([1, 2, 3, 4], 0, 0, [0, 1, 2], [Free, Free, Free]))
  {
    var s := Initial(3, 2);
    assert Runs(TAGS + 1, s, [], s);
    assert s == IndexSet([1, 2, 3, 4], 0, 0, [Idle, Idle], [0, 1, 2], [Free, Free, Free]);
    s := Then(s, 0, AcquireLoad);
    s := Then(s, 0, AcquireNext);
    assert s == Early([1, 2, 3, 4], 0, 0, [0, 1, 2], [Free, Free, Free]);
  }

  lemma TakeAll()
    ensures Reached(Early([4, 4, 4, 4], 3, 3, [], [Owned, Owned, Owned]))
  {
    StartThread0();
    var s := AcquireAll(Early([1, 2, 3, 4], 0, 0, [0, 1, 2], [Free, Free, Free]));
    assert s == Early([4, 2, 3, 4], 1, 1, [1, 2], [Owned, Free, Free]);
    s := AcquireAll(Early([4, 2, 3, 4], 1, 1, [1, 2], [Owned, Free, Free]));
    assert s == Early([4, 4, 3, 4], 2, 2, [2], [Owned, Owned, Free]);
    s := AcquireAll(Early([4, 4, 3, 4], 2, 2, [2], [Owned, Owned, Free]));
    assert s == Early([4, 4, 4, 4], 3, 3, [], [Owned, Owned, Owned]);
  }

  lemma StartSpinning()
    ensures Reached(Spinning(4))
  {
    TakeAll();
    var s := ReleaseAll(Early([4, 4, 4, 4], 3, 3, [], [Owned, Owned, Owned]), 0);
    assert s == Spinning(4);
  }

  /** Thread 1 acquires and releases index 0, `n` times. */
  lemma {:induction false} Spin(n: nat)
    requires 4 + 2 * n <= TAGS
    ensures Reached(Spinning(4 + 2 * n))
  {
    if n == 0 {
      StartSpinning();
    } else {
      Spin(n - 1);
      var s := AcquireAll(Spinning(4 + 2 * (n - 1)));
      s := ReleaseAll(s, 0);
      assert s == Spinning(4 + 2 * n);
    }
  }

  /** Once the tag has gone around, the old copy passes for the current head, its outdated successor
      becomes the head, and the next acquire takes index 1, which already has an owner. */
  lemma TagWrapHandsOutTwice() returns (s: IndexSet)
    ensures Reached(s) && Enabled(s, 1, AcquireExchange) && Unchanged(s, s.threads[1].seen)
    ensures s.threads[1].seen.head == 1 && s.place[1] == Owned
  {
    Spin((TAGS - 4) / 2);
    s := Then(Spinning(TAGS), 0, AcquireExchange);
    assert s.head == 1 && s.place == [With(0), Owned, Owned];
    s := Then(s, 1, AcquireLoad);
    s := Then(s, 1, AcquireNext);
  }

  lemma {:induction false} RunsLonger(bound: nat, more: nat, s: IndexSet, run: seq<Move>, u: IndexSet)
    requires bound <= more && Runs(bound, s, run, u)
    ensures Runs(more, s, run, u)
    decreases |run|
  {
    if |run| == 0 {
    } else {
      RunsLonger(bound, more, Step(s, run[0].thread, run[0].action), run[1..], u);
    }
  }

  lemma ReachableLonger(bound: nat, more: nat, capacity: nat, threads: nat, u: IndexSet)
    requires bound <= more && Reachable(bound, capacity, threads, u)
    ensures Reachable(more, capacity, threads, u)
  {
    var run :| Runs(bound, Initial(capacity, threads), run, u);
    RunsLonger(bound, more, Initial(capacity, threads), run, u);
  }

  /** In every run with copies younger than `bound`, a successful exchange takes a free index. */
  ghost predicate NeverTwice(bound: nat) {
    forall capacity: nat, threads: nat, s, t: nat ::
      Reachable(bound, capacity, threads, s) && Enabled(s, t, AcquireExchange) && Unchanged(s, s.threads[t].seen)
      ==> s.place[s.threads[t].seen.head] == Free
  }

  /** The set hands out no index twice if and only if no thread sleeps, between its copy of the head and
      its exchange, while the others make as many exchanges as there are tags. */
  lemma ExclusiveIffTagLasts(bound: nat)
    ensures NeverTwice(bound) <==> bound <= TAGS
  {
    if bound <= TAGS {
      forall capacity: nat, threads: nat, s, t: nat
        | Reachable(bound, capacity, threads, s) && Enabled(s, t, AcquireExchange) && Unchanged(s, s.threads[t].seen)
        ensures s.place[s.threads[t].seen.head] == Free
      {
        ReachableLonger(bound, TAGS, capacity, threads, s);
        AcquiredIndexIsFree(capacity, threads, s, t);
      }
    } else {
      var s := TagWrapHandsOutTwice();
      ReachableLonger(TAGS + 1, bound, 3, 2, s);
    }
  }
}
