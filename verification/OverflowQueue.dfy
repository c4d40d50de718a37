/** The lock-free single-producer single-consumer queue that overflows safely: a push into a full
    queue takes back the oldest element, while the consumer may be about to pop it.

    Each step below is one access to shared memory. Positions count up for ever; position `p` lives
    in slot `p % (capacity + 1)`. */
module OverflowQueue {
  import opened Common

  datatype Producer =
    | Resting
    | Loaded(value: int, write: nat, read: nat)
    | Written(value: int, write: nat, read: nat)
    | Stored(read: nat)
    | Won(read: nat)

  datatype Consumer =
    | Waiting
    | GotRead(read: nat)
    | Trying(read: nat)
    | GotValue(read: nat, value: int)

  /** What became of a position that was removed: the consumer popped this value, or the producer
      evicted it (and reads the value in its next step). */
  datatype Removal = Popped(value: int) | Evicting | Evicted(value: int)

  /** `pushed` and `removed` record the past: the value stored at each position, and what happened to
      each position below `read`. */
  datatype Queue = Queue(
    slots: seq<int>,
    write: nat,
    read: nat,
    producer: Producer,
    consumer: Consumer,
    pushed: seq<int>,
    removed: seq<Removal>)

  datatype Action =
    | PushLoad(value: int) | PushWrite | PushStore | PushExchange | PushTake
    | PopLoad | PopCheck | PopRead | PopExchange

  function Initial(capacity: nat): Queue {
    Queue(seq(capacity + 1, _ => 0), 0, 0, Resting, Waiting, [], [])
  }

  predicate Enabled(q: Queue, a: Action) {
    match a
    case PushLoad(_) => q.producer.Resting?
    case PushWrite => q.producer.Loaded?
    case PushStore => q.producer.Written?
    case PushExchange => q.producer.Stored?
    case PushTake => q.producer.Won? && q.producer.read < |q.removed|
    case PopLoad => q.consumer.Waiting?
    case PopCheck => q.consumer.GotRead?
    case PopRead => q.consumer.Trying?
    case PopExchange => q.consumer.GotValue?
  }

  function Slot(capacity: nat, position: nat): nat {
    position % (capacity + 1)
  }

  function Step(capacity: nat, q: Queue, a: Action): Queue
    requires |q.slots| == capacity + 1 && Enabled(q, a)
  {
    match a
    case PushLoad(v) => q.(producer := Loaded(v, q.write, q.read))
    case PushWrite =>
      var Loaded(v, w, r) := q.producer;
      q.(slots := q.slots[Slot(capacity, w) := v], producer := Written(v, w, r))
    case PushStore =>
      var Written(v, w, r) := q.producer;
      q.(write := w + 1, pushed := q.pushed + [v], producer := if w == r + capacity then Stored(r) else Resting)
    case PushExchange =>
      var r := q.producer.read;
      if q.read == r then q.(read := r + 1, removed := q.removed + [Evicting], producer := Won(r))
      else q.(producer := Resting)
    case PushTake =>
      var r := q.producer.read;
      q.(removed := q.removed[r := Evicted(q.slots[Slot(capacity, r)])], producer := Resting)
    case PopLoad => q.(consumer := GotRead(q.read))
    case PopCheck =>
      q.(consumer := if q.consumer.read == q.write then Waiting else Trying(q.consumer.read))
    case PopRead =>
      var r := q.consumer.read;
      q.(consumer := GotValue(r, q.slots[Slot(capacity, r)]))
    case PopExchange =>
      var GotValue(r, v) := q.consumer;
      if q.read == r then q.(read := r + 1, removed := q.removed + [Popped(v)], consumer := Waiting)
      else q.(consumer := Trying(q.read))
  }

  ghost predicate Runs(capacity: nat, q: Queue, run: seq<Action>, t: Queue)
    decreases |run|
  {
    && |q.slots| == capacity + 1
    && if |run| == 0 then q == t
       else Enabled(q, run[0]) && Runs(capacity, Step(capacity, q, run[0]), run[1..], t)
  }

  ghost predicate Reachable(capacity: nat, q: Queue) {
    exists run :: Runs(capacity, Initial(capacity), run, q)
  }

  // ---------------------------------------------------------------- the invariant

  /** Two positions share a slot only if they are at least `capacity + 1` apart. */
  lemma DifferentSlots(capacity: nat, a: nat, b: nat)
    requires a < b < a + capacity + 1
    ensures Slot(capacity, a) != Slot(capacity, b)
  {
    ModDiffers(a, b, capacity + 1);
  }

  ghost predicate Shape(capacity: nat, q: Queue) {
    |q.slots| == capacity + 1 && |q.pushed| == q.write && |q.removed| == q.read <= q.write
  }

  ghost predicate ProducerInv(capacity: nat, q: Queue)
    requires Shape(capacity, q)
  {
    match q.producer
    case Resting => q.write <= q.read + capacity
    case Loaded(_, w, r) => w == q.write && r <= q.read && w <= r + capacity
    case Written(v, w, r) => w == q.write && r <= q.read && w <= r + capacity && q.slots[Slot(capacity, w)] == v
    case Stored(r) => r <= q.read && q.write == r + capacity + 1
    case Won(r) => r < q.read && q.write == r + capacity + 1
  }

  /** A consumer whose read position is outdated was overtaken by the producer, so the queue is not
      empty; a value read at the current position is the one that was pushed there. */
  ghost predicate ConsumerInv(capacity: nat, q: Queue)
    requires Shape(capacity, q)
  {
    match q.consumer
    case Waiting => true
    case GotRead(r) => r <= q.read && (r < q.read ==> q.read < q.write)
    case Trying(r) => r <= q.read && r < q.write && (r < q.read ==> q.read < q.write)
    case GotValue(r, v) => r <= q.read && r < q.write && (r < q.read ==> q.read < q.write) && (r == q.read ==> v == q.pushed[r])
  }

  /** The slots hold the last `capacity + 1` pushes, the oldest of which may just be overwritten. */
  ghost predicate SlotsInv(capacity: nat, q: Queue)
    requires Shape(capacity, q)
  {
    forall p: nat :: p < q.write && q.write + (if q.producer.Written? then 1 else 0) <= p + capacity + 1 ==>
      q.slots[Slot(capacity, p)] == q.pushed[p]
  }

  /** Every removed position was popped or evicted, with the value that was pushed there. */
  ghost predicate RemovedInv(capacity: nat, q: Queue)
    requires Shape(capacity, q)
  {
    forall p: nat :: p < q.read ==>
      || q.removed[p] == Popped(q.pushed[p])
      || q.removed[p] == Evicted(q.pushed[p])
      || (q.removed[p] == Evicting && q.producer == Won(p))
  }

  ghost predicate Inv(capacity: nat, q: Queue) {
    && Shape(capacity, q)
    && ProducerInv(capacity, q)
    && ConsumerInv(capacity, q)
    && SlotsInv(capacity, q)
    && RemovedInv(capacity, q)
  }

  lemma StepLocal(capacity: nat, q: Queue, a: Action)
    requires capacity > 0 && Inv(capacity, q) && Enabled(q, a)
    ensures var q' := Step(capacity, q, a);
            Shape(capacity, q') && ProducerInv(capacity, q') && ConsumerInv(capacity, q')
  {
  }

  lemma StepSlots(capacity: nat, q: Queue, a: Action)
    requires capacity > 0 && Inv(capacity, q) && Enabled(q, a)
    ensures Shape(capacity, Step(capacity, q, a)) && SlotsInv(capacity, Step(capacity, q, a))
  {
    StepLocal(capacity, q, a);
    if a.PushWrite? {
      var q' := Step(capacity, q, a);
      forall p: nat | p < q'.write && q'.write + 1 <= p + capacity + 1
        ensures q'.slots[Slot(capacity, p)] == q'.pushed[p]
      {
        DifferentSlots(capacity, p, q.write);
      }
    }
  }

  lemma StepRemoved(capacity: nat, q: Queue, a: Action)
    requires capacity > 0 && Inv(capacity, q) && Enabled(q, a)
    ensures Shape(capacity, Step(capacity, q, a)) && RemovedInv(capacity, Step(capacity, q, a))
  {
    StepLocal(capacity, q, a);
  }

  lemma StepInv(capacity: nat, q: Queue, a: Action)
    requires capacity > 0 && Inv(capacity, q) && Enabled(q, a)
    ensures Inv(capacity, Step(capacity, q, a))
  {
    StepLocal(capacity, q, a);
    StepSlots(capacity, q, a);
    StepRemoved(capacity, q, a);
  }

  lemma {:induction false} RunInv(capacity: nat, q: Queue, run: seq<Action>, t: Queue)
    requires capacity > 0 && Inv(capacity, q) && Runs(capacity, q, run, t)
    ensures Inv(capacity, t)
    decreases |run|
  {
    if |run| == 0 {
    } else {
      StepInv(capacity, q, run[0]);
      RunInv(capacity, Step(capacity, q, run[0]), run[1..], t);
    }
  }

  lemma ReachableInv(capacity: nat, q: Queue)
    requires capacity > 0 && Reachable(capacity, q)
    ensures Inv(capacity, q)
  {
    var run :| Runs(capacity, Initial(capacity), run, q);
    RunInv(capacity, Initial(capacity), run, q);
  }

  // ---------------------------------------------------------------- theorems

  /** Each pushed value leaves the queue at most once, in the order of the pushes, either to the
      consumer or back to the producer; nobody ever sees a torn or overwritten value. */
  lemma EachValueOnceInOrder(capacity: nat, q: Queue, p: nat)
    requires capacity > 0 && Reachable(capacity, q) && p < |q.removed|
    ensures |q.removed| == q.read <= q.write == |q.pushed|
    ensures || q.removed[p] == Popped(q.pushed[p])
            || q.removed[p] == Evicted(q.pushed[p])
            || (q.removed[p] == Evicting && q.producer == Won(p))
  {
    ReachableInv(capacity, q);
  }

  /** Between two pushes the queue holds at most `capacity` elements, and a push evicts an element
      only if it would otherwise hold one more. */
  lemma OverflowOnlyWhenFull(capacity: nat, q: Queue)
    requires capacity > 0 && Reachable(capacity, q)
    ensures q.producer.Resting? ==> q.write - q.read <= capacity
    ensures q.producer.Stored? && q.read == q.producer.read ==> q.write - q.read == capacity + 1
  {
    ReachableInv(capacity, q);
  }

  /** The elements in the queue, oldest first. */
  function Contents(q: Queue): seq<int>
    requires q.read <= q.write <= |q.pushed|
  {
    q.pushed[q.read..q.write]
  }

  /** Seen through its contents, the queue is a first-in first-out queue at every step. */
  lemma StepIsFifo(capacity: nat, q: Queue, a: Action)
    requires capacity > 0 && Reachable(capacity, q) && Enabled(q, a)
    ensures Inv(capacity, q) && Inv(capacity, Step(capacity, q, a))
    ensures var c, q' := Contents(q), Step(capacity, q, a);
            match a
            case PushStore => Contents(q') == c + [q.producer.value]
            case PushExchange => Contents(q') == if q'.producer.Won? then c[1..] else c
            case PopExchange =>
              if q'.consumer.Waiting? then |c| > 0 && q.consumer.value == c[0] && Contents(q') == c[1..] else Contents(q') == c
            case _ => Contents(q') == c
  {
    ReachableInv(capacity, q);
    StepInv(capacity, q, a);
  }

  /** A pop that the producer does not disturb. */
  function Popping(capacity: nat, q: Queue): Queue
    requires |q.slots| == capacity + 1 && Enabled(q, PopLoad)
  {
    var checked := Step(capacity, Step(capacity, q, PopLoad), PopCheck);
    if checked.consumer.Waiting? then checked
    else Step(capacity, Step(capacity, checked, PopRead), PopExchange)
  }

  /** It gives nothing exactly if the queue is empty, and the oldest element otherwise. */
  lemma PopsOldest(capacity: nat, q: Queue)
    requires capacity > 0 && Reachable(capacity, q) && Enabled(q, PopLoad)
    ensures Inv(capacity, q)
    ensures Popping(capacity, q) == if Contents(q) == [] then q
                                    else q.(read := q.read + 1, removed := q.removed + [Popped(Contents(q)[0])])
  {
    ReachableInv(capacity, q);
    if Contents(q) != [] {
      HeldInSlot(capacity, q, q.read);
    }
  }

  /** What is in the queue is in its slot. */
  lemma HeldInSlot(capacity: nat, q: Queue, p: nat)
    requires Inv(capacity, q) && q.read <= p < q.write
    ensures q.slots[Slot(capacity, p)] == q.pushed[p]
  {
  }

  /** A push that the consumer does not disturb. */
  function Pushing(capacity: nat, q: Queue, v: int): Queue
    requires |q.slots| == capacity + 1 && |q.removed| == q.read && Enabled(q, PushLoad(v))
  {
    var stored := Step(capacity, Step(capacity, Step(capacity, q, PushLoad(v)), PushWrite), PushStore);
    if stored.producer.Resting? then stored
    else Step(capacity, Step(capacity, stored, PushExchange), PushTake)
  }

  /** It appends the value, and evicts the oldest element exactly if the queue is full. */
  lemma PushAppends(capacity: nat, q: Queue, v: int)
    requires capacity > 0 && Reachable(capacity, q) && Enabled(q, PushLoad(v))
    ensures Inv(capacity, q)
    ensures var t := Pushing(capacity, q, v);
            && t.producer.Resting? && t.consumer == q.consumer && t.pushed == q.pushed + [v] && t.write == q.write + 1
            && (|Contents(q)| < capacity ==> t.read == q.read && t.removed == q.removed)
            && (|Contents(q)| >= capacity ==> t.read == q.read + 1 && t.removed == q.removed + [Evicted(Contents(q)[0])])
  {
    ReachableInv(capacity, q);
    var loaded := Step(capacity, q, PushLoad(v));
    var written := Step(capacity, loaded, PushWrite);
    if |Contents(q)| >= capacity {
      HeldInSlot(capacity, q, q.read);
      DifferentSlots(capacity, q.read, q.write);
    }
  }

  // ---------------------------------------------------------------- capacity zero

  lemma {:induction false} RunsAppend(capacity: nat, q: Queue, run: seq<Action>, t: Queue, a: Action)
    requires Runs(capacity, q, run, t) && Enabled(t, a) && |t.slots| == capacity + 1
    ensures Runs(capacity, q, run + [a], Step(capacity, t, a))
    decreases |run|
  {
    if |run| == 0 {
      assert run + [a] == [a] && [a][1..] == [];
    } else {
      assert (run + [a])[1..] == run[1..] + [a];
      RunsAppend(capacity, Step(capacity, q, run[0]), run[1..], t, a);
    }
  }

  lemma Then(capacity: nat, q: Queue, a: Action) returns (t: Queue)
    requires Reachable(capacity, q) && |q.slots| == capacity + 1 && Enabled(q, a)
    ensures Reachable(capacity, t) && t == Step(capacity, q, a)
  {
    var run :| Runs(capacity, Initial(capacity), run, q);
    RunsAppend(capacity, Initial(capacity), run, q, a);
    t := Step(capacity, q, a);
  }

  /** With capacity zero the consumer, overtaken by the producer, pops a position that was never
      pushed: one push, and both sides end up with the value. */
  lemma CapacityZeroPopsTwice() returns (q: Queue)
    ensures Reachable(0, q) && q.pushed == [7] && q.removed == [Evicted(7), Popped(7)] && q.read > q.write
  {
    q := Initial(0);
    assert Runs(0, q, [], q);
    q := Then(0, q, PushLoad(7));
    q := Then(0, q, PushWrite);
    q := Then(0, q, PushStore);
    q := Then(0, q, PopLoad);
    q := Then(0, q, PopCheck);
    q := Then(0, q, PopRead);
    q := Then(0, q, PushExchange);
    q := Then(0, q, PushTake);
    q := Then(0, q, PopExchange);
    q := Then(0, q, PopRead);
    q := Then(0, q, PopExchange);
  }

  /** The queue never gives out more than was put in if and only if its capacity is not zero. */
  lemma SafeIffCapacity(capacity: nat)
    ensures (forall q :: Reachable(capacity, q) ==> q.read <= q.write) <==> capacity > 0
  {
    if capacity > 0 {
      forall q | Reachable(capacity, q) ensures q.read <= q.write {
        ReachableInv(capacity, q);
      }
    } else {
      var q := CapacityZeroPopsTwice();
    }
  }
}
