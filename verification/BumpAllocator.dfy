/** The lock-free bump allocator: threads advance one shared position with a weak compare-and-exchange;
    `deallocate` resets it. */
module BumpAllocator {
  import opened Common
  import opened Math

  /** The memory that the allocator manages. */
  datatype Memory = Memory(start: nat, size: nat)

  /** A request in progress, with the position it has seen. */
  datatype Thread = Idle | Allocating(size: nat, align: nat, seen: nat)

  /** A chunk handed out, as an offset from the start. */
  datatype Chunk = Chunk(offset: nat, size: nat, align: nat)

  datatype Error = SizeIsZero | OutOfMemory

  /** `chunks` are those since the last reset; `failures` the answers of failed requests. */
  datatype Bump = Bump(position: nat, threads: seq<Thread>, chunks: seq<Chunk>, failures: seq<Error>)

  datatype Action = Load(size: nat, align: nat) | Exchange(spurious: bool) | Deallocate

  function Initial(threads: nat): Bump {
    Bump(0, seq(threads, _ => Idle), [], [])
  }

  /** The offset of a chunk that is allocated at `position`. */
  function AlignedPosition(m: Memory, position: nat, align: nat): (r: nat)
    requires align > 0
    ensures position <= r < position + align && (m.start + r) % align == 0
  {
    Align(m.start + position, align) - m.start
  }

  predicate Enabled(s: Bump, t: nat, a: Action) {
    && t < |s.threads|
    && match a
       case Load(size, align) => s.threads[t].Idle? && align > 0
       case Exchange(_) => s.threads[t].Allocating? && s.threads[t].align > 0
       case Deallocate => s.threads[t].Idle?
  }

  function Step(m: Memory, s: Bump, t: nat, a: Action): Bump
    requires Enabled(s, t, a)
  {
    match a
    case Load(size, align) =>
      if size == 0 then s.(failures := s.failures + [SizeIsZero])
      else s.(threads := s.threads[t := Allocating(size, align, s.position)])
    case Exchange(spurious) =>
      var x := s.threads[t];
      var offset := AlignedPosition(m, x.seen, x.align);
      if offset + x.size > m.size then
        s.(threads := s.threads[t := Idle], failures := s.failures + [OutOfMemory])
      else if s.position == x.seen && !spurious then
        s.(position := offset + x.size, threads := s.threads[t := Idle],
           chunks := s.chunks + [Chunk(offset, x.size, x.align)])
      else s.(threads := s.threads[t := x.(seen := s.position)])
    case Deallocate => s.(position := 0, chunks := [])
  }

  // ---------------------------------------------------------------- safety

  ghost predicate Disjoint(a: Chunk, b: Chunk) {
    a.offset + a.size <= b.offset || b.offset + b.size <= a.offset
  }

  ghost predicate Sound(m: Memory, s: Bump, c: Chunk) {
    c.size > 0 && c.align > 0 && (m.start + c.offset) % c.align == 0 && c.offset + c.size <= s.position
  }

  /** The end of the last chunk: what `used_space` reports. */
  function End(chunks: seq<Chunk>): nat {
    if |chunks| == 0 then 0 else chunks[|chunks| - 1].offset + chunks[|chunks| - 1].size
  }

  ghost predicate Inv(m: Memory, s: Bump) {
    && s.position <= m.size && s.position == End(s.chunks)
    && (forall i :: 0 <= i < |s.chunks| ==> Sound(m, s, s.chunks[i]))
    && (forall i, j :: 0 <= i < j < |s.chunks| ==> Disjoint(s.chunks[i], s.chunks[j]))
    && (forall t :: 0 <= t < |s.threads| && s.threads[t].Allocating? ==> s.threads[t].size > 0)
  }

  lemma StepInv(m: Memory, s: Bump, t: nat, a: Action)
    requires Inv(m, s) && Enabled(s, t, a)
    ensures Inv(m, Step(m, s, t, a))
  {
    var u := Step(m, s, t, a);
    forall i | 0 <= i < |u.chunks| ensures Sound(m, u, u.chunks[i]) {
      if i < |s.chunks| {
        assert Sound(m, s, s.chunks[i]);
      }
    }
    forall i, j | 0 <= i < j < |u.chunks| ensures Disjoint(u.chunks[i], u.chunks[j]) {
      assert Sound(m, s, s.chunks[i]);
    }
  }

  datatype Move = Move(thread: nat, action: Action)

  ghost predicate Runs(m: Memory, s: Bump, run: seq<Move>, u: Bump)
    decreases |run|
  {
    if |run| == 0 then s == u
    else Enabled(s, run[0].thread, run[0].action) && Runs(m, Step(m, s, run[0].thread, run[0].action), run[1..], u)
  }

  ghost predicate Reachable(m: Memory, u: Bump) {
    exists threads: nat, run :: Runs(m, Initial(threads), run, u)
  }

  lemma {:induction false} RunInv(m: Memory, s: Bump, run: seq<Move>, u: Bump)
    requires Inv(m, s) && Runs(m, s, run, u)
    ensures Inv(m, u)
    decreases |run|
  {
    if |run| == 0 {
    } else {
      StepInv(m, s, run[0].thread, run[0].action);
      RunInv(m, Step(m, s, run[0].thread, run[0].action), run[1..], u);
    }
  }

  /** In every run, the chunks since the last reset are aligned as requested, inside the used part of the
      memory and pairwise disjoint, the used part ends with the last of them, and `free_space` does not
      underflow. */
  lemma ChunksAreSafe(m: Memory, u: Bump)
    requires Reachable(m, u)
    ensures u.position <= m.size
    ensures u.position == if |u.chunks| == 0 then 0 else u.chunks[|u.chunks| - 1].offset + u.chunks[|u.chunks| - 1].size
    ensures forall i :: 0 <= i < |u.chunks| ==> Sound(m, u, u.chunks[i])
    ensures forall i, j :: 0 <= i < j < |u.chunks| ==> Disjoint(u.chunks[i], u.chunks[j])
  {
    var threads: nat, run :| Runs(m, Initial(threads), run, u);
    RunInv(m, Initial(threads), run, u);
  }

  ghost predicate Room(m: Memory, position: nat, size: nat, align: nat, offset: nat)
    requires align > 0
  {
    position <= offset && offset + size <= m.size && (m.start + offset) % align == 0
  }

  /** The least aligned offset from the current position on that leaves room for the request. */
  ghost predicate LeastRoom(m: Memory, position: nat, size: nat, align: nat, offset: nat)
    requires align > 0
  {
    && Room(m, position, size, align, offset)
    && forall other: nat :: Room(m, position, size, align, other) ==> offset <= other
  }

  lemma AlignedIsLeast(m: Memory, position: nat, size: nat, align: nat)
    requires align > 0
    ensures var best := AlignedPosition(m, position, align);
            if best + size <= m.size then LeastRoom(m, position, size, align, best)
            else forall offset: nat :: !Room(m, position, size, align, offset)
  {
    forall offset: nat | Room(m, position, size, align, offset) ensures AlignedPosition(m, position, align) <= offset {
      AlignIsLeast(m.start + position, align, m.start + offset);
    }
  }

  /** A request that nobody disturbs, even if the exchange fails spuriously. */
  function Request(m: Memory, s: Bump, t: nat, size: nat, align: nat, spurious: bool): Bump
    requires Enabled(s, t, Load(size, align))
  {
    var loaded := Step(m, s, t, Load(size, align));
    if size == 0 then loaded
    else
      var once := if spurious then Step(m, loaded, t, Exchange(true)) else loaded;
      if once.threads[t].Idle? then once else Step(m, once, t, Exchange(false))
  }

  /** Such a request fails exactly on a size of zero and when no aligned offset from the current position on
      leaves room; otherwise it appends a chunk at the least such offset. Nothing else changes. */
  lemma FailsOnlyWithoutRoom(m: Memory, s: Bump, t: nat, size: nat, align: nat, spurious: bool)
    requires Enabled(s, t, Load(size, align))
    ensures var u := Request(m, s, t, size, align, spurious);
            if size == 0 then u == s.(failures := s.failures + [SizeIsZero])
            else if forall offset: nat :: !Room(m, s.position, size, align, offset)
            then u == s.(failures := s.failures + [OutOfMemory])
            else exists offset: nat ::
                   && LeastRoom(m, s.position, size, align, offset)
                   && u == s.(position := offset + size, chunks := s.chunks + [Chunk(offset, size, align)])
  {
    var best := AlignedPosition(m, s.position, align);
    AlignedIsLeast(m, s.position, size, align);
    if size > 0 {
      var u := Request(m, s, t, size, align, spurious);
      assert u.threads == s.threads;
    }
  }

  /** After `deallocate` the whole memory can be handed out again. */
  lemma ResetFreesAll(m: Memory, s: Bump, t: nat, size: nat, align: nat)
    requires Enabled(s, t, Deallocate) && align > 0 && size > 0
    ensures var u := Request(m, Step(m, s, t, Deallocate), t, size, align, false);
            if forall offset: nat :: !Room(m, 0, size, align, offset)
            then u.chunks == [] && u.failures == s.failures + [OutOfMemory]
            else exists offset: nat :: LeastRoom(m, 0, size, align, offset) && u.chunks == [Chunk(offset, size, align)]
  {
    FailsOnlyWithoutRoom(m, Step(m, s, t, Deallocate), t, size, align, false);
  }
}
