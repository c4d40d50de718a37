/** The pool allocator: equally sized buckets behind an aligned start, handed out by index. */
module PoolAllocator {
  import opened Bits
  import opened Common
  import opened Math

  ghost predicate IsPowerOf2(n: nat) {
    exists k: nat :: n == Pow2(k)
  }

  /** Of two powers of two, the smaller divides the larger. */
  lemma PowersDivide(small: nat, large: nat)
    requires IsPowerOf2(small) && IsPowerOf2(large) && small <= large
    ensures large % small == 0
  {
    var j: nat, k: nat :| small == Pow2(j) && large == Pow2(k);
    if j > k {
      Pow2Monotone(k, j);
    } else {
      Pow2Add(k - j, j);
      Divide(Pow2(k - j), 0, small);
    }
  }

  /** Size and alignment of a bucket or of a request. */
  datatype Layout = Layout(size: nat, align: nat) {
    /** What the language guarantees for every layout. */
    ghost predicate Valid() {
      IsPowerOf2(align)
    }

    /** What the pool divides by. */
    predicate IsBucket() {
      size > 0 && align > 0
    }

    /** What the language guarantees for the layout of a type. */
    predicate OfType() {
      IsBucket() && size % align == 0
    }
  }

  /** The buckets that fit behind the aligned start; `None` if the memory ends before it. */
  function NumberOfBuckets(bucket: Layout, ptr: nat, size: nat): Option<nat>
    requires bucket.IsBucket()
  {
    var start := Align(ptr, bucket.align);
    if ptr + size < start then None
    else Some(Div(ptr + size - start, Align(bucket.size, bucket.align)))
  }

  function BucketAddress(start: nat, bucketSize: nat, i: nat): nat {
    start + i * bucketSize
  }

  // ---------------------------------------------------------------- geometry

  /** All buckets lie inside the memory. */
  lemma BucketInside(bucket: Layout, ptr: nat, size: nat, i: nat)
    requires bucket.IsBucket() && NumberOfBuckets(bucket, ptr, size).Some? && i < NumberOfBuckets(bucket, ptr, size).value
    ensures ptr <= BucketAddress(Align(ptr, bucket.align), bucket.size, i)
    ensures BucketAddress(Align(ptr, bucket.align), bucket.size, i) + bucket.size <= ptr + size
  {
    var room := ptr + size - Align(ptr, bucket.align);
    var stride := Align(bucket.size, bucket.align);
    DivMod(room, stride);
    Inside(room, stride, bucket.size, room / stride, i);
  }

  /** There are as many buckets as fit, each counted with its size rounded up to the alignment. */
  lemma AsManyAsFit(bucket: Layout, ptr: nat, size: nat, n: nat)
    requires bucket.IsBucket() && NumberOfBuckets(bucket, ptr, size).Some?
    ensures n <= NumberOfBuckets(bucket, ptr, size).value
            <==> Align(ptr, bucket.align) + n * Align(bucket.size, bucket.align) <= ptr + size
  {
    var room := ptr + size - Align(ptr, bucket.align);
    var stride := Align(bucket.size, bucket.align);
    Quotient(room, stride, n);
    DivMod(room, stride);
    if n == room / stride {
      assert n * stride <= room;
    }
  }

  lemma Inside(room: nat, stride: nat, size: nat, n: nat, i: nat)
    requires n * stride <= room && size <= stride && i < n
    ensures i * size + size <= room
  {
    MulMonotone(n, size, stride);
    MulMonotone(size, i + 1, n);
    SumTimes(i, 1, size);
  }

  lemma BucketsDisjoint(start: nat, bucketSize: nat, i: nat, j: nat)
    requires i < j
    ensures BucketAddress(start, bucketSize, i) + bucketSize <= BucketAddress(start, bucketSize, j)
  {
    MulMonotone(bucketSize, i + 1, j);
    Distributes(bucketSize, i + 1, 1);
  }

  lemma MultipleOfMultiple(i: nat, size: nat, align: nat)
    requires align > 0 && size % align == 0
    ensures i * size % align == 0
  {
    var k := size / align;
    assert size == align * k;
    assert i * (align * k) == (i * k) * align;
    Divide(i * k, 0, align);
  }

  lemma AddMultiple(a: nat, b: nat, align: nat)
    requires align > 0 && a % align == 0
    ensures (a + b) % align == b % align
  {
    DivMod(a, align);
    DivMod(b, align);
    SumRemainder(a / align, b / align, b % align, align);
  }

  lemma SumRemainder(x: nat, y: nat, r: nat, align: nat)
    requires r < align
    ensures (x * align + (y * align + r)) % align == r
  {
    SumTimes(x, y, align);
    Divide(x + y, r, align);
  }

  ghost predicate AllAligned(bucket: Layout, start: nat, n: nat)
    requires bucket.align > 0
  {
    forall i: nat :: i < n ==> BucketAddress(start, bucket.size, i) % bucket.align == 0
  }

  /** The distance between buckets is the size as given, which is not rounded up, so all buckets are
      aligned if and only if there is at most one or the size is a multiple of the alignment. */
  lemma AlignedIffMultiple(bucket: Layout, ptr: nat, n: nat)
    requires bucket.IsBucket()
    ensures AllAligned(bucket, Align(ptr, bucket.align), n) <==> n <= 1 || bucket.size % bucket.align == 0
  {
    var start := Align(ptr, bucket.align);
    if n <= 1 || bucket.size % bucket.align == 0 {
      forall i: nat | i < n ensures BucketAddress(start, bucket.size, i) % bucket.align == 0 {
        if n > 1 {
          MultipleOfMultiple(i, bucket.size, bucket.align);
        }
        AddMultiple(start, i * bucket.size, bucket.align);
      }
    } else {
      AddMultiple(start, bucket.size, bucket.align);
      assert BucketAddress(start, bucket.size, 1) == start + bucket.size;
    }
  }

  /** Bytes for the free list of the index set: one more entry than buckets, and room to align it. */
  function IndexSetMemory(capacity: nat): nat {
    4 * (capacity + 1) + 4 - 1
  }

  function MemorySize(bucket: Layout, size: nat): nat
    requires bucket.IsBucket()
  {
    IndexSetMemory(size / bucket.size)
  }

  /** The management memory is computed without knowing the address, yet always suffices: at any address
      its aligned part holds the free list for the actual number of buckets. */
  lemma ManagementMemorySuffices(bucket: Layout, ptr: nat, size: nat, management: nat)
    requires bucket.IsBucket() && NumberOfBuckets(bucket, ptr, size).Some?
    ensures NumberOfBuckets(bucket, ptr, size).value <= size / bucket.size
    ensures Align(management, 4) + 4 * (NumberOfBuckets(bucket, ptr, size).value + 1) <= management + MemorySize(bucket, size)
  {
    EstimateSuffices(bucket, ptr, size);
  }

  /** Nothing less would do: for the layout of a type at an aligned address the estimate is the number of
      buckets, and there are addresses at which the management memory is used to its last byte. */
  lemma ManagementMemoryIsTight(bucket: Layout, ptr: nat, size: nat, management: nat)
    requires bucket.OfType() && ptr % bucket.align == 0 && management % 4 == 1
    ensures NumberOfBuckets(bucket, ptr, size) == Some(size / bucket.size)
    ensures Align(management, 4) + 4 * (size / bucket.size + 1) == management + MemorySize(bucket, size)
  {
    assert Align(management, 4) == management + 3;
  }

  lemma EstimateSuffices(bucket: Layout, ptr: nat, size: nat)
    requires bucket.IsBucket() && NumberOfBuckets(bucket, ptr, size).Some?
    ensures NumberOfBuckets(bucket, ptr, size).value <= size / bucket.size
  {
    var n := NumberOfBuckets(bucket, ptr, size).value;
    AllInside(bucket, ptr, size);
    Quotient(size, bucket.size, n);
  }

  lemma AllInside(bucket: Layout, ptr: nat, size: nat)
    requires bucket.IsBucket() && NumberOfBuckets(bucket, ptr, size).Some?
    ensures Align(ptr, bucket.align) + NumberOfBuckets(bucket, ptr, size).value * bucket.size <= ptr + size
  {
    var n := NumberOfBuckets(bucket, ptr, size).value;
    if n > 0 {
      BucketInside(bucket, ptr, size, n - 1);
      LastBucket(n, bucket.size);
    }
  }

  lemma LastBucket(n: nat, bucketSize: nat)
    requires n > 0
    ensures (n - 1) * bucketSize + bucketSize == n * bucketSize
  {
  }

  // ---------------------------------------------------------------- the data segment of a publisher

  /** The size that the publisher requests for its samples. */
  function DataSegmentSize(chunk: Layout, samples: nat): nat
    requires chunk.align > 0
  {
    chunk.size * samples + chunk.align - 1
  }

  function SampleIndex(chunk: Layout, distance: nat): nat
    requires chunk.IsBucket()
  {
    distance / chunk.size
  }

  /** Wherever the segment is mapped, it holds exactly the requested number of chunks. */
  lemma SegmentHoldsExactly(chunk: Layout, base: nat, samples: nat)
    requires chunk.OfType()
    ensures NumberOfBuckets(chunk, base, DataSegmentSize(chunk, samples)) == Some(samples)
  {
    var start := Align(base, chunk.align);
    AlignmentAtMostSize(chunk);
    Divide(samples, base + chunk.align - 1 - start, chunk.size);
  }

  lemma AlignmentAtMostSize(chunk: Layout)
    requires chunk.OfType()
    ensures chunk.align <= chunk.size
  {
    if chunk.size < chunk.align {
      Divide(0, chunk.size, chunk.align);
    }
  }

  /** The offset of chunk `i`, from the base of the segment or from the aligned start, gives `i`. */
  lemma SampleIndexInverts(chunk: Layout, base: nat, i: nat)
    requires chunk.OfType()
    ensures var address := BucketAddress(Align(base, chunk.align), chunk.size, i);
            SampleIndex(chunk, address - base) == i && SampleIndex(chunk, address - Align(base, chunk.align)) == i
  {
    AlignmentAtMostSize(chunk);
    Divide(i, Align(base, chunk.align) - base, chunk.size);
    Divide(i, 0, chunk.size);
  }

  /** So indices are a bijection: every offset of a chunk of the segment has an index below the number of
      samples, different chunks have different indices, and every index is reached. */
  lemma SampleIndexBijective(chunk: Layout, base: nat, samples: nat, i: nat, j: nat)
    requires chunk.OfType() && i < samples && j < samples
    ensures var start := Align(base, chunk.align);
            var a, b := BucketAddress(start, chunk.size, i), BucketAddress(start, chunk.size, j);
            && SampleIndex(chunk, a - base) < samples
            && (SampleIndex(chunk, a - base) == SampleIndex(chunk, b - base) <==> a == b)
            && a + chunk.size <= base + DataSegmentSize(chunk, samples)
  {
    SampleIndexInverts(chunk, base, i);
    SampleIndexInverts(chunk, base, j);
    SegmentHoldsExactly(chunk, base, samples);
    BucketInside(chunk, base, DataSegmentSize(chunk, samples), i);
  }

  // ---------------------------------------------------------------- the allocator

  datatype AllocationResult = Allocated(address: nat) | SizeTooLarge | AlignmentFailure | OutOfMemory

  /** The index of the bucket that contains a pointer. */
  function GetIndex(start: nat, size: nat, bucketSize: nat, position: nat): Option<nat>
    requires bucketSize > 0
  {
    if position < start || position > start + size then None
    else Some((position - start) / bucketSize)
  }

  /** Any pointer into bucket `i` is mapped to `i`. */
  lemma GetIndexInverts(start: nat, size: nat, bucketSize: nat, i: nat, inside: nat)
    requires bucketSize > 0 && inside < bucketSize && i * bucketSize + inside <= size
    ensures GetIndex(start, size, bucketSize, BucketAddress(start, bucketSize, i) + inside) == Some(i)
  {
    Divide(i, inside, bucketSize);
  }

  /** The range check admits more than the buckets: an index that exists is returned exactly for the
      pointers into a bucket, but the pointer behind the memory, for one, is accepted with an index that
      does not exist. */
  lemma AcceptedIffInBucket(start: nat, size: nat, bucketSize: nat, n: nat, position: nat)
    requires bucketSize > 0 && n * bucketSize <= size
    ensures (GetIndex(start, size, bucketSize, position).Some? && GetIndex(start, size, bucketSize, position).value < n)
            <==> start <= position < start + n * bucketSize
    ensures GetIndex(start, size, bucketSize, start + size).Some? && GetIndex(start, size, bucketSize, start + size).value >= n
  {
    if start <= position {
      Quotient(position - start, bucketSize, n);
    }
    Quotient(size, bucketSize, n);
  }

  lemma Quotient(x: nat, d: nat, n: nat)
    requires d > 0
    ensures x / d < n <==> x < n * d
  {
    assert x == d * (x / d) + x % d;
    if x / d < n {
      MulMonotone(d, x / d + 1, n);
      Distributes(d, x / d + 1, 1);
    } else {
      MulMonotone(d, n, x / d);
    }
  }

  lemma AddressAligned(start: nat, bucketSize: nat, bucketAlignment: nat, i: nat, align: nat)
    requires align > 0 && bucketAlignment > 0 && start % bucketAlignment == 0
    requires bucketAlignment % align == 0 && bucketSize % bucketAlignment == 0
    ensures BucketAddress(start, bucketSize, i) % align == 0
  {
    MultipleOfMultiple(i, bucketSize, bucketAlignment);
    AddMultiple(start, i * bucketSize, bucketAlignment);
    MultipleIsMultiple(BucketAddress(start, bucketSize, i), bucketAlignment, align);
  }

  lemma MultipleIsMultiple(a: nat, b: nat, align: nat)
    requires align > 0 && b > 0 && a % b == 0 && b % align == 0
    ensures a % align == 0
  {
    DivMod(a, b);
    MultipleOfMultiple(a / b, b, align);
  }

  /** `memoryEnd` is the end of the memory that the pool was given, and `live` are the indices that the
      index set has handed out and not taken back. */
  class Pool {
    const bucketSize: nat
    const bucketAlignment: nat
    const start: nat
    const size: nat
    const capacity: nat
    ghost const memoryEnd: nat
    var live: set<nat>

    ghost predicate Valid()
      reads this
    {
      && bucketSize > 0 && bucketAlignment > 0 && IsPowerOf2(bucketAlignment)
      && start % bucketAlignment == 0
      && start + capacity * bucketSize <= memoryEnd <= start + size
      && forall i :: i in live ==> i < capacity
    }

    /** A layout whose memory ends before its aligned start makes the subtraction overflow. */
    constructor (bucket: Layout, ptr: nat, memory: nat)
      requires bucket.Valid() && bucket.IsBucket() && NumberOfBuckets(bucket, ptr, memory).Some?
      ensures Valid() && live == {} && capacity == NumberOfBuckets(bucket, ptr, memory).value
      ensures start == Align(ptr, bucket.align) && bucketSize == bucket.size && bucketAlignment == bucket.align && size == memory
      ensures memoryEnd == ptr + memory
    {
      bucketSize, bucketAlignment := bucket.size, bucket.align;
      start, size, memoryEnd := Align(ptr, bucket.align), memory, ptr + memory;
      capacity := NumberOfBuckets(bucket, ptr, memory).value;
      live := {};
      AllInside(bucket, ptr, memory);
    }

    /** `new`: computing the number of buckets panics on a size of zero and on a memory that ends before its
        aligned start. */
    static method New(bucket: Layout, ptr: nat, memory: nat) returns (r: Option<Pool>)
      requires bucket.Valid()
      ensures r.None? <==> bucket.size == 0 || ptr + memory < Align(ptr, bucket.align)
      ensures r.Some? ==>
                && fresh(r.value) && r.value.Valid() && r.value.live == {}
                && bucket.IsBucket() && NumberOfBuckets(bucket, ptr, memory) == Some(r.value.capacity)
                && r.value.start == Align(ptr, bucket.align) && r.value.memoryEnd == ptr + memory
                && r.value.bucketSize == bucket.size && r.value.bucketAlignment == bucket.align
    {
      if bucket.size == 0 || ptr + memory < Align(ptr, bucket.align) {
        return None;
      }
      var pool := new Pool(bucket, ptr, memory);
      return Some(pool);
    }

    /** The error cases in the order of the checks; otherwise a bucket that was not live, which overlaps
        no live bucket and is aligned as requested if the bucket size is a multiple of its alignment. */
    method Allocate(request: Layout) returns (r: AllocationResult)
      requires Valid() && request.Valid()
      modifies this`live
      ensures Valid()
      ensures r.SizeTooLarge? <==> request.size > bucketSize
      ensures r.AlignmentFailure? <==> request.size <= bucketSize && request.align > bucketAlignment
      ensures r.OutOfMemory? <==>
                request.size <= bucketSize && request.align <= bucketAlignment && forall i: nat :: i < capacity ==> i in old(live)
      ensures !r.Allocated? ==> live == old(live)
      ensures r.Allocated? ==> exists i: nat :: Handed(old(live), live, i, r.address)
      ensures request.align > 0 && (r.Allocated? && bucketSize % bucketAlignment == 0 ==> r.address % request.align == 0)
    {
      if request.size > bucketSize {
        return SizeTooLarge;
      }
      if request.align > bucketAlignment {
        return AlignmentFailure;
      }
      if i: nat :| i < capacity && i !in live {
        HandOut(i);
        PowersDivide(request.align, bucketAlignment);
        if bucketSize % bucketAlignment == 0 {
          AddressAligned(start, bucketSize, bucketAlignment, i, request.align);
        }
        live := live + {i};
        r := Allocated(BucketAddress(start, bucketSize, i));
        assert Handed(old(live), live, i, r.address);
      } else {
        r := OutOfMemory;
      }
    }

    /** Bucket `i` joins the live ones, inside the memory and apart from all of them. */
    ghost predicate Handed(before: set<nat>, after: set<nat>, i: nat, address: nat)
      reads this
    {
      && i < capacity && i !in before && after == before + {i}
      && address == BucketAddress(start, bucketSize, i)
      && start <= address && address + bucketSize <= memoryEnd
      && Apart(before, address)
    }

    ghost predicate Apart(others: set<nat>, address: nat)
      reads this
    {
      forall j :: j in others ==>
        address + bucketSize <= BucketAddress(start, bucketSize, j) || BucketAddress(start, bucketSize, j) + bucketSize <= address
    }

    ghost predicate InBucket(i: nat, position: nat)
      reads this
    {
      BucketAddress(start, bucketSize, i) <= position < BucketAddress(start, bucketSize, i) + bucketSize
    }

    lemma HandOut(i: nat)
      requires Valid() && i < capacity && i !in live
      ensures Handed(live, live + {i}, i, BucketAddress(start, bucketSize, i))
    {
      MulMonotone(bucketSize, i + 1, capacity);
      Distributes(bucketSize, i + 1, 1);
      forall j | j in live
        ensures BucketAddress(start, bucketSize, i) + bucketSize <= BucketAddress(start, bucketSize, j)
                || BucketAddress(start, bucketSize, j) + bucketSize <= BucketAddress(start, bucketSize, i)
      {
        if i < j {
          BucketsDisjoint(start, bucketSize, i, j);
        } else {
          BucketsDisjoint(start, bucketSize, j, i);
        }
      }
    }

    /** A pointer outside the memory is refused; a pointer into a live bucket frees exactly that bucket. */
    method Deallocate(position: nat) returns (ok: bool)
      requires Valid()
      requires start <= position <= start + size ==> (position - start) / bucketSize in live
      modifies this`live
      ensures Valid()
      ensures ok <==> start <= position <= start + size
      ensures !ok ==> live == old(live)
      ensures ok ==> exists i: nat :: i in old(live) && live == old(live) - {i} && InBucket(i, position)
    {
      var index := GetIndex(start, size, bucketSize, position);
      if index.None? {
        return false;
      }
      live := live - {index.value};
      assert position - start == bucketSize * index.value + (position - start) % bucketSize;
      assert InBucket(index.value, position);
      return true;
    }
  }
}
