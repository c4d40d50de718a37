/** The ring buffer behind the publisher's history: positions grow without bound and are taken modulo the
    capacity; the buffer holds the last `len` of them. */
module RingQueue {
  import opened Common

  /** What a push into a full queue makes of its contents. */
  function Overflowed<T>(s: seq<T>, capacity: nat, x: T): seq<T> {
    (if |s| == capacity && capacity > 0 then s[1..] else s) + [x]
  }

  function OverflowedAll<T>(s: seq<T>, capacity: nat, xs: seq<T>): seq<T>
    decreases |xs|
  {
    if |xs| == 0 then s else OverflowedAll(Overflowed(s, capacity, xs[0]), capacity, xs[1..])
  }

  function Newest<T>(s: seq<T>, n: nat): seq<T> {
    if |s| <= n then s else s[|s| - n..]
  }

  lemma NewestDrop<T>(s: seq<T>, n: nat)
    requires |s| > n
    ensures Newest(s[1..], n) == Newest(s, n)
  {
  }

  /** After any number of pushes with overflow, the queue holds the newest elements in order. */
  lemma {:induction false} KeepsNewest<T>(s: seq<T>, capacity: nat, xs: seq<T>)
    requires |s| <= capacity && capacity > 0
    ensures OverflowedAll(s, capacity, xs) == Newest(s + xs, capacity)
    decreases |xs|
  {
    if |xs| == 0 {
      assert s + xs == s;
    } else {
      var s' := Overflowed(s, capacity, xs[0]);
      KeepsNewest(s', capacity, xs[1..]);
      assert s + xs == s + [xs[0]] + xs[1..];
      if |s| == capacity {
        assert s' + xs[1..] == (s + xs)[1..];
        NewestDrop(s + xs, capacity);
      }
    }
  }

  class Queue<T> {
    const capacity: nat
    const data: array<Option<T>>
    var start: nat
    var len: nat

    ghost predicate Valid()
      reads this, data
    {
      && data.Length == capacity
      && len <= capacity && len <= start
      && forall p: nat :: start - len <= p < start ==> data[p % capacity].Some?
    }

    /** The elements, the oldest first. */
    ghost function Contents(): (r: seq<T>)
      requires Valid()
      reads this, data
    {
      seq(len, i requires 0 <= i < len && Valid() reads this, data => data[(start - len + i) % capacity].value)
    }

    constructor (capacity: nat)
      ensures Valid() && fresh(data) && this.capacity == capacity && Contents() == []
    {
      this.capacity := capacity;
      data := new Option<T>[capacity](_ => None);
      start, len := 0, 0;
    }

    /** Two positions of the window use different cells. */
    lemma CellsDiffer(p: nat, q: nat)
      requires p < q < p + capacity
      ensures p % capacity != q % capacity
    {
      ModDiffers(p, q, capacity);
    }

    /** Precondition of an index into the buffer: a queue of capacity 0 has no cell to write to. */
    method UncheckedPush(value: T)
      requires Valid() && len < capacity
      modifies this`start, this`len, data
      ensures Valid() && Contents() == old(Contents()) + [value]
    {
      ghost var before := Contents();
      ghost var first := start - len;
      forall p: nat | first <= p < start ensures p % capacity != start % capacity {
        CellsDiffer(p, start);
      }
      data[start % capacity] := Some(value);
      start := start + 1;
      len := len + 1;
      assert forall i :: 0 <= i < |before| ==> Contents()[i] == before[i];
      assert Contents()[|before|] == value;
    }

    method Push(value: T) returns (ok: bool)
      requires Valid()
      modifies this`start, this`len, data
      ensures Valid()
      ensures ok <==> |old(Contents())| < capacity
      ensures Contents() == if ok then old(Contents()) + [value] else old(Contents())
    {
      if len == capacity {
        return false;
      }
      UncheckedPush(value);
      return true;
    }

    method Pop() returns (r: Option<T>)
      requires Valid()
      modifies this`len, data
      ensures Valid()
      ensures old(Contents()) == [] ==> r == None && Contents() == []
      ensures old(Contents()) != [] ==> r == Some(old(Contents())[0]) && Contents() == old(Contents())[1..]
    {
      if len == 0 {
        return None;
      }
      ghost var before := Contents();
      ghost var first := start - len;
      var index := (start - len) % capacity;
      forall p: nat | first < p < start ensures p % capacity != index {
        CellsDiffer(first, p);
      }
      len := len - 1;
      r := data[index];
      data[index] := None;
      assert r.value == before[0];
      assert forall i :: 0 <= i < len ==> Contents()[i] == before[i + 1];
    }

    /** The evicted element is exactly the oldest, and only a full queue evicts. */
    method PushWithOverflow(value: T) returns (r: Option<T>)
      requires Valid() && capacity > 0
      modifies this`start, this`len, data
      ensures Valid()
      ensures Contents() == Overflowed(old(Contents()), capacity, value)
      ensures r == if |old(Contents())| == capacity then Some(old(Contents())[0]) else None
    {
      if len == capacity {
        r := Pop();
      } else {
        r := None;
      }
      UncheckedPush(value);
    }

    /** The element at `index`, counted from the oldest; `None` stands for the panic out of range. */
    method Get(index: nat) returns (r: Option<T>)
      requires Valid()
      ensures r.None? <==> index >= |Contents()|
      ensures r.Some? ==> r.value == Contents()[index]
    {
      if len <= index {
        return None;
      }
      return data[(start - len + index) % capacity];
    }

    method Clear()
      requires Valid()
      modifies this`len, data
      ensures Valid() && Contents() == []
    {
      var popped := Pop();
      while popped.Some?
        invariant Valid() && (popped.None? ==> Contents() == [])
        decreases if popped.Some? then len + 1 else 0
      {
        popped := Pop();
      }
    }
  }
}
