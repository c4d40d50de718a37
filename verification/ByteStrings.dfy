/** The string of bytes with fixed capacity. Where the source panics, the operations here say so in their
    result, and the exact condition is part of their contract. */
module ByteStrings {
  import opened Common

  type byte = x: int | 0 <= x < 256

  datatype Edit = Done | ExceedsCapacity | Panicked

  datatype Popped = Empty | Last(value: byte) | PopPanicked

  datatype Strip = Stripped | NotFound | StripPanicked

  ghost predicate OccursAt(s: seq<byte>, bytes: seq<byte>, i: nat) {
    i + |bytes| <= |s| && s[i..i + |bytes|] == bytes
  }

  ghost predicate IsPrefix(s: seq<byte>, bytes: seq<byte>) {
    |bytes| <= |s| && s[..|bytes|] == bytes
  }

  ghost predicate IsSuffix(s: seq<byte>, bytes: seq<byte>) {
    |bytes| <= |s| && s[|s| - |bytes|..] == bytes
  }

  function Splice(s: seq<byte>, idx: nat, bytes: seq<byte>): seq<byte>
    requires idx <= |s|
  {
    s[..idx] + bytes + s[idx..]
  }

  function Cut(s: seq<byte>, idx: nat, len: nat): seq<byte>
    requires idx + len <= |s|
  {
    s[..idx] + s[idx + len..]
  }

  /** Inserting and then removing the inserted range changes nothing. */
  lemma CutSplice(s: seq<byte>, idx: nat, bytes: seq<byte>)
    requires idx <= |s|
    ensures Cut(Splice(s, idx, bytes), idx, |bytes|) == s
  {
  }

  /** Removing a range and then inserting it again changes nothing. */
  lemma SpliceCut(s: seq<byte>, idx: nat, len: nat)
    requires idx + len <= |s|
    ensures Splice(Cut(s, idx, len), idx, s[idx..idx + len]) == s
  {
  }

  /** The bytes on which `f` is false, in order. */
  function Without(s: seq<byte>, f: byte -> bool): seq<byte> {
    if |s| == 0 then [] else (if f(s[0]) then [] else [s[0]]) + Without(s[1..], f)
  }

  lemma {:induction false} WithoutLast(s: seq<byte>, f: byte -> bool, c: byte)
    ensures Without(s + [c], f) == Without(s, f) + if f(c) then [] else [c]
  {
    if |s| == 0 {
      assert s + [c] == [c];
    } else {
      assert (s + [c])[1..] == s[1..] + [c];
      WithoutLast(s[1..], f, c);
    }
  }

  /** What a closure with a state leaves of a string, and the state it ends in. It is called on the last byte
      first; the bytes for which it answers true are dropped. */
  function Kept<S>(s: seq<byte>, f: (S, byte) -> (S, bool), state: S): (seq<byte>, S) {
    if |s| == 0 then ([], state)
    else
      var c := s[|s| - 1];
      var answer := f(state, c);
      var rest := Kept(s[..|s| - 1], f, answer.0);
      (rest.0 + if answer.1 then [] else [c], rest.1)
  }

  /** The answers of the closure do not depend on its state. */
  ghost predicate Stateless<S(!new)>(f: (S, byte) -> (S, bool), g: byte -> bool) {
    forall state, c :: f(state, c).1 == g(c)
  }

  /** One step of the loop: byte `idx` is looked at. */
  lemma KeptStep<S>(s: seq<byte>, f: (S, byte) -> (S, bool), state: S, idx: nat, done: seq<byte>)
    requires idx < |s|
    ensures var answer := f(state, s[idx]);
            var rest := Kept(s[..idx], f, answer.0);
            var now := if answer.1 then done else [s[idx]] + done;
            && Kept(s[..idx + 1], f, state).0 + done == rest.0 + now
            && Kept(s[..idx + 1], f, state).1 == rest.1
            && (if answer.1 then Cut(s[..idx + 1] + done, idx, 1) else s[..idx + 1] + done) == s[..idx] + now
  {
    assert s[..idx + 1][..idx] == s[..idx];
  }

  /** Such a closure leaves, in order, the bytes on which it is false. */
  lemma {:induction false} StatelessKept<S(!new)>(s: seq<byte>, f: (S, byte) -> (S, bool), g: byte -> bool, state: S)
    requires Stateless(f, g)
    ensures Kept(s, f, state).0 == Without(s, g)
  {
    if |s| == 0 {
    } else {
      var c := s[|s| - 1];
      StatelessKept(s[..|s| - 1], f, g, f(state, c).0);
      WithoutLast(s[..|s| - 1], g, c);
      assert s == s[..|s| - 1] + [c];
      assert f(state, c).1 == g(c);
    }
  }

  /** A closure that answers true on its first call only. */
  function OnFirstCall(calls: int, c: byte): (int, bool) {
    (calls + 1, calls == 0)
  }

  lemma {:induction false} LaterCallsKeep(s: seq<byte>, calls: int)
    requires calls > 0
    ensures Kept(s, OnFirstCall, calls) == (s, calls + |s|)
  {
    if |s| == 0 {
    } else {
      LaterCallsKeep(s[..|s| - 1], calls + 1);
      assert s == s[..|s| - 1] + [s[|s| - 1]];
    }
  }

  /** It removes the last byte and is called once on each. */
  lemma FirstCallIsLastByte(s: seq<byte>)
    requires |s| > 0
    ensures Kept(s, OnFirstCall, 0) == (s[..|s| - 1], |s|)
  {
    LaterCallsKeep(s[..|s| - 1], 1);
    var rest := Kept(s[..|s| - 1], OnFirstCall, OnFirstCall(0, s[|s| - 1]).0);
    assert rest.0 + [] == rest.0;
  }

  /** A buffer in which `bytes` have been written at `idx`. */
  function Written(s: seq<byte>, idx: nat, bytes: seq<byte>): seq<byte>
    requires idx + |bytes| <= |s|
  {
    s[..idx] + bytes + s[idx + |bytes|..]
  }

  /** Moving the tail back and writing into the gap splices. */
  lemma BufferSplice(s: seq<byte>, len: nat, idx: nat, bytes: seq<byte>)
    requires idx <= len && len + |bytes| <= |s|
    ensures Written(Written(s, idx + |bytes|, s[idx..len]), idx, bytes)[..len + |bytes|] == Splice(s[..len], idx, bytes)
  {
  }

  /** Moving the tail to the front cuts. */
  lemma BufferCut(s: seq<byte>, len: nat, idx: nat, n: nat)
    requires idx + n <= len <= |s|
    ensures Written(s, idx, s[idx + n..len])[..len - n] == Cut(s[..len], idx, n)
  {
  }

  class ByteString {
    const capacity: nat
    const data: array<byte>
    var len: nat

    /** The byte behind the last one is zero; behind a full buffer lies a terminator that is never
        written. */
    ghost predicate Valid()
      reads this, data
    {
      data.Length == capacity && 0 < capacity && len <= capacity && (len < capacity ==> data[len] == 0)
    }

    ghost function Bytes(): seq<byte>
      requires Valid()
      reads this, data
    {
      data[..len]
    }

    constructor (capacity: nat)
      requires capacity > 0
      ensures Valid() && fresh(data) && this.capacity == capacity && Bytes() == []
    {
      this.capacity := capacity;
      data := new byte[capacity](_ => 0);
      len := 0;
    }

    method Copy() returns (r: ByteString)
      requires Valid()
      ensures fresh(r) && fresh(r.data) && r.Valid() && r.capacity == capacity && r.Bytes() == Bytes()
    {
      r := new ByteString(capacity);
      forall i | 0 <= i < capacity {
        r.data[i] := data[i];
      }
      r.len := len;
    }

    /** The overlapping copy of a stretch of the buffer. */
    method Move(from: nat, end: nat, to: nat)
      requires from <= end <= data.Length && to + (end - from) <= data.Length
      modifies data
      ensures data[..] == Written(old(data[..]), to, old(data[..])[from..end])
    {
      forall i | 0 <= i < end - from {
        data[to + i] := data[from + i];
      }
    }

    method Write(idx: nat, bytes: seq<byte>)
      requires idx + |bytes| <= data.Length
      modifies data
      ensures data[..] == Written(old(data[..]), idx, bytes)
    {
      for i := 0 to |bytes|
        invariant forall k :: 0 <= k < i ==> data[idx + k] == bytes[k]
        invariant forall k :: 0 <= k < data.Length && !(idx <= k < idx + i) ==> data[k] == old(data[k])
      {
        data[idx + i] := bytes[i];
      }
    }

    method Terminate()
      requires data.Length == capacity && 0 < capacity && len <= capacity
      modifies data
      ensures Valid() && Bytes() == old(data[..len])
    {
      if len < capacity {
        data[len] := 0;
      }
    }

    method WriteIntoGap(idx: nat, bytes: seq<byte>)
      requires idx <= len && len + |bytes| <= data.Length
      modifies data
      ensures data[..len + |bytes|] == Splice(old(data[..len]), idx, bytes)
    {
      ghost var buffer := data[..];
      BufferSplice(buffer, len, idx, bytes);
      Move(idx, len, idx + |bytes|);
      assert data[..] == Written(buffer, idx + |bytes|, buffer[idx..len]);
      Write(idx, bytes);
      assert data[..len + |bytes|] == data[..][..len + |bytes|];
    }

    method CloseGap(idx: nat, n: nat)
      requires idx + n <= len <= data.Length
      modifies data
      ensures data[..len - n] == Cut(old(data[..len]), idx, n)
    {
      ghost var buffer := data[..];
      BufferCut(buffer, len, idx, n);
      Move(idx + n, len, idx);
      assert data[..] == Written(buffer, idx, buffer[idx + n..len]);
      assert data[..len - n] == data[..][..len - n];
    }

    /** An insertion at the end of a full string, which can only be empty, fails on the bounds check of its
        position. */
    method InsertBytesUnchecked(idx: nat, bytes: seq<byte>) returns (ok: bool)
      requires Valid() && idx <= len && len + |bytes| <= capacity
      modifies this`len, data
      ensures Valid()
      ensures ok <==> idx < capacity
      ensures Bytes() == if ok then Splice(old(Bytes()), idx, bytes) else old(Bytes())
    {
      if idx >= capacity {
        return false;
      }
      WriteIntoGap(idx, bytes);
      len := len + |bytes|;
      Terminate();
      return true;
    }

    method InsertBytes(idx: nat, bytes: seq<byte>) returns (r: Edit)
      requires Valid()
      modifies this`len, data
      ensures Valid()
      ensures r.Panicked? <==> idx > |old(Bytes())| || (idx == capacity && bytes == [])
      ensures r.ExceedsCapacity? <==> idx <= |old(Bytes())| && capacity < |old(Bytes())| + |bytes|
      ensures Bytes() == if r.Done? then Splice(old(Bytes()), idx, bytes) else old(Bytes())
    {
      if len < idx {
        return Panicked;
      }
      if capacity < len + |bytes| {
        return ExceedsCapacity;
      }
      var ok := InsertBytesUnchecked(idx, bytes);
      return if ok then Done else Panicked;
    }

    /** The end of the range is bounds-checked even if nothing is copied, and the terminator is written
        inside the buffer even if the string stays full. */
    method RemoveRangeImpl(idx: nat, n: nat) returns (ok: bool)
      requires Valid() && idx + n <= len
      modifies this`len, data
      ensures Valid()
      ensures ok <==> idx + n < capacity && |old(Bytes())| - n < capacity
      ensures Bytes() == if ok then Cut(old(Bytes()), idx, n) else old(Bytes())
    {
      if idx + n >= capacity {
        return false;
      }
      CloseGap(idx, n);
      len := len - n;
      if len >= capacity {
        return false;
      }
      Terminate();
      return true;
    }

    /** Removes a range, or panics: out of bounds, but also for any range that ends at the capacity and for
        an empty range of a full string. */
    method RemoveRange(idx: nat, n: nat) returns (ok: bool)
      requires Valid()
      modifies this`len, data
      ensures Valid()
      ensures ok <==> idx + n <= |old(Bytes())| && idx + n < capacity && |old(Bytes())| - n < capacity
      ensures Bytes() == if ok then Cut(old(Bytes()), idx, n) else old(Bytes())
    {
      if len < idx + n {
        return false;
      }
      ok := RemoveRangeImpl(idx, n);
    }

    /** The check admits the position behind the last byte; the length then underflows. */
    method Remove(idx: nat) returns (r: Option<byte>)
      requires Valid()
      modifies this`len, data
      ensures Valid()
      ensures r.Some? <==> idx < |old(Bytes())| && idx + 1 < capacity
      ensures r.Some? ==> r.value == old(Bytes())[idx]
      ensures Bytes() == if r.Some? then Cut(old(Bytes()), idx, 1) else old(Bytes())
    {
      if len < idx || capacity <= idx || len < idx + 1 {
        return None;
      }
      var removed := data[idx];
      var ok := RemoveRangeImpl(idx, 1);
      return if ok then Some(removed) else None;
    }

    /** Panics exactly on a full string. */
    method Pop() returns (r: Popped)
      requires Valid()
      modifies this`len, data
      ensures Valid()
      ensures r.Empty? <==> old(Bytes()) == []
      ensures r.PopPanicked? <==> |old(Bytes())| == capacity
      ensures r.Last? ==> old(Bytes()) == Bytes() + [r.value]
      ensures !r.Last? ==> Bytes() == old(Bytes())
    {
      if len == 0 {
        return Empty;
      }
      var removed := Remove(len - 1);
      return if removed.Some? then Last(removed.value) else PopPanicked;
    }

    /** Byte `idx` is looked at, when those behind it have left `done`. */
    method RetainByte<S>(f: (S, byte) -> (S, bool), state: S, idx: nat, ghost before: seq<byte>, ghost done: seq<byte>)
      returns (r: Option<S>, ghost rest: seq<byte>)
      requires Valid() && idx < |before| && Bytes() == before[..idx + 1] + done
      modifies this`len, data
      ensures Valid()
      ensures r.None? <==> f(state, before[idx]).1 && idx + 1 >= capacity
      ensures r.None? ==> Bytes() == old(Bytes())
      ensures r.Some? ==>
                && r.value == f(state, before[idx]).0 && Bytes() == before[..idx] + rest
                && Kept(before[..idx + 1], f, state).0 + done == Kept(before[..idx], f, r.value).0 + rest
                && Kept(before[..idx + 1], f, state).1 == Kept(before[..idx], f, r.value).1
    {
      assert data[idx] == Bytes()[idx] == before[idx];
      var answer := f(state, data[idx]);
      KeptStep(before, f, state, idx, done);
      rest := if answer.1 then done else [before[idx]] + done;
      if answer.1 {
        var removed := Remove(idx);
        if removed.None? {
          return None, rest;
        }
      }
      return Some(answer.0), rest;
    }

    /** Removes the bytes on which `f` is true, from the end to the front. Panics exactly if the last byte of a
        full string is to be removed. */
    method Retain<S>(f: (S, byte) -> (S, bool), start: S) returns (ok: bool, end: S)
      requires Valid()
      modifies this`len, data
      ensures Valid()
      ensures ok <==> !(|old(Bytes())| == capacity && f(start, old(Bytes())[capacity - 1]).1)
      ensures Bytes() == if ok then Kept(old(Bytes()), f, start).0 else old(Bytes())
      ensures ok ==> end == Kept(old(Bytes()), f, start).1
    {
      ghost var before := Bytes();
      var length := len;
      ok, end := true, start;
      ghost var done: seq<byte> := [];
      assert before[..length] == before && before + done == before;
      assert Kept(before, f, start).0 + done == Kept(before, f, start).0;
      for i := 0 to length
        invariant Valid() && length == |before| && Bytes() == before[..length - i] + done
        invariant Kept(before, f, start).0 == Kept(before[..length - i], f, end).0 + done
        invariant Kept(before, f, start).1 == Kept(before[..length - i], f, end).1
        invariant ok && (i == 0 ==> end == start && done == [])
        invariant i > 0 ==> !(|before| == capacity && f(start, before[capacity - 1]).1)
      {
        var answer: Option<S>;
        answer, done := RetainByte(f, end, length - i - 1, before, done);
        if answer.None? {
          return false, end;
        }
        end := answer.value;
      }
    }

    method Matches(i: nat, bytes: seq<byte>) returns (found: bool)
      requires Valid() && i + |bytes| <= len
      ensures found <==> OccursAt(Bytes(), bytes, i)
    {
      for n := 0 to |bytes|
        invariant forall k :: 0 <= k < n ==> Bytes()[i + k] == bytes[k]
      {
        if data[i + n] != bytes[n] {
          assert Bytes()[i..i + |bytes|][n] != bytes[n];
          return false;
        }
      }
      assert Bytes()[i..i + |bytes|] == bytes;
      return true;
    }

    /** The first occurrence. */
    method Find(bytes: seq<byte>) returns (r: Option<nat>)
      requires Valid()
      ensures r.Some? ==> OccursAt(Bytes(), bytes, r.value) && forall j: nat :: j < r.value ==> !OccursAt(Bytes(), bytes, j)
      ensures r.None? ==> forall j: nat :: !OccursAt(Bytes(), bytes, j)
    {
      if len < |bytes| {
        return None;
      }
      for i := 0 to len - |bytes| + 1
        invariant forall j: nat :: j < i ==> !OccursAt(Bytes(), bytes, j)
      {
        var found := Matches(i, bytes);
        if found {
          return Some(i);
        }
      }
      return None;
    }

    /** The last occurrence. */
    method RFind(bytes: seq<byte>) returns (r: Option<nat>)
      requires Valid()
      ensures r.Some? ==> OccursAt(Bytes(), bytes, r.value) && forall j: nat :: j > r.value ==> !OccursAt(Bytes(), bytes, j)
      ensures r.None? ==> forall j: nat :: !OccursAt(Bytes(), bytes, j)
    {
      if len < |bytes| {
        return None;
      }
      for i := len - |bytes| + 1 downto 0
        invariant forall j: nat :: j >= i ==> !OccursAt(Bytes(), bytes, j)
      {
        var found := Matches(i, bytes);
        if found {
          return Some(i);
        }
      }
      return None;
    }

    /** Panics exactly on a full string, if the prefix is empty or the whole. */
    method StripPrefix(bytes: seq<byte>) returns (r: Strip)
      requires Valid()
      modifies this`len, data
      ensures Valid()
      ensures r.NotFound? <==> !IsPrefix(old(Bytes()), bytes)
      ensures r.StripPanicked? <==>
                IsPrefix(old(Bytes()), bytes) && |old(Bytes())| == capacity && (bytes == [] || |bytes| == capacity)
      ensures Bytes() == if r.Stripped? then old(Bytes())[|bytes|..] else old(Bytes())
    {
      var found := Find(bytes);
      assert IsPrefix(Bytes(), bytes) <==> OccursAt(Bytes(), bytes, 0);
      if found == Some(0) {
        var ok := RemoveRange(0, |bytes|);
        return if ok then Stripped else StripPanicked;
      }
      return NotFound;
    }

    /** Panics exactly if the string is full and has the suffix, even an empty one. */
    method StripSuffix(bytes: seq<byte>) returns (r: Strip)
      requires Valid()
      modifies this`len, data
      ensures Valid()
      ensures r.NotFound? <==> !IsSuffix(old(Bytes()), bytes)
      ensures r.StripPanicked? <==> IsSuffix(old(Bytes()), bytes) && |old(Bytes())| == capacity
      ensures Bytes() == if r.Stripped? then old(Bytes())[..|old(Bytes())| - |bytes|] else old(Bytes())
    {
      if len < |bytes| {
        return NotFound;
      }
      var pos := len - |bytes|;
      var found := RFind(bytes);
      assert IsSuffix(Bytes(), bytes) <==> OccursAt(Bytes(), bytes, pos);
      if found == Some(pos) {
        var ok := RemoveRange(pos, |bytes|);
        return if ok then Stripped else StripPanicked;
      }
      return NotFound;
    }

    method Truncate(newLen: nat)
      requires Valid()
      modifies this`len, data
      ensures Valid()
      ensures Bytes() == if newLen <= |old(Bytes())| then old(Bytes())[..newLen] else old(Bytes())
    {
      if len < newLen {
        return;
      }
      len := newLen;
      Terminate();
    }
  }
}
