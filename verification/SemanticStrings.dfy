/** Strings with rules about their content, such as file names: every edit either yields legal content or
    reports an error and leaves the bytes as they were. */
module SemanticStrings {
  import opened Common
  import opened ByteStrings

  /** What a kind of string forbids. */
  datatype Rules = Rules(invalidContent: seq<byte> -> bool, invalidCharacter: byte -> bool)

  ghost predicate LegalCharacters(rules: Rules, s: seq<byte>) {
    forall c :: c in s ==> !rules.invalidCharacter(c)
  }

  ghost predicate Legal(rules: Rules, s: seq<byte>) {
    LegalCharacters(rules, s) && !rules.invalidContent(s)
  }

  /** `Unchanged` is the success of an operation that had nothing to do. */
  datatype Result = Changed | Unchanged | InvalidCharacter | InvalidName | ExceedsMaximumLength | Fatal

  /** The buffer for the stripped bytes in an error message holds no more than this. */
  const MESSAGE_CAPACITY := 123

  /** The outcome of inserting into legal content, case by case. */
  ghost function Insertion(rules: Rules, capacity: nat, s: seq<byte>, idx: nat, bytes: seq<byte>): Result {
    if !LegalCharacters(rules, bytes) then InvalidCharacter
    else if idx > |s| then Fatal
    else if capacity < |s| + |bytes| then ExceedsMaximumLength
    else if idx == capacity && bytes == [] then Fatal
    else if !rules.invalidContent(Splice(s, idx, bytes)) then Changed
    else if idx + |bytes| == capacity then Fatal
    else InvalidName
  }

  class SemanticString {
    const rules: Rules
    const text: ByteString

    /** Well-formed, and all characters are legal; a string under construction may still be empty. */
    ghost predicate Editable()
      reads this, text, text.data
    {
      text.Valid() && LegalCharacters(rules, text.Bytes())
    }

    ghost predicate Valid()
      reads this, text, text.data
    {
      text.Valid() && Legal(rules, text.Bytes())
    }

    ghost function Bytes(): seq<byte>
      requires text.Valid()
      reads this, text, text.data
    {
      text.Bytes()
    }

    constructor Empty(rules: Rules, capacity: nat)
      requires capacity > 0
      ensures fresh(text) && fresh(text.data) && this.rules == rules && text.capacity == capacity
      ensures Editable() && Bytes() == []
    {
      this.rules := rules;
      text := new ByteString(capacity);
    }

    constructor Copy(other: SemanticString)
      requires other.text.Valid()
      ensures fresh(text) && fresh(text.data) && rules == other.rules && text.capacity == other.text.capacity
      ensures text.Valid() && Bytes() == other.Bytes()
    {
      rules := other.rules;
      var copy := other.text.Copy();
      text := copy;
    }

    /** `new_unchecked`: the content is taken as it is. */
    constructor Unchecked(rules: Rules, capacity: nat, bytes: seq<byte>)
      requires capacity > 0 && |bytes| <= capacity
      ensures fresh(text) && fresh(text.data) && this.rules == rules && text.capacity == capacity
      ensures text.Valid() && Bytes() == bytes
    {
      this.rules := rules;
      var content := new ByteString(capacity);
      var inserted := content.InsertBytes(0, bytes);
      assert Splice([], 0, bytes) == bytes;
      text := content;
    }

    method DoesContainInvalidCharacters(bytes: seq<byte>) returns (r: bool)
      ensures r <==> !LegalCharacters(rules, bytes)
    {
      for i := 0 to |bytes|
        invariant LegalCharacters(rules, bytes[..i])
      {
        if rules.invalidCharacter(bytes[i]) {
          return true;
        }
      }
      assert bytes == bytes[..|bytes|];
      return false;
    }

    /** Inserts, and undoes the insertion if the content became illegal. The undo panics, with the illegal
        content in place, exactly if the inserted range ends at the capacity. */
    method InsertBytes(idx: nat, bytes: seq<byte>) returns (r: Result)
      requires Editable() && (Valid() || Bytes() == [])
      modifies text`len, text.data
      ensures text.Valid()
      ensures r == Insertion(rules, text.capacity, old(Bytes()), idx, bytes)
      ensures r.Changed? ==> Valid() && Bytes() == Splice(old(Bytes()), idx, bytes)
      ensures !r.Changed? && !r.Fatal? ==> Bytes() == old(Bytes())
      ensures r.Fatal? && Bytes() != old(Bytes()) ==>
                idx <= |old(Bytes())| && Bytes() == Splice(old(Bytes()), idx, bytes) && rules.invalidContent(Bytes())
    {
      var bad := DoesContainInvalidCharacters(bytes);
      if bad {
        return InvalidCharacter;
      }
      ghost var before := Bytes();
      assert idx <= |before| && bytes == [] ==> Splice(before, idx, bytes) == before;
      var inserted := text.InsertBytes(idx, bytes);
      if inserted.Panicked? {
        return Fatal;
      }
      if inserted.ExceedsCapacity? {
        return ExceedsMaximumLength;
      }
      r := KeepIfLegal(idx, bytes, before);
    }

    /** The second half of the insertion: `before` is the content that the bytes were inserted into. */
    method KeepIfLegal(idx: nat, bytes: seq<byte>, ghost before: seq<byte>) returns (r: Result)
      requires text.Valid() && idx <= |before| && |before| + |bytes| <= text.capacity
      requires Bytes() == Splice(before, idx, bytes)
      requires bytes == [] ==> before == [] || !rules.invalidContent(before)
      modifies text`len, text.data
      ensures text.Valid()
      ensures r.Changed? <==> !rules.invalidContent(Splice(before, idx, bytes))
      ensures r.InvalidName? <==> rules.invalidContent(Splice(before, idx, bytes)) && idx + |bytes| < text.capacity
      ensures r.Changed? || r.InvalidName? || r.Fatal?
      ensures Bytes() == if r.InvalidName? then before else Splice(before, idx, bytes)
    {
      assert text.data[..text.len] == Bytes();
      if rules.invalidContent(text.data[..text.len]) {
        CutSplice(before, idx, bytes);
        assert bytes == [] ==> Splice(before, idx, bytes) == before;
        var ok := text.RemoveRange(idx, |bytes|);
        return if ok then InvalidName else Fatal;
      }
      return Changed;
    }

    /** Removes, and puts the byte back if the content became illegal. */
    method Remove(idx: nat) returns (r: Result, value: byte)
      requires Valid()
      modifies text`len, text.data
      ensures Valid()
      ensures r.Fatal? <==> idx >= |old(Bytes())| || idx + 1 == text.capacity
      ensures r.Changed? ==> value == old(Bytes())[idx] && Bytes() == Cut(old(Bytes()), idx, 1)
      ensures !r.Changed? ==> Bytes() == old(Bytes())
      ensures r.InvalidName? <==> !r.Fatal? && rules.invalidContent(Cut(old(Bytes()), idx, 1))
      ensures r.Changed? || r.InvalidName? || r.Fatal?
    {
      ghost var before := Bytes();
      var removed := text.Remove(idx);
      if removed.None? {
        return Fatal, 0;
      }
      value := removed.value;
      assert text.data[..text.len] == Bytes();
      if rules.invalidContent(text.data[..text.len]) {
        SpliceCut(before, idx, 1);
        assert before[idx..idx + 1] == [value];
        var inserted := text.InsertBytes(idx, [value]);
        return InvalidName, value;
      }
      return Changed, value;
    }

    /** Removes the last byte; panics exactly on a full string. */
    method Pop() returns (r: Result, value: byte)
      requires Valid()
      modifies text`len, text.data
      ensures Valid()
      ensures r.Unchanged? <==> old(Bytes()) == []
      ensures r.Changed? ==> old(Bytes()) == Bytes() + [value]
      ensures !r.Changed? ==> Bytes() == old(Bytes())
      ensures r.Fatal? <==> |old(Bytes())| == text.capacity
      ensures r.InvalidName? <==>
                0 < |old(Bytes())| < text.capacity && rules.invalidContent(old(Bytes())[..|old(Bytes())| - 1])
    {
      if text.len == 0 {
        return Unchanged, 0;
      }
      ghost var before := Bytes();
      assert Cut(before, |before| - 1, 1) == before[..|before| - 1];
      r, value := Remove(text.len - 1);
    }

    /** Tries the removal on a copy first. */
    method RemoveRange(idx: nat, n: nat) returns (r: Result)
      requires Valid()
      modifies text`len, text.data
      ensures Valid()
      ensures r.Fatal? <==>
                idx + n > |old(Bytes())| || idx + n == text.capacity || (n == 0 && |old(Bytes())| == text.capacity)
      ensures r.Changed? ==> Bytes() == Cut(old(Bytes()), idx, n)
      ensures !r.Changed? ==> Bytes() == old(Bytes())
      ensures r.InvalidName? <==> !r.Fatal? && rules.invalidContent(Cut(old(Bytes()), idx, n))
      ensures r.Changed? || r.InvalidName? || r.Fatal?
    {
      var temp := text.Copy();
      var ok := temp.RemoveRange(idx, n);
      if !ok {
        return Fatal;
      }
      assert temp.data[..temp.len] == temp.Bytes();
      if rules.invalidContent(temp.data[..temp.len]) {
        return InvalidName;
      }
      ok := text.RemoveRange(idx, n);
      return Changed;
    }

    /** Removes the bytes on which `f` is true. The closure is tried on a copy first and then goes on, with the
        state in which that left it, to the string itself. */
    method Retain<S>(f: (S, byte) -> (S, bool), start: S) returns (r: Result)
      requires Valid()
      modifies text`len, text.data
      ensures Editable()
      ensures r.Fatal? <==> Spills(old(Bytes()), f, start)
                            || (!rules.invalidContent(Kept(old(Bytes()), f, start).0) && Spills(old(Bytes()), f, Kept(old(Bytes()), f, start).1))
      ensures r.InvalidName? <==> !Spills(old(Bytes()), f, start) && rules.invalidContent(Kept(old(Bytes()), f, start).0)
      ensures r.Changed? || r.InvalidName? || r.Fatal?
      ensures Bytes() == if r.Changed? then Kept(old(Bytes()), f, Kept(old(Bytes()), f, start).1).0 else old(Bytes())
    {
      var temp := text.Copy();
      var ok, next := temp.Retain(f, start);
      if !ok {
        return Fatal;
      }
      assert temp.data[..temp.len] == temp.Bytes();
      if rules.invalidContent(temp.data[..temp.len]) {
        return InvalidName;
      }
      KeptLegal(rules, Bytes(), f, next);
      var last;
      ok, last := text.Retain(f, next);
      return if ok then Changed else Fatal;
    }

    /** The last byte of a full string is to be removed, which fails on a bounds check. */
    ghost predicate Spills<S>(s: seq<byte>, f: (S, byte) -> (S, bool), state: S)
    {
      |s| == text.capacity && |s| > 0 && f(state, s[|s| - 1]).1
    }

    /** Removes a prefix, after trying it on a copy. */
    method StripPrefix(bytes: seq<byte>) returns (r: Result)
      requires text.Valid()
      modifies text`len, text.data
      ensures text.Valid() && (old(Valid()) ==> Valid())
      ensures r.Unchanged? <==> !IsPrefix(old(Bytes()), bytes)
      ensures r.Changed? <==> IsPrefix(old(Bytes()), bytes) && !Overrun(old(Bytes()), bytes) && !rules.invalidContent(old(Bytes())[|bytes|..])
      ensures r.InvalidName? <==>
                IsPrefix(old(Bytes()), bytes) && !Overrun(old(Bytes()), bytes) && rules.invalidContent(old(Bytes())[|bytes|..])
                && |bytes| <= MESSAGE_CAPACITY
      ensures r.Changed? || r.Unchanged? || r.InvalidName? || r.Fatal?
      ensures Bytes() == if r.Changed? then old(Bytes())[|bytes|..] else old(Bytes())
    {
      var temp := text.Copy();
      var stripped := temp.StripPrefix(bytes);
      if stripped.StripPanicked? {
        return Fatal;
      }
      if stripped.NotFound? {
        return Unchanged;
      }
      assert temp.data[..temp.len] == temp.Bytes();
      if rules.invalidContent(temp.data[..temp.len]) {
        return if |bytes| > MESSAGE_CAPACITY then Fatal else InvalidName;
      }
      stripped := text.StripPrefix(bytes);
      return Changed;
    }

    /** Stripping this prefix of a full string fails on a bounds check. */
    ghost predicate Overrun(s: seq<byte>, bytes: seq<byte>)
      reads this
    {
      |s| == text.capacity && (bytes == [] || |bytes| == text.capacity)
    }

    /** Removes a suffix, after trying it on a copy. */
    method StripSuffix(bytes: seq<byte>) returns (r: Result)
      requires text.Valid()
      modifies text`len, text.data
      ensures text.Valid() && (old(Valid()) ==> Valid())
      ensures r.Unchanged? <==> !IsSuffix(old(Bytes()), bytes)
      ensures r.Changed? <==>
                IsSuffix(old(Bytes()), bytes) && |old(Bytes())| < text.capacity
                && !rules.invalidContent(old(Bytes())[..|old(Bytes())| - |bytes|])
      ensures r.InvalidName? <==>
                IsSuffix(old(Bytes()), bytes) && |old(Bytes())| < text.capacity
                && rules.invalidContent(old(Bytes())[..|old(Bytes())| - |bytes|]) && |bytes| <= MESSAGE_CAPACITY
      ensures r.Changed? || r.Unchanged? || r.InvalidName? || r.Fatal?
      ensures Bytes() == if r.Changed? then old(Bytes())[..|old(Bytes())| - |bytes|] else old(Bytes())
    {
      var temp := text.Copy();
      var stripped := temp.StripSuffix(bytes);
      if stripped.StripPanicked? {
        return Fatal;
      }
      if stripped.NotFound? {
        return Unchanged;
      }
      assert temp.data[..temp.len] == temp.Bytes();
      if rules.invalidContent(temp.data[..temp.len]) {
        return if |bytes| > MESSAGE_CAPACITY then Fatal else InvalidName;
      }
      stripped := text.StripSuffix(bytes);
      return Changed;
    }

    method Truncate(newLen: nat) returns (r: Result)
      requires Valid()
      modifies text`len, text.data
      ensures Valid()
      ensures r.Changed? || r.InvalidName?
      ensures r.InvalidName? <==> newLen <= |old(Bytes())| && rules.invalidContent(old(Bytes())[..newLen])
      ensures Bytes() == if r.Changed? && newLen <= |old(Bytes())| then old(Bytes())[..newLen] else old(Bytes())
    {
      var temp := text.Copy();
      temp.Truncate(newLen);
      assert temp.data[..temp.len] == temp.Bytes();
      if rules.invalidContent(temp.data[..temp.len]) {
        return InvalidName;
      }
      text.Truncate(newLen);
      return Changed;
    }
  }

  lemma {:induction false} KeptLegal<S>(rules: Rules, s: seq<byte>, f: (S, byte) -> (S, bool), state: S)
    requires LegalCharacters(rules, s)
    ensures LegalCharacters(rules, Kept(s, f, state).0)
  {
    if |s| == 0 {
    } else {
      KeptLegal(rules, s[..|s| - 1], f, f(state, s[|s| - 1]).0);
    }
  }

  /** Whatever the rules, the content that the second pass leaves is legal if that of the first pass is. */
  ghost predicate SecondPassIsLegal<S(!new)>(s: seq<byte>, f: (S, byte) -> (S, bool), start: S) {
    var first := Kept(s, f, start);
    forall rules: Rules :: Legal(rules, s) && Legal(rules, first.0) ==> Legal(rules, Kept(s, f, first.1).0)
  }

  /** `retain` can leave illegal content, since only the first pass is checked. It cannot, whatever the rules,
      if and only if the second pass leaves the same as the first or removes nothing. */
  lemma RetainIsSafeIff<S(!new)>(s: seq<byte>, f: (S, byte) -> (S, bool), start: S)
    ensures var first := Kept(s, f, start);
            var second := Kept(s, f, first.1);
            SecondPassIsLegal(s, f, start) <==> second.0 == first.0 || second.0 == s
  {
    var first := Kept(s, f, start);
    var second := Kept(s, f, first.1);
    if second.0 != first.0 && second.0 != s {
      var rules := Rules(x => x == second.0, _ => false);
      assert Legal(rules, s) && Legal(rules, first.0) && !Legal(rules, second.0);
    }
  }

  /** With a closure whose answers do not depend on its state, both passes leave the bytes on which it is
      false. */
  lemma StatelessRetainIsSafe<S(!new)>(s: seq<byte>, f: (S, byte) -> (S, bool), g: byte -> bool, start: S)
    requires Stateless(f, g)
    ensures Kept(s, f, start).0 == Without(s, g) == Kept(s, f, Kept(s, f, start).1).0
    ensures SecondPassIsLegal(s, f, start)
  {
    StatelessKept(s, f, g, start);
    StatelessKept(s, f, g, Kept(s, f, start).1);
    RetainIsSafeIff(s, f, start);
  }

  /** A closure that removes everything from its second call on. */
  function FromSecondCall(calls: int, c: byte): (int, bool) {
    (calls + 1, calls > 0)
  }

  /** It empties a string of one byte, although the check has seen that byte kept. */
  lemma SecondPassCanEmpty(c: byte)
    ensures Kept([c], FromSecondCall, 0) == ([c], 1) && Kept([c], FromSecondCall, 1).0 == []
    ensures !SecondPassIsLegal([c], FromSecondCall, 0)
  {
    assert [c][..0] == [];
    assert Kept([c], FromSecondCall, 0).0 == [c];
    RetainIsSafeIff([c], FromSecondCall, 0);
  }

  /** Creating a string is an insertion into the empty one. */
  method New(rules: Rules, capacity: nat, value: seq<byte>) returns (r: Result, s: SemanticString)
    requires capacity > 0
    ensures fresh(s) && fresh(s.text) && fresh(s.text.data) && s.rules == rules && s.text.capacity == capacity
    ensures r.Changed? <==> Legal(rules, value) && |value| <= capacity
    ensures r.Changed? ==> s.Valid() && s.Bytes() == value
    ensures r.Fatal? <==> LegalCharacters(rules, value) && |value| == capacity && rules.invalidContent(value)
  {
    s := new SemanticString.Empty(rules, capacity);
    assert Splice([], 0, value) == value;
    r := s.InsertBytes(0, value);
  }
}
