/** Names of inter-process resources: a name becomes the file prefix + name + suffix in a directory, and is
    extracted from it again. */
module NamedConcept {
  import opened Common
  import opened ByteStrings
  import opened SemanticStrings

  const FILENAME_LENGTH := 255
  const PATH_LENGTH := 4096
  const PATH_SEPARATOR: byte := 47
  const DOT: byte := 46

  /** Characters that are forbidden in paths: control characters and `< > " | ? *`. */
  predicate InvalidInPath(c: byte): (r: bool)
    ensures r <==> c as char < ' ' || c as char in "<>\"|?*"
  {
    c <= 31 || c in {60, 62, 34, 124, 63, 42}
  }

  /** File names exclude the separators `/ : \` as well. */
  predicate InvalidInFileName(c: byte): (r: bool)
    ensures r <==> c as char < ' ' || c as char in "<>\"|?*/:\\"
  {
    InvalidInPath(c) || c == PATH_SEPARATOR || c == 58 || c == 92
  }

  predicate NotAFileName(s: seq<byte>) {
    s == [] || s == [DOT] || s == [DOT, DOT]
  }

  const FILE_NAME: Rules := Rules(NotAFileName, InvalidInFileName)
  const PATH: Rules := Rules(_ => false, InvalidInPath)

  ghost predicate IsFileName(s: seq<byte>) {
    Legal(FILE_NAME, s) && |s| <= FILENAME_LENGTH
  }

  /** A file name whose `retain` passed the check is illegal afterwards if and only if the second pass leaves
      nothing, `.` or `..`. */
  lemma FileNameAfterRetain<S>(s: seq<byte>, f: (S, byte) -> (S, bool), start: S)
    requires Legal(FILE_NAME, s)
    ensures var second := Kept(s, f, Kept(s, f, start).1).0;
            !Legal(FILE_NAME, second) <==> second == [] || second == [DOT] || second == [DOT, DOT]
  {
    KeptLegal(FILE_NAME, s, f, Kept(s, f, start).1);
  }

  datatype Extracted = Name(name: seq<byte>) | NoMatch | ExtractPanicked

  // ---------------------------------------------------------------- what can be extracted

  /** Of two file names, neither can be completed to a forbidden name by the other. */
  lemma Concatenation(a: seq<byte>, b: seq<byte>)
    requires !NotAFileName(a) && !NotAFileName(b)
    ensures !NotAFileName(a + b)
    ensures Legal(FILE_NAME, a) && Legal(FILE_NAME, b) ==> Legal(FILE_NAME, a + b)
  {
    assert |a| >= 1 && |b| >= 1;
    assert a[0] == (a + b)[0];
    assert a + b == [DOT, DOT] ==> a == [DOT];
  }

  /** The file name is made from a name. */
  ghost predicate MadeFrom(file: seq<byte>, prefix: seq<byte>, suffix: seq<byte>, name: seq<byte>) {
    file == prefix + name + suffix && !NotAFileName(name)
  }

  lemma MadeFromMiddle(file: seq<byte>, prefix: seq<byte>, suffix: seq<byte>, name: seq<byte>)
    requires file == prefix + name + suffix
    ensures IsPrefix(file, prefix) && file[|prefix|..] == name + suffix
    ensures IsSuffix(file[|prefix|..], suffix) && (name + suffix)[..|name|] == name
  {
  }

  /** Different names have different files. */
  lemma FilesDiffer(prefix: seq<byte>, suffix: seq<byte>, name: seq<byte>, other: seq<byte>)
    requires prefix + name + suffix == prefix + other + suffix
    ensures name == other
  {
    MadeFromMiddle(prefix + name + suffix, prefix, suffix, name);
    MadeFromMiddle(prefix + name + suffix, prefix, suffix, other);
  }

  /** What is extracted from a file name: stripping prefix and suffix must leave legal names. */
  ghost function Extraction(file: seq<byte>, prefix: seq<byte>, suffix: seq<byte>): Extracted {
    if !IsPrefix(file, prefix) then NoMatch
    else
      var rest := file[|prefix|..];
      if NotAFileName(rest) then ExtractPanicked
      else if !IsSuffix(rest, suffix) then NoMatch
      else
        var name := rest[..|rest| - |suffix|];
        if NotAFileName(name) then ExtractPanicked else Name(name)
  }

  /** Exactly the file names made from a name give that name. */
  lemma ExtractionInverts(file: seq<byte>, prefix: seq<byte>, suffix: seq<byte>, name: seq<byte>)
    requires !NotAFileName(suffix)
    ensures Extraction(file, prefix, suffix) == Name(name) <==> MadeFrom(file, prefix, suffix, name)
  {
    if MadeFrom(file, prefix, suffix, name) {
      MadeFromMiddle(file, prefix, suffix, name);
      Concatenation(name, suffix);
    }
    if Extraction(file, prefix, suffix) == Name(name) {
      assert file == prefix + file[|prefix|..];
      assert file[|prefix|..] == name + suffix;
    }
  }

  ghost predicate EndsWith(s: seq<byte>, suffix: seq<byte>) {
    exists rest :: s == rest + suffix
  }

  lemma EndsWithIff(s: seq<byte>, suffix: seq<byte>)
    ensures EndsWith(s, suffix) <==> IsSuffix(s, suffix)
  {
    if IsSuffix(s, suffix) {
      assert s == s[..|s| - |suffix|] + suffix;
    }
  }

  /** The file is of another kind: it lacks the prefix, or the legal name behind the prefix lacks the suffix. */
  ghost predicate Foreign(file: seq<byte>, prefix: seq<byte>, suffix: seq<byte>) {
    !(prefix <= file) || (!NotAFileName(file[|prefix|..]) && !EndsWith(file[|prefix|..], suffix))
  }

  /** Behind the prefix, or between prefix and suffix, there is nothing, `.` or `..`. */
  ghost predicate Incomplete(file: seq<byte>, prefix: seq<byte>, suffix: seq<byte>) {
    || (prefix <= file && NotAFileName(file[|prefix|..]))
    || exists name :: file == prefix + name + suffix && NotAFileName(name)
  }

  lemma ForeignIff(file: seq<byte>, prefix: seq<byte>, suffix: seq<byte>)
    ensures Extraction(file, prefix, suffix) == NoMatch <==> Foreign(file, prefix, suffix)
  {
    if prefix <= file {
      EndsWithIff(file[|prefix|..], suffix);
    }
  }

  lemma MiddleIs(file: seq<byte>, prefix: seq<byte>, suffix: seq<byte>, name: seq<byte>)
    requires prefix <= file
    ensures file == prefix + name + suffix <==> file[|prefix|..] == name + suffix
  {
    assert file == prefix + file[|prefix|..];
    assert prefix + (name + suffix) == prefix + name + suffix;
  }

  lemma IncompleteIff(file: seq<byte>, prefix: seq<byte>, suffix: seq<byte>)
    ensures Extraction(file, prefix, suffix) == ExtractPanicked <==> Incomplete(file, prefix, suffix)
  {
    if prefix <= file {
      var rest := file[|prefix|..];
      if IsSuffix(rest, suffix) {
        var name := rest[..|rest| - |suffix|];
        assert rest == name + suffix;
        MiddleIs(file, prefix, suffix, name);
      }
      forall name | file == prefix + name + suffix ensures IsSuffix(rest, suffix) && name == rest[..|rest| - |suffix|] {
        MiddleIs(file, prefix, suffix, name);
      }
    } else {
      forall name ensures file != prefix + name + suffix {
        assert prefix <= prefix + name + suffix;
      }
    }
  }

  /** Both strips succeed or fail as the contents say; a nonempty prefix leaves room, so that no bounds check
      fails besides. */
  method ExtractNameFromFile(prefix: seq<byte>, suffix: seq<byte>, value: SemanticString) returns (r: Extracted)
    requires value.text.Valid() && value.rules == FILE_NAME && value.text.capacity == FILENAME_LENGTH
    requires IsFileName(prefix) && IsFileName(suffix)
    ensures r == Extraction(value.Bytes(), prefix, suffix)
    ensures forall name :: r == Name(name) <==> MadeFrom(value.Bytes(), prefix, suffix, name)
    ensures r == NoMatch <==> Foreign(value.Bytes(), prefix, suffix)
    ensures r == ExtractPanicked <==> Incomplete(value.Bytes(), prefix, suffix)
  {
    r := StripBoth(prefix, suffix, value);
    ForeignIff(value.Bytes(), prefix, suffix);
    IncompleteIff(value.Bytes(), prefix, suffix);
    forall name ensures r == Name(name) <==> MadeFrom(value.Bytes(), prefix, suffix, name) {
      ExtractionInverts(value.Bytes(), prefix, suffix, name);
    }
  }

  method StripBoth(prefix: seq<byte>, suffix: seq<byte>, value: SemanticString) returns (r: Extracted)
    requires value.text.Valid() && value.rules == FILE_NAME && value.text.capacity == FILENAME_LENGTH
    requires prefix != []
    ensures r == Extraction(value.Bytes(), prefix, suffix)
  {
    var file := new SemanticString.Copy(value);
    var stripped := file.StripPrefix(prefix);
    if stripped.Unchanged? {
      return NoMatch;
    }
    if !stripped.Changed? {
      return ExtractPanicked;
    }
    stripped := file.StripSuffix(suffix);
    if stripped.Unchanged? {
      return NoMatch;
    }
    if !stripped.Changed? {
      return ExtractPanicked;
    }
    r := Name(file.text.data[..file.text.len]);
  }

  // ---------------------------------------------------------------- paths

  /** A file name can follow: nothing or a separator is before it. */
  ghost predicate TakesEntry(path: seq<byte>) {
    path == [] || path[|path| - 1] == PATH_SEPARATOR
  }

  /** The directory with the separator that `add_path_entry` adds, which it does only if it must. */
  function Directory(hint: seq<byte>): (r: seq<byte>)
    ensures hint <= r && TakesEntry(r)
    ensures forall other :: hint <= other && TakesEntry(other) ==> |r| <= |other|
  {
    if hint != [] && hint[|hint| - 1] != PATH_SEPARATOR then hint + [PATH_SEPARATOR] else hint
  }

  lemma PathCharacters(s: seq<byte>)
    requires LegalCharacters(FILE_NAME, s)
    ensures LegalCharacters(PATH, s)
  {
  }

  method Append(path: SemanticString, bytes: seq<byte>) returns (ok: bool)
    requires path.Valid() && path.rules == PATH && LegalCharacters(PATH, bytes) && bytes != []
    modifies path.text`len, path.text.data
    ensures path.Valid()
    ensures ok <==> |old(path.Bytes())| + |bytes| <= path.text.capacity
    ensures path.Bytes() == if ok then old(path.Bytes()) + bytes else old(path.Bytes())
  {
    ghost var before := path.Bytes();
    assert Splice(before, |before|, bytes) == before + bytes;
    var pushed := path.InsertBytes(path.text.len, bytes);
    ok := pushed.Changed?;
  }

  method AddPathEntry(path: SemanticString, entry: seq<byte>) returns (ok: bool)
    requires path.Valid() && path.rules == PATH && LegalCharacters(PATH, entry) && entry != []
    modifies path.text`len, path.text.data
    ensures path.Valid()
    ensures ok <==> |Directory(old(path.Bytes()))| + |entry| <= path.text.capacity
    ensures ok ==> path.Bytes() == Directory(old(path.Bytes())) + entry
    ensures !ok ==>
              path.Bytes() == (if |Directory(old(path.Bytes()))| <= path.text.capacity then Directory(old(path.Bytes()))
                               else old(path.Bytes()))
  {
    ghost var before := path.Bytes();
    if path.text.len != 0 && path.text.data[path.text.len - 1] != PATH_SEPARATOR {
      assert before[|before| - 1] != PATH_SEPARATOR;
      ok := Append(path, [PATH_SEPARATOR]);
      if !ok {
        return;
      }
    }
    assert path.Bytes() == Directory(before);
    ok := Append(path, entry);
  }

  lemma Regroup(a: seq<byte>, b: seq<byte>, c: seq<byte>, d: seq<byte>)
    ensures a + b + c + d == a + (b + c + d)
  {
  }

  /** `None` stands for the panic on a path that is too long. */
  method PathFor(hint: SemanticString, prefix: seq<byte>, suffix: seq<byte>, name: seq<byte>) returns (r: Option<seq<byte>>)
    requires hint.Valid() && hint.rules == PATH && hint.text.capacity == PATH_LENGTH
    requires IsFileName(prefix) && IsFileName(suffix) && IsFileName(name)
    ensures r.Some? <==> |Directory(hint.Bytes())| + |prefix| + |name| + |suffix| <= PATH_LENGTH
    ensures r.Some? ==> r.value == PathMade(hint.Bytes(), prefix, suffix, name)
  {
    ghost var directory := Directory(hint.Bytes());
    PathCharacters(prefix);
    PathCharacters(suffix);
    PathCharacters(name);
    var path := new SemanticString.Copy(hint);
    var ok := AddPathEntry(path, prefix);
    if !ok {
      return None;
    }
    ok := Append(path, name);
    if !ok {
      return None;
    }
    ok := Append(path, suffix);
    if !ok {
      return None;
    }
    Regroup(directory, prefix, name, suffix);
    return Some(path.text.data[..path.text.len]);
  }

  /** The part of a path behind the last separator. */
  function FileNameOf(path: seq<byte>): (r: seq<byte>)
    ensures |r| <= |path|
  {
    if |path| == 0 || path[|path| - 1] == PATH_SEPARATOR then []
    else FileNameOf(path[..|path| - 1]) + [path[|path| - 1]]
  }

  lemma {:induction false} FileNameBehind(directory: seq<byte>, file: seq<byte>)
    requires directory == [] || directory[|directory| - 1] == PATH_SEPARATOR
    requires PATH_SEPARATOR !in file
    ensures FileNameOf(directory + file) == file
    decreases |file|
  {
    var path := directory + file;
    if file == [] {
      assert path == directory;
    } else {
      var shorter := file[..|file| - 1];
      assert path[..|path| - 1] == directory + shorter;
      FileNameBehind(directory, shorter);
      assert file == shorter + [file[|file| - 1]];
    }
  }

  /** The part before it, without the separator unless that is all. */
  function PathOf(path: seq<byte>): seq<byte> {
    Shortened(path[..|path| - |FileNameOf(path)|])
  }

  function Shortened(directory: seq<byte>): seq<byte> {
    if |directory| <= 1 then directory else directory[..|directory| - 1]
  }

  // ---------------------------------------------------------------- comparison of paths

  /** Separators that follow another one are left out. */
  function Squeezed(s: seq<byte>): seq<byte> {
    if |s| <= 1 then s
    else if s[|s| - 1] == PATH_SEPARATOR && s[|s| - 2] == PATH_SEPARATOR then Squeezed(s[..|s| - 1])
    else Squeezed(s[..|s| - 1]) + [s[|s| - 1]]
  }

  function WithoutTrailing(s: seq<byte>): seq<byte> {
    if |s| > 0 && s[|s| - 1] == PATH_SEPARATOR then s[..|s| - 1] else s
  }

  function Normalized(s: seq<byte>): seq<byte> {
    Squeezed(WithoutTrailing(s))
  }

  lemma SqueezeNext(s: seq<byte>, i: nat)
    requires i < |s|
    ensures Squeezed(s[..i + 1]) ==
            if i > 0 && s[i - 1] == PATH_SEPARATOR && s[i] == PATH_SEPARATOR then Squeezed(s[..i]) else Squeezed(s[..i]) + [s[i]]
  {
    assert s[..i + 1][..i] == s[..i];
  }

  ghost predicate NoDoubles(s: seq<byte>) {
    forall i :: 0 < i < |s| ==> s[i - 1] != PATH_SEPARATOR || s[i] != PATH_SEPARATOR
  }

  /** Nothing is left out of a path without double separators. */
  lemma {:induction false} SqueezedFixed(s: seq<byte>)
    requires NoDoubles(s)
    ensures Squeezed(s) == s
  {
    if |s| <= 1 {
    } else {
      SqueezedFixed(s[..|s| - 1]);
      assert s == s[..|s| - 1] + [s[|s| - 1]];
    }
  }

  /** Of two adjacent separators one makes no difference, wherever they are. */
  lemma {:induction false} SqueezedDouble(a: seq<byte>, b: seq<byte>)
    ensures Squeezed(a + [PATH_SEPARATOR, PATH_SEPARATOR] + b) == Squeezed(a + [PATH_SEPARATOR] + b)
  {
    var two, one := a + [PATH_SEPARATOR, PATH_SEPARATOR] + b, a + [PATH_SEPARATOR] + b;
    if |b| == 0 {
      assert two[..|two| - 1] == one;
    } else {
      var shorter := b[..|b| - 1];
      assert two[..|two| - 1] == a + [PATH_SEPARATOR, PATH_SEPARATOR] + shorter;
      assert one[..|one| - 1] == a + [PATH_SEPARATOR] + shorter;
      SqueezedDouble(a, shorter);
    }
  }

  method NewNormalized(value: seq<byte>) returns (r: seq<byte>)
    requires |value| <= PATH_LENGTH
    ensures r == Normalized(value)
  {
    var raw := new byte[PATH_LENGTH](_ => 0);
    var previousIsSeparator := false;
    var n := 0;
    for i := 0 to |value|
      invariant n <= i && raw[..n] == Squeezed(value[..i])
      invariant previousIsSeparator == (i > 0 && value[i - 1] == PATH_SEPARATOR)
      invariant i == |value| ==> !previousIsSeparator
    {
      if i + 1 == |value| && value[i] == PATH_SEPARATOR {
        return raw[..n];
      }
      SqueezeNext(value, i);
      if !(previousIsSeparator && value[i] == PATH_SEPARATOR) {
        raw[n] := value[i];
        n := n + 1;
        assert raw[..n] == raw[..n - 1] + [value[i]];
      }
      previousIsSeparator := value[i] == PATH_SEPARATOR;
    }
    assert value[..|value|] == value;
    return raw[..n];
  }

  /** The comparison of a path with bytes; both sides have legal characters, so normalising cannot fail. */
  method SamePath(left: seq<byte>, right: seq<byte>) returns (same: bool)
    requires |left| <= PATH_LENGTH && |right| <= PATH_LENGTH
    ensures same <==> Normalized(left) == Normalized(right)
  {
    var l := NewNormalized(left);
    var r := NewNormalized(right);
    return l == r;
  }

  method RFindSeparator(path: seq<byte>) returns (r: Option<nat>)
    ensures r.None? <==> PATH_SEPARATOR !in path
    ensures r.Some? ==> r.value < |path| && path[r.value] == PATH_SEPARATOR && PATH_SEPARATOR !in path[r.value + 1..]
  {
    for i := 0 to |path|
      invariant PATH_SEPARATOR !in path[|path| - i..]
    {
      var pos := |path| - 1 - i;
      if path[pos] == PATH_SEPARATOR {
        return Some(pos);
      }
      assert path[pos..] == [path[pos]] + path[pos + 1..];
    }
    assert path[0..] == path;
    return None;
  }

  lemma SplitAt(path: seq<byte>, n: nat)
    requires n <= |path| && PATH_SEPARATOR !in path[n..] && (n > 0 ==> path[n - 1] == PATH_SEPARATOR)
    ensures FileNameOf(path) == path[n..] && PathOf(path) == Shortened(path[..n])
  {
    assert path == path[..n] + path[n..];
    FileNameBehind(path[..n], path[n..]);
    DirectoryBefore(path[..n], path[n..]);
  }

  /** `path` and `file_name` of a file path. */
  method SplitPath(path: seq<byte>) returns (directory: seq<byte>, file: seq<byte>)
    ensures file == FileNameOf(path) && directory == PathOf(path)
  {
    var pos := RFindSeparator(path);
    if pos.Some? {
      SplitAt(path, pos.value + 1);
      file := path[pos.value + 1..];
      directory := if pos.value == 0 then path[..1] else path[..pos.value];
      assert directory == Shortened(path[..pos.value + 1]);
    } else {
      SplitAt(path, 0);
      directory, file := [], path;
    }
  }

  /** Only paths into the configured directory, up to normalisation, are looked at; a file name that is too
      long is fatal. */
  ghost function PathExtraction(hint: seq<byte>, prefix: seq<byte>, suffix: seq<byte>, path: seq<byte>): Extracted {
    if Normalized(hint) != Normalized(PathOf(path)) then NoMatch
    else if |FileNameOf(path)| > FILENAME_LENGTH then ExtractPanicked
    else Extraction(FileNameOf(path), prefix, suffix)
  }

  method ExtractNameFromPath(hint: seq<byte>, prefix: seq<byte>, suffix: seq<byte>, path: seq<byte>) returns (r: Extracted)
    requires |hint| <= PATH_LENGTH && |path| <= PATH_LENGTH && IsFileName(prefix) && IsFileName(suffix)
    ensures r == PathExtraction(hint, prefix, suffix, path)
  {
    var directory, file := SplitPath(path);
    var same := SamePath(hint, directory);
    if !same {
      return NoMatch;
    }
    if |file| > FILENAME_LENGTH {
      return ExtractPanicked;
    }
    var value := new SemanticString.Unchecked(FILE_NAME, FILENAME_LENGTH, file);
    r := StripBoth(prefix, suffix, value);
  }

  // ---------------------------------------------------------------- round trip

  /** How many separators a path ends with. */
  function Trailing(s: seq<byte>): nat {
    if |s| > 0 && s[|s| - 1] == PATH_SEPARATOR then 1 + Trailing(s[..|s| - 1]) else 0
  }

  /** Squeezing keeps a last separator exactly if none precedes it. */
  lemma SqueezeSeparator(z: seq<byte>)
    ensures Squeezed(z + [PATH_SEPARATOR]) == if Trailing(z) > 0 then Squeezed(z) else Squeezed(z) + [PATH_SEPARATOR]
  {
    var y := z + [PATH_SEPARATOR];
    assert y[..|y| - 1] == z;
    if |z| == 0 {
      assert Squeezed(z) + [PATH_SEPARATOR] == y;
    } else {
      assert y[|y| - 2] == z[|z| - 1];
    }
  }

  /** Leaving out a last separator changes what normalisation gives exactly if it is the last of two. */
  lemma DropSeparator(y: seq<byte>)
    ensures Normalized(y) == Normalized(y + [PATH_SEPARATOR]) <==> Trailing(y) != 1
  {
    assert WithoutTrailing(y + [PATH_SEPARATOR]) == y;
    if Trailing(y) > 0 {
      var z := y[..|y| - 1];
      assert y == z + [PATH_SEPARATOR];
      SqueezeSeparator(z);
    }
  }

  /** The directory of a path into a hint is recognised as the hint if and only if the hint does not end with
      exactly two separators. */
  lemma DirectoryIsRecognised(hint: seq<byte>)
    ensures Normalized(Shortened(Directory(hint))) == Normalized(hint) <==> Trailing(hint) != 2
  {
    if Trailing(hint) == 0 {
      assert hint != [] ==> Directory(hint)[..|hint|] == hint;
    } else if |hint| > 1 {
      var y := hint[..|hint| - 1];
      assert hint == y + [PATH_SEPARATOR];
      DropSeparator(y);
    }
  }

  lemma FileIsRecognised(directory: seq<byte>, prefix: seq<byte>, suffix: seq<byte>, name: seq<byte>)
    requires IsFileName(prefix) && IsFileName(suffix) && IsFileName(name)
    requires directory == [] || directory[|directory| - 1] == PATH_SEPARATOR
    ensures var file := prefix + name + suffix;
            && FileNameOf(directory + file) == file && Legal(FILE_NAME, file)
            && Extraction(file, prefix, suffix) == Name(name)
  {
    var file := prefix + name + suffix;
    Concatenation(prefix, name);
    Concatenation(prefix + name, suffix);
    ExtractionInverts(file, prefix, suffix, name);
    assert FILE_NAME.invalidCharacter(PATH_SEPARATOR);
    FileNameBehind(directory, file);
  }

  /** The path that `path_for` makes for a name. */
  function PathMade(hint: seq<byte>, prefix: seq<byte>, suffix: seq<byte>, name: seq<byte>): seq<byte> {
    Directory(hint) + (prefix + name + suffix)
  }

  /** Extracting from the path of a name gives the name back if and only if the path hint does not end with
      exactly two separators and prefix, name and suffix together are no longer than a file name. Otherwise
      the directory is not recognised, or the file name panics. */
  lemma PathRoundTrip(hint: seq<byte>, prefix: seq<byte>, suffix: seq<byte>, name: seq<byte>)
    requires IsFileName(prefix) && IsFileName(suffix) && IsFileName(name)
    ensures PathExtraction(hint, prefix, suffix, PathMade(hint, prefix, suffix, name)) == Name(name)
            <==> Trailing(hint) != 2 && |prefix| + |name| + |suffix| <= FILENAME_LENGTH
    ensures PathExtraction(hint, prefix, suffix, PathMade(hint, prefix, suffix, name)) == NoMatch
            <==> Trailing(hint) == 2
    ensures PathExtraction(hint, prefix, suffix, PathMade(hint, prefix, suffix, name)) == ExtractPanicked
            <==> Trailing(hint) != 2 && |prefix| + |name| + |suffix| > FILENAME_LENGTH
  {
    FileIsRecognised(Directory(hint), prefix, suffix, name);
    DirectoryIsRecognised(hint);
    DirectoryBefore(Directory(hint), prefix + name + suffix);
  }

  function Repeated(c: byte, n: nat): (r: seq<byte>)
    ensures |r| == n && forall x :: x in r ==> x == c
  {
    seq(n, _ => c)
  }

  /** A path hint of two separators: the name is not found again. */
  lemma DoubleSeparatorLosesName(c: byte)
    requires !FILE_NAME.invalidCharacter(c) && c != DOT
    ensures var hint := [PATH_SEPARATOR, PATH_SEPARATOR];
            PathExtraction(hint, [c], [c], PathMade(hint, [c], [c], [c])) == NoMatch
  {
    var hint := [PATH_SEPARATOR, PATH_SEPARATOR];
    assert hint[..1] == [PATH_SEPARATOR] && hint[..1][..0] == [];
    assert Trailing(hint[..1]) == 1;
    PathRoundTrip(hint, [c], [c], [c]);
  }

  /** Prefix, name and suffix of 100 bytes each, without a path hint: extracting panics. */
  lemma LongNamePanics(c: byte)
    requires !FILE_NAME.invalidCharacter(c)
    ensures var name := Repeated(c, 100);
            PathExtraction([], name, name, PathMade([], name, name, name)) == ExtractPanicked
  {
    PathRoundTrip([], Repeated(c, 100), Repeated(c, 100), Repeated(c, 100));
  }

  lemma DirectoryBefore(directory: seq<byte>, file: seq<byte>)
    requires FileNameOf(directory + file) == file
    ensures PathOf(directory + file) == Shortened(directory)
  {
    var path := directory + file;
    assert path[..|path| - |file|] == directory;
  }
}
