/** The arithmetic helpers: alignment, powers of two and base-64 digits. */
module Math {
  import opened Common
  import opened Bits

  /** The least multiple of `alignment` that is not below `value`. */
  function Align(value: nat, alignment: nat): (r: nat)
    requires alignment > 0
    ensures value <= r < value + alignment
    ensures r % alignment == 0
    ensures value % alignment == 0 ==> r == value
  {
    if value % alignment == 0 then value
    else
      assert (value + alignment - value % alignment) % alignment == 0 by {
        Divide(value / alignment + 1, 0, alignment);
      }
      value + alignment - value % alignment
  }

  lemma AlignIsLeast(value: nat, alignment: nat, m: nat)
    requires alignment > 0 && value <= m && m % alignment == 0
    ensures Align(value, alignment) <= m
  {
    if m < Align(value, alignment) {
      ModDiffers(m, Align(value, alignment), alignment);
    }
  }

  // ---------------------------------------------------------------- powers of two

  /** The index of the highest bit; 0 has none and gives 0. */
  method Log2OfPowerOf2(value: nat) returns (r: nat)
    requires value < Pow2(64)
    ensures value == 0 ==> r == 0
    ensures value > 0 ==> Pow2(r) <= value < Pow2(r + 1)
    ensures forall k: nat :: value == Pow2(k) ==> r == k
  {
    var bits := value;
    var i := 0;
    while i < 64
      invariant i <= 64
      invariant value > 0 ==> bits > 0 && bits * Pow2(i) <= value < (bits + 1) * Pow2(i) && bits < Pow2(64 - i)
      invariant value == 0 ==> bits == 0
    {
      if bits == 1 {
        forall k: nat | value == Pow2(k) ensures i == k {
          ExponentIsUnique(value, i, k);
        }
        return i;
      }
      if value > 0 {
        HalfStep(value, bits, i);
      }
      bits := ShiftRight(bits, 1);
      i := i + 1;
    }
    return 0;
  }

  lemma HalfStep(value: nat, bits: nat, i: nat)
    requires bits > 1 && bits * Pow2(i) <= value < (bits + 1) * Pow2(i) && i < 64 && bits < Pow2(64 - i)
    ensures ShiftRight(bits, 1) == bits / 2
    ensures bits / 2 * Pow2(i + 1) <= value < (bits / 2 + 1) * Pow2(i + 1) && bits / 2 < Pow2(64 - i - 1)
  {
    assert Pow2(1) == 2;
    var p := Pow2(i);
    Associates(bits / 2, 2, p);
    Associates(bits / 2 + 1, 2, p);
    MulMonotone(p, 2 * (bits / 2), bits);
    MulMonotone(p, bits + 1, 2 * (bits / 2 + 1));
  }

  lemma ExponentIsUnique(value: nat, i: nat, k: nat)
    requires Pow2(i) <= value < 2 * Pow2(i) && value == Pow2(k)
    ensures i == k
  {
    if i < k {
      Pow2Monotone(i, k);
    } else if k < i {
      Pow2Monotone(k, i);
    }
  }

  /** The `m` bits below position `k` are set. */
  ghost predicate Ones(x: nat, k: nat, m: nat) {
    forall i: nat :: k <= i + m && i < k ==> Bit(x, i)
  }

  lemma ShiftSmaller(x: nat, p: nat)
    requires p > 0
    ensures x / p <= x
  {
    MulMonotone(x / p, 1, p);
    assert x == p * (x / p) + x % p;
  }

  /** Or-ing a number with itself shifted doubles the run of ones at its top. */
  lemma Smear(x: nat, k: nat, m: nat)
    requires x < Pow2(k) && Ones(x, k, m)
    ensures Or(x, ShiftRight(x, m)) < Pow2(k) && Ones(Or(x, ShiftRight(x, m)), k, 2 * m)
  {
    var y := ShiftRight(x, m);
    ShiftSmaller(x, Pow2(m));
    OrBound(x, y, k);
    forall i: nat | k <= i + 2 * m && i < k ensures Bit(Or(x, y), i) {
      OrBit(x, y, i);
      ShiftBit(x, m, i);
    }
  }

  /** The cascade of shifts: all bits below the highest one are set. */
  method FillOnes(value: nat, ghost k: nat) returns (v: nat)
    requires value < Pow2(k) && k <= 64 && (k > 0 ==> Pow2(k - 1) <= value)
    ensures v == Pow2(k) - 1
  {
    v := value;
    if k > 0 {
      TopBit(v, k);
    }
    Smear(v, k, 1);
    v := Or(v, ShiftRight(v, 1));
    Smear(v, k, 2);
    v := Or(v, ShiftRight(v, 2));
    Smear(v, k, 4);
    v := Or(v, ShiftRight(v, 4));
    Smear(v, k, 8);
    v := Or(v, ShiftRight(v, 8));
    Smear(v, k, 16);
    v := Or(v, ShiftRight(v, 16));
    Smear(v, k, 32);
    v := Or(v, ShiftRight(v, 32));
    AllOnes(v, k);
  }

  /** The least power of two not below `value`, or `None` where the 64-bit arithmetic overflows. */
  method RoundToPow2(value: nat) returns (r: Option<nat>)
    requires value < Pow2(64)
    ensures r.None? <==> value == 0 || value > Pow2(63)
    ensures r.Some? ==> (exists k: nat :: k < 64 && r.value == Pow2(k)) && value <= r.value
    ensures r.Some? ==> forall j: nat :: value <= Pow2(j) ==> r.value <= Pow2(j)
  {
    if value == 0 {
      return None;
    }
    var v := value - 1;
    ghost var k := 0;
    if v > 0 {
      k := BitLength(v, 64);
    }
    v := FillOnes(v, k);
    LeastPower(value, k);
    if v == Pow2(64) - 1 {
      return None;
    }
    return Some(v + 1);
  }

  lemma LeastPower(value: nat, k: nat)
    requires 0 < value <= Pow2(k) && k <= 64 && (k > 0 ==> value > Pow2(k - 1))
    ensures forall j: nat :: value <= Pow2(j) ==> Pow2(k) <= Pow2(j)
    ensures k == 64 <==> Pow2(k) == Pow2(64)
    ensures k == 64 <==> value > Pow2(63)
  {
    forall j: nat | value <= Pow2(j) ensures Pow2(k) <= Pow2(j) {
      if j < k - 1 {
        Pow2Monotone(j, k - 1);
      } else if k < j {
        Pow2Monotone(k, j);
      }
    }
    if k < 64 {
      Pow2Monotone(k, 64);
    }
  }

  // ---------------------------------------------------------------- base 64

  function DigitChar(value: nat): char
    requires value < 64
  {
    if value < 10 then (48 + value) as char
    else if value < 26 + 10 then (65 + value - 10) as char
    else if value < 62 then (97 + value - 10 - 26) as char
    else if value == 62 then 45 as char
    else 95 as char
  }

  predicate IsDigit(c: char) {
    '0' <= c <= '9' || 'A' <= c <= 'Z' || 'a' <= c <= 'z' || c == '-' || c == '_'
  }

  /** The value of a digit, for the characters that are digits. */
  function DigitValue(c: char): nat {
    if '0' <= c <= '9' then c as nat - 48
    else if 'A' <= c <= 'Z' then c as nat - 65 + 10
    else if 'a' <= c <= 'z' then c as nat - 97 + 36
    else if c == '-' then 62
    else 63
  }

  /** The number whose digits are `s`, the least significant one first. */
  function Decode(s: string): nat {
    if |s| == 0 then 0 else DigitValue(s[0]) + 64 * Decode(s[1..])
  }

  function Pow64(k: nat): (r: nat)
    ensures r > 0
  {
    if k == 0 then 1 else 64 * Pow64(k - 1)
  }

  lemma {:induction false} DecodeAppend(s: string, c: char)
    ensures Decode(s + [c]) == Decode(s) + Pow64(|s|) * DigitValue(c)
  {
    if |s| == 0 {
      assert s + [c] == [c];
    } else {
      assert (s + [c])[1..] == s[1..] + [c];
      DecodeAppend(s[1..], c);
      Scale(Pow64(|s| - 1), DigitValue(c));
    }
  }

  lemma Scale(p: nat, d: nat)
    ensures 64 * (p * d) == 64 * p * d
  {
  }

  /** Digits without superfluous zeros at the end. */
  ghost predicate IsNumeral(s: string) {
    && |s| >= 1 && (forall i :: 0 <= i < |s| ==> IsDigit(s[i]))
    && (|s| > 1 ==> s[|s| - 1] != '0')
  }

  lemma {:induction false} NumeralPositive(s: string)
    requires |s| > 0 && (forall i :: 0 <= i < |s| ==> IsDigit(s[i])) && s[|s| - 1] != '0'
    ensures Decode(s) > 0
  {
    if |s| == 1 {
      assert IsDigit(s[0]);
    } else {
      NumeralPositive(s[1..]);
    }
  }

  /** A number has exactly one numeral. */
  lemma {:induction false} NumeralIsUnique(s: string, t: string)
    requires IsNumeral(s) && IsNumeral(t) && Decode(s) == Decode(t)
    ensures s == t
    decreases |s|
  {
    assert IsDigit(s[0]) && IsDigit(t[0]);
    assert Decode(s[1..]) == Decode(t[1..]);
    assert s == [s[0]] + s[1..] && t == [t[0]] + t[1..];
    if |s| > 1 {
      NumeralPositive(s[1..]);
    }
    if |t| > 1 {
      NumeralPositive(t[1..]);
    }
    if |s| > 1 {
      NumeralIsUnique(s[1..], t[1..]);
    }
  }

  /** `s` are the low digits of `value`, and `quotient` is what remains above them. */
  ghost predicate Converted(value: nat, s: string, quotient: nat) {
    Decode(s) + Pow64(|s|) * quotient == value && forall i :: 0 <= i < |s| ==> IsDigit(s[i])
  }

  lemma ConvertDigit(value: nat, s: string, quotient: nat)
    requires Converted(value, s, quotient)
    ensures Converted(value, s + [DigitChar(quotient % 64)], quotient / 64)
  {
    DecodeAppend(s, DigitChar(quotient % 64));
    Regroup(Pow64(|s|), quotient);
  }

  method ToB64(value: nat) returns (s: string)
    requires value < TWO_128
    ensures Decode(s) == value
    ensures IsNumeral(s) && |s| <= 22
  {
    var quotient := value;
    s := "";
    assert Pow64(0) == 1;
    while true
      invariant Converted(value, s, quotient)
      invariant |s| > 0 ==> quotient > 0
      decreases quotient
    {
      ConvertDigit(value, s, quotient);
      if |s| > 0 {
        LengthBound(value, |s|, quotient);
      }
      var remainder := quotient % 64;
      quotient := quotient / 64;
      s := s + [DigitChar(remainder)];
      if quotient == 0 {
        break;
      }
    }
  }

  lemma Regroup(p: nat, q: nat)
    ensures p * q == p * (q % 64) + 64 * p * (q / 64)
  {
    Distributes(p, q, -(64 * (q / 64)));
    Associates(p, 64, q / 64);
    SumTimes(q % 64, 64 * (q / 64), p);
  }

  lemma {:induction false} Pow64IsPow2(k: nat)
    ensures Pow64(k) == Pow2(6 * k)
  {
    if k == 0 {
    } else {
      Pow64IsPow2(k - 1);
      Pow2Add(6, 6 * (k - 1));
      assert Pow2(6) == 64;
    }
  }

  /** With 22 digits there is no room left in 128 bits. */
  lemma LengthBound(value: nat, k: nat, quotient: nat)
    requires quotient > 0 && Pow64(k) * quotient <= value < TWO_128
    ensures k < 22
  {
    MulMonotone(Pow64(k), 1, quotient);
    Pow64IsPow2(k);
    WordSizes();
    if k >= 22 {
      Pow2Monotone(128, 6 * k);
    }
  }
}
