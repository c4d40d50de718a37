/** Small vocabulary shared by the models. */
module Common {

  datatype Option<+T> = None | Some(value: T)

  /** Every element is smaller than all later ones. */
  ghost predicate Increasing(s: seq<int>) {
    forall i, j :: 0 <= i < j < |s| ==> s[i] < s[j]
  }

  /** The set {0, .., n - 1}. */
  function Below(n: nat): (r: set<nat>)
    ensures forall c: nat :: c in r <==> c < n
    ensures |r| == n
  {
    if n == 0 then {} else Below(n - 1) + {n - 1}
  }

  /** Division of natural numbers. */
  function Div(a: nat, d: nat): nat
    requires d > 0
  {
    a / d
  }

  /** Numbers less than `m` apart have different remainders. */
  lemma ModDiffers(a: nat, b: nat, m: nat)
    requires a < b < a + m
    ensures a % m != b % m
  {
    var d := b / m - a / m;
    if a % m == b % m {
      assert b - a == m * d by {
        assert a == m * (a / m) + a % m;
        assert b == m * (b / m) + b % m;
        Distributes(m, b / m, a / m);
      }
      if d >= 1 {
        MulMonotone(m, 1, d);
      } else {
        MulMonotone(m, d, 0);
      }
    }
  }

  lemma Distributes(m: int, x: int, y: int)
    ensures m * (x - y) == m * x - m * y
  {
  }

  lemma Associates(x: int, y: int, z: int)
    ensures x * (y * z) == (x * y) * z
  {
  }

  lemma SumTimes(x: int, y: int, d: int)
    ensures (x + y) * d == x * d + y * d
  {
  }

  lemma UnionSize<T>(a: set<T>, b: set<T>)
    ensures |a + b| <= |a| + |b|
  {
  }

  lemma MulMonotone(m: int, x: int, y: int)
    requires m >= 0 && x <= y
    ensures m * x <= m * y
  {
  }

  /** Quotient and remainder are unique. */
  lemma Divide(q: int, r: nat, d: nat)
    requires r < d
    ensures (q * d + r) / d == q && (q * d + r) % d == r
  {
    var x := q * d + r;
    Unique(d, x / d, x % d, q, r);
  }

  lemma Unique(d: nat, q: int, r: nat, q': int, r': nat)
    requires r < d && r' < d && d * q + r == d * q' + r'
    ensures q == q' && r == r'
  {
    if q < q' {
      MulMonotone(d, q + 1, q');
      Distributes(d, q + 1, 1);
    } else if q' < q {
      MulMonotone(d, q' + 1, q);
      Distributes(d, q' + 1, 1);
    }
  }

  lemma DivMod(a: nat, d: nat)
    requires d > 0
    ensures a == a / d * d + a % d
  {
  }
}
