/** Exact integer counterparts of the `Math.ceil`, `Math.sqrt` and
    division steps the layout code performs in floating point. */
module IntMath {

  /** `Math.ceil` on an exact real: the least integer not below `x`. */
  function Ceil(x: real): (c: int)
    ensures c as real - 1.0 < x <= c as real
  {
    -((-x).Floor)
  }

  /** `Math.max` on two (non-NaN) numbers. */
  function Max(a: real, b: real): (m: real)
    ensures a <= m && b <= m
    ensures m == a || m == b
  {
    if a >= b then a else b
  }

  lemma CeilOfInt(k: int)
    ensures Ceil(k as real) == k
  {
  }

  lemma CeilMonotone(x: real, y: real)
    requires x <= y
    ensures Ceil(x) <= Ceil(y)
  {
  }

  lemma {:induction false} SquareMonotone(a: nat, b: nat)
    requires a <= b
    ensures a * a <= b * b
  {
    assert a * a <= a * b by { MulLeft(a, a, b); }
    assert a * b <= b * b by { MulLeft(b, a, b); }
  }

  lemma {:induction false} MulLeft(k: nat, a: int, b: int)
    requires a <= b
    ensures k * a <= k * b
  {
    assert k * b - k * a == k * (b - a);
  }

  /** `Math.ceil(Math.sqrt(n))`, computed exactly: the least `c` with
      `n <= c * c`. */
  function CeilSqrt(n: nat): (c: nat)
    ensures n <= c * c
    ensures c == 0 || (c - 1) * (c - 1) < n
    ensures n >= 1 ==> c >= 1
  {
    CeilSqrtFrom(n, 0)
  }

  /** Upward search for the ceiling square root, starting from a candidate
      `c` whose predecessor is already known to be too small. */
  function CeilSqrtFrom(n: nat, c: nat): (r: nat)
    requires c == 0 || (c - 1) * (c - 1) < n
    ensures n <= r * r
    ensures r == 0 || (r - 1) * (r - 1) < n
    ensures c <= r
    decreases n - c
  {
    if n <= c * c then c
    else
      assert c <= c * c by { if c > 0 { MulLeft(c, 1, c); } }
      CeilSqrtFrom(n, c + 1)
  }

  /** The ceiling square root is the only `c` with `(c-1)^2 < n <= c^2`. */
  lemma {:induction false} CeilSqrtUnique(n: nat, c: nat)
    requires n >= 1 && c >= 1
    requires (c - 1) * (c - 1) < n <= c * c
    ensures CeilSqrt(n) == c
  {
    var d := CeilSqrt(n);
    if d < c {
      SquareMonotone(d, c - 1);
      assert false;
    } else if d > c {
      SquareMonotone(c, d - 1);
      assert false;
    }
  }

  /** `Math.ceil(n / d)` for a positive divisor: the least `q` with `n <= d * q`. */
  function CeilDiv(n: nat, d: nat): (q: nat)
    requires d >= 1
    ensures n <= d * q
    ensures d * (q - 1) < n || q == 0
  {
    var q := n / d + (if n % d == 0 then 0 else 1);
    assert n == d * (n / d) + n % d;
    assert d * q == d * (n / d) + d * (q - n / d);
    q
  }

  /** The ceiling quotient is the only `q` with `d * (q - 1) < n <= d * q`. */
  lemma {:induction false} CeilDivUnique(n: nat, d: nat, q: nat)
    requires d >= 1
    requires d * (q - 1) < n <= d * q
    ensures CeilDiv(n, d) == q
  {
    var r := CeilDiv(n, d);
    if r < q {
      MulLeft(d, r, q - 1);
      assert false;
    } else if r > q {
      MulLeft(d, q, r - 1);
      assert false;
    }
  }
}
