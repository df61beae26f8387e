/** Powers of two, their logarithms and the rounding helpers the allocator computes with. */
module Powers {

  function Pow2(n: nat): (r: nat)
    ensures r >= 1
  {
    if n == 0 then 1 else 2 * Pow2(n - 1)
  }

  /** `ilog2`, `fls(x) - 1`: the position of the highest bit set. */
  function Log2(x: nat): (n: nat)
    requires x > 0
    ensures Pow2(n) <= x < 2 * Pow2(n)
  {
    if x == 1 then 0 else 1 + Log2(x / 2)
  }

  lemma {:induction false} Pow2Monotone(a: nat, b: nat)
    requires a <= b
    ensures Pow2(a) <= Pow2(b)
    ensures a < b ==> 2 * Pow2(a) <= Pow2(b)
    decreases b
  {
    if a < b { Pow2Monotone(a, b - 1); }
  }

  lemma {:induction false} Pow2Adds(a: nat, b: nat)
    ensures Pow2(a + b) == Pow2(a) * Pow2(b)
  {
    if a > 0 {
      Pow2Adds(a - 1, b);
      MulAssoc(2, Pow2(a - 1), Pow2(b));
    }
  }

  lemma MulAssoc(x: int, y: int, z: int)
    ensures (x * y) * z == x * (y * z)
  {}

  /** The bracket of powers around a number names its logarithm. */
  lemma Log2Unique(x: nat, n: nat)
    requires Pow2(n) <= x < 2 * Pow2(n)
    ensures Log2(x) == n
  {
    if n < Log2(x) { Pow2Monotone(n, Log2(x)); }
    if Log2(x) < n { Pow2Monotone(Log2(x), n); }
  }

  lemma Log2Monotone(x: nat, y: nat)
    requires 0 < x <= y
    ensures Log2(x) <= Log2(y)
  {
    if Log2(y) < Log2(x) { Pow2Monotone(Log2(y), Log2(x)); }
  }

  /** `x` is a multiple of `m`, with the quotient given. */
  predicate Multiple(x: int, m: nat)
    requires m > 0
  {
    x % m == 0
  }

  lemma MulOrder(a: int, b: int, m: nat)
    requires a <= b
    ensures a * m <= b * m
  {}

  lemma MultipleIs(q: int, m: nat)
    requires m > 0
    ensures Multiple(q * m, m)
    ensures (q * m) / m == q
  {
    var d := (q * m) / m;
    assert d * m <= q * m < d * m + m == (d + 1) * m;
    assert d + 1 <= q ==> (d + 1) * m <= q * m;
    assert q + 1 <= d ==> (q + 1) * m <= d * m;
  }

  lemma MultipleSum(x: int, y: int, m: nat)
    requires m > 0 && Multiple(x, m) && Multiple(y, m)
    ensures Multiple(x + y, m) && Multiple(x - y, m)
  {
    var a, b := x / m, y / m;
    assert x == a * m && y == b * m;
    assert x + y == (a + b) * m && x - y == (a - b) * m;
    MultipleIs(a + b, m);
    MultipleIs(a - b, m);
  }

  /** Being aligned to a large power of two means being aligned to every smaller one. */
  lemma {:induction false} MultipleOfSmaller(x: int, a: nat, b: nat)
    requires a <= b && Multiple(x, Pow2(b))
    ensures Multiple(x, Pow2(a))
  {
    Pow2Adds(b - a, a);
    var q := x / Pow2(b);
    assert x == q * Pow2(b) == q * (Pow2(b - a) * Pow2(a));
    MulAssoc(q, Pow2(b - a), Pow2(a));
    MultipleIs(q * Pow2(b - a), Pow2(a));
  }

  /** Two different multiples of `m` are at least `m` apart. */
  lemma MultiplesApart(x: int, y: int, m: nat)
    requires m > 0 && Multiple(x, m) && Multiple(y, m) && x < y
    ensures x + m <= y
  {
    var a, b := x / m, y / m;
    assert x == a * m && y == b * m;
    assert b <= a ==> b * m <= a * m;
    MulOrder(a + 1, b, m);
    assert (a + 1) * m == x + m;
  }

  function RoundDown(x: nat, m: nat): (r: nat)
    requires m > 0
    ensures r <= x < r + m && Multiple(r, m)
  {
    MultipleIs(x / m, m);
    x / m * m
  }

  function RoundUp(x: nat, m: nat): (r: nat)
    requires m > 0
    ensures x <= r < x + m && Multiple(r, m)
  {
    MultipleIs((x + m - 1) / m, m);
    (x + m - 1) / m * m
  }

  /** `roundup_pow_of_two` */
  function CeilPow2(n: nat): (r: nat)
    requires n > 0
    ensures n <= r < 2 * n && r == Pow2(Log2(r))
    ensures forall k: nat | n <= Pow2(k) :: r <= Pow2(k)
  {
    var o := Log2(n);
    if n == Pow2(o) then
      assert forall k: nat | n <= Pow2(k) :: Pow2(o) <= Pow2(k);
      n
    else
      Log2Unique(2 * Pow2(o), o + 1);
      assert forall k: nat | n <= Pow2(k) :: 2 * Pow2(o) <= Pow2(k) by {
        forall k: nat | n <= Pow2(k) ensures 2 * Pow2(o) <= Pow2(k) {
          if k <= o { Pow2Monotone(k, o); }
          Pow2Monotone(o, k);
        }
      }
      2 * Pow2(o)
  }
}
