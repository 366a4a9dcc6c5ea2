/** Rounding to multiples. */
module Rounding {
  function Max(a: nat, b: nat): nat { if a < b then b else a }

  lemma {:induction false} MulMod(q: nat, m: nat)
    requires m > 0
    ensures q * m % m == 0
  {
    if q > 0 {
      MulMod(q - 1, m);
      assert q * m == (q - 1) * m + m;
      AddMod((q - 1) * m, m);
    }
  }

  lemma AddMod(x: nat, m: nat)
    requires m > 0
    ensures (x + m) % m == x % m
  {
    var d := (x + m) / m - x / m;
    assert x + m == ((x + m) / m) * m + (x + m) % m;
    assert x == (x / m) * m + x % m;
    assert m - ((x + m) % m - x % m) == d * m;
  }

  lemma MulOrder(a: nat, b: nat, m: nat)
    requires a <= b
    ensures a * m <= b * m
  {}

  /** No multiple of m lies strictly between a multiple and the next. */
  lemma NoneBetween(q: nat, m: nat, other: nat)
    requires m > 0 && other % m == 0 && other < (q + 1) * m
    ensures other <= q * m
  {
    var k := other / m;
    assert other == k * m;
    if k <= q { MulOrder(k, q, m); } else { MulOrder(q + 1, k, m); }
  }

  /** nk_roundUpSafe: the least multiple of m that is not below v; v itself when m is zero. */
  function RoundUp(v: nat, m: nat): (r: nat)
    ensures r >= v
    ensures m > 0 ==> r % m == 0 && r < v + m
    ensures m == 0 ==> r == v
  {
    if m == 0 then v else
    RoundUpBounds(v, m);
    (v + m - 1) / m * m
  }

  lemma RoundUpBounds(v: nat, m: nat)
    requires m > 0
    ensures var r := (v + m - 1) / m * m; v <= r < v + m && r % m == 0
  {
    var q := (v + m - 1) / m;
    assert (v + m - 1) == q * m + (v + m - 1) % m;
    MulMod(q, m);
  }

  lemma RoundUpIsLeast(v: nat, m: nat, other: nat)
    requires m > 0 && v <= other && other % m == 0
    ensures RoundUp(v, m) <= other
  {
    var q := (v + m - 1) / m;
    assert (v + m - 1) == q * m + (v + m - 1) % m;
    if q > 0 && other < RoundUp(v, m) { NoneBetween(q - 1, m, other); }
  }

  // --- Powers of two ---

  predicate PowerOfTwo(n: nat)
  {
    n == 1 || (n > 1 && n % 2 == 0 && PowerOfTwo(n / 2))
  }

  /** Of two powers of two the smaller divides the larger. */
  lemma {:induction false} PowersDivide(a: nat, b: nat)
    requires PowerOfTwo(a) && PowerOfTwo(b) && a <= b
    ensures b % a == 0
    decreases b
  {
    if a == 1 {
    } else {
      PowersDivide(a / 2, b / 2);
      var q := (b / 2) / (a / 2);
      assert b / 2 == q * (a / 2);
      assert b == q * a by { assert b == 2 * (b / 2) && a == 2 * (a / 2); Doubled(q, a / 2, b / 2); }
      MulMod(q, a);
    }
  }

  lemma Doubled(q: nat, x: nat, y: nat)
    requires y == q * x
    ensures 2 * y == q * (2 * x)
  {}

  lemma Divides(x: nat, m: nat, a: nat)
    requires a > 0 && m > 0 && m % a == 0 && x % m == 0
    ensures x % a == 0
  {
    var q := x / m;
    MulDivides(q, m, a);
  }

  lemma MulDivides(i: nat, x: nat, a: nat)
    requires a > 0 && x % a == 0
    ensures i * x % a == 0
  {
    var q := x / a;
    assert i * x == (i * q) * a by { Regroup(i, q, a); }
    MulMod(i * q, a);
  }

  lemma Regroup(i: nat, q: nat, a: nat)
    ensures i * (q * a) == (i * q) * a
  {}

  lemma SumDivides(x: nat, y: nat, a: nat)
    requires a > 0 && x % a == 0 && y % a == 0
    ensures (x + y) % a == 0
  {
    var q, r := x / a, y / a;
    assert x + y == (q + r) * a;
    MulMod(q + r, a);
  }
}
