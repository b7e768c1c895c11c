/** Integer facts used by the index computations. */
module Arith {

  lemma {:induction false} MulLowerBound(k: int, d: int)
    requires d > 0
    ensures k >= 1 ==> k * d >= d
    ensures k <= -1 ==> k * d <= -d
  {
  }

  /** Quotient and remainder are determined by x = q * d + r with 0 <= r < d. */
  lemma {:induction false} DivModUnique(x: int, d: int, q: int, r: int)
    requires d > 0 && 0 <= r < d && x == q * d + r
    ensures x / d == q && x % d == r
  {
    var q', r' := x / d, x % d;
    assert x == q' * d + r';
    assert (q - q') * d == r' - r;
    MulLowerBound(q - q', d);
  }

  lemma {:induction false} MulSplit(a: int, b: int, d: int)
    ensures a * d == b * d + (a - b) * d
  {
  }

  lemma {:induction false} MulNonNegative(a: int, b: int)
    requires a >= 0 && b >= 0
    ensures a * b >= 0
  {
  }

  lemma {:induction false} DivBounds(x: nat, d: nat)
    requires d > 0
    ensures 0 <= x / d <= x
    ensures x == x / d * d + x % d && 0 <= x % d < d
  {
    var q, r := x / d, x % d;
    assert x == q * d + r;
    MulNonNegative(q, d - 1);
    assert q * d == q * (d - 1) + q;
  }

  /** x reaches k * d exactly when its quotient reaches k. */
  lemma {:induction false} DivReaches(x: nat, d: nat, k: nat)
    requires d > 0
    ensures k * d <= x <==> k <= x / d
  {
    DivBounds(x, d);
    var q := x / d;
    assert (q - k) * d == q * d - k * d;
    MulLowerBound(q - k, d);
  }

  lemma {:induction false} BetweenMultiples(x: nat, d: nat, lo: nat, hi: nat, len: nat)
    requires d > 0 && hi * d == lo * d + len
    ensures lo * d <= x < lo * d + len <==> lo <= x / d < hi
  {
    DivReaches(x, d, lo);
    DivReaches(x, d, hi);
  }

  /** The naturals below l. */
  function Below(l: nat): (s: set<nat>)
    ensures forall k: nat :: k in s <==> k < l
    ensures |s| == l
  {
    if l == 0 then {} else Below(l - 1) + {l - 1}
  }
}
