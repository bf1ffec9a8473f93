/** Python's `round` on the quotient of two naturals, in integer terms. */
module Rounding {

  /** `n * q`, written as `n` additions of `q`. */
  function Times(n: nat, q: nat): nat
  {
    if n == 0 then 0 else q + Times(n - 1, q)
  }

  /** `Times` is multiplication. */
  lemma {:induction false} TimesIsProduct(n: nat, q: nat)
    ensures Times(n, q) == n * q
  {
    if n > 0 {
      TimesIsProduct(n - 1, q);
      assert n * q == (n - 1) * q + q;
    }
  }

  /** A larger factor gives a product at least one `q` larger, and exactly
      one `q` larger when the factors are neighbours. */
  lemma {:induction false} TimesGrows(a: nat, b: nat, q: nat)
    requires a < b
    ensures Times(b, q) >= Times(a, q) + q
    ensures b == a + 1 ==> Times(b, q) == Times(a, q) + q
    ensures b >= a + 2 ==> Times(b, q) >= Times(a, q) + 2 * q
  {
    if b > a + 1 {
      TimesGrows(a, b - 1, q);
    }
  }

  /** Floor division with remainder: `p == d * q + m` and `m < q`. */
  function DivMod(p: nat, q: nat): (dm: (nat, nat))
    requires q > 0
    ensures Times(dm.0, q) + dm.1 == p
    ensures dm.1 < q
    decreases p
  {
    if p < q then (0, p)
    else
      var dm := DivMod(p - q, q);
      (dm.0 + 1, dm.1)
  }

  /** `round(p / q)` with no digits: the integer nearest to `p / q`, the
      even one of the two when `p / q` lies exactly half-way. */
  function RoundHalfEven(p: nat, q: nat): (r: nat)
    requires q > 0
    ensures 2 * Times(r, q) <= 2 * p + q && 2 * p <= 2 * Times(r, q) + q
    ensures (2 * Times(r, q) == 2 * p + q || 2 * p == 2 * Times(r, q) + q) ==> r % 2 == 0
  {
    var dm := DivMod(p, q);
    var d := dm.0;
    var m := dm.1;
    if 2 * m < q then d
    else if 2 * m > q then d + 1
    else if d % 2 == 0 then d
    else d + 1
  }

  /** The nearest integer, ties to even, is unique: the contract of
      `RoundHalfEven` determines its result. */
  lemma RoundHalfEvenUnique(p: nat, q: nat, r: nat)
    requires q > 0
    requires 2 * Times(r, q) <= 2 * p + q && 2 * p <= 2 * Times(r, q) + q
    requires (2 * Times(r, q) == 2 * p + q || 2 * p == 2 * Times(r, q) + q) ==> r % 2 == 0
    ensures r == RoundHalfEven(p, q)
  {
    var e := RoundHalfEven(p, q);
    if r < e {
      TimesGrows(r, e, q);
    } else if e < r {
      TimesGrows(e, r, q);
    }
  }
}
