/** The fixed-point price `QuoteAtomsPerBaseAtom` and its checked conversions.

    The program's quantities module is not part of this model; this module
    states the arithmetic the rest of the model assumes of it: a price is an
    unsigned 128-bit integer `inner` read as `inner / 10^18` quote atoms per
    base atom, every conversion is exact rational arithmetic followed by one
    rounding in the direction its flag asks for, and a result that does not
    fit its integer type is a `PriceConversion` error. */
module Quantities {
  import opened Types
  import opened Wrappers

  /** Fixed-point scale of a price. */
  const D18: nat := 1_000_000_000_000_000_000

  datatype Price = Price(inner: u128)

  /** `q` is `n / d` rounded down, or rounded up when `roundUp`. */
  predicate IsRoundedQuotient(n: nat, d: nat, roundUp: bool, q: nat)
  {
    if roundUp then n <= q * d < n + d else q * d <= n < q * d + d
  }

  /** Division with an explicit rounding direction. */
  function DivRound(n: nat, d: nat, roundUp: bool): (q: nat)
    requires d > 0
    ensures IsRoundedQuotient(n, d, roundUp, q)
  {
    var down := n / d;
    assert down * d <= n < down * d + d;
    if roundUp && down * d < n then down + 1 else down
  }

  /** Rounded quotients are unique, so a characterisation pins the value. */
  lemma RoundedQuotientUnique(n: nat, d: nat, roundUp: bool, q1: nat, q2: nat)
    requires d > 0
    requires IsRoundedQuotient(n, d, roundUp, q1) && IsRoundedQuotient(n, d, roundUp, q2)
    ensures q1 == q2
  {
    assert (q1 + 1) * d == q1 * d + d && (q2 + 1) * d == q2 * d + d;
    MulCancelLt(q1, q2 + 1, d);
    MulCancelLt(q2, q1 + 1, d);
  }

  lemma MulMonotone(a: nat, b: nat, c: nat)
    requires a <= b
    ensures a * c <= b * c
  {
  }

  lemma MulCancelLt(a: int, b: int, d: int)
    requires d > 0 && a * d < b * d
    ensures a < b
  {
    assert (b - a) * d == b * d - a * d;
  }

  lemma MulCancelLe(a: int, b: int, d: int)
    requires d > 0 && a * d <= b * d
    ensures a <= b
  {
    assert (b - a) * d == b * d - a * d;
  }

  /** Scaling by a ratio of at least one and rounding down never lowers. */
  lemma ScaleUpRoundedDown(p: nat, num: nat, den: nat, r: nat)
    requires 0 < den <= num
    requires IsRoundedQuotient(p * num, den, false, r)
    ensures p <= r
  {
    MulMonotone(den, num, p);
    assert (r + 1) * den == r * den + den;
    MulCancelLt(p, r + 1, den);
  }

  /** Scaling by a ratio of at most one and rounding up never raises. */
  lemma ScaleDownRoundedUp(p: nat, num: nat, den: nat, r: nat)
    requires 0 < den && num <= den
    requires IsRoundedQuotient(p * num, den, true, r)
    ensures r <= p
  {
    MulMonotone(num, den, p);
    assert (p + 1) * den == p * den + den;
    MulCancelLt(r, p + 1, den);
  }

  /** An exact multiple divides without rounding in either direction. */
  lemma ExactQuotient(p: nat, d: nat, roundUp: bool, r: nat)
    requires d > 0
    requires IsRoundedQuotient(p * d, d, roundUp, r)
    ensures r == p
  {
    RoundedQuotientUnique(p * d, d, roundUp, r, p);
  }

  /** A dividend of at most `m` times the divisor has a rounded quotient of
      at most `m`. */
  lemma QuotientBound(n: nat, d: nat, roundUp: bool, q: nat, m: nat)
    requires d > 0 && IsRoundedQuotient(n, d, roundUp, q)
    ensures n <= m * d ==> q <= m
  {
    if n <= m * d {
      assert (m + 1) * d == m * d + d;
      MulCancelLt(q, m + 1, d);
    }
  }

  /** Quote atoms for no more base atoms than `quote` quote atoms buy at
      price `p` (rounded down) never exceed `quote`, whichever way they are
      rounded. A zero price buys nothing and costs nothing. */
  lemma AffordableBaseWithinBudget(p: nat, quote: nat, cap: nat, base: nat, roundUp: bool, q: nat)
    requires p > 0 ==> IsRoundedQuotient(quote * D18, p, false, cap) && base <= cap
    requires IsRoundedQuotient(p * base, D18, roundUp, q)
    ensures q <= quote
  {
    if p == 0 {
      RoundedQuotientUnique(0, D18, roundUp, q, 0);
    } else {
      MulMonotone(base, cap, p);
      assert p * base <= quote * D18;
      assert q * D18 < quote * D18 + D18;
      assert (quote + 1) * D18 == quote * D18 + D18;
      MulCancelLt(q, quote + 1, D18);
    }
  }

  /** `checked_quote_for_base`: quote atoms worth `base` base atoms at `p`. */
  function QuoteForBase(p: Price, base: u64, roundUp: bool): (r: Result<u64>)
    ensures r.Ok? ==> IsRoundedQuotient(p.inner * base, D18, roundUp, r.value)
    ensures r.Err? ==> r.error == PriceConversion
    ensures p.inner * base <= U64_MAX * D18 ==> r.Ok?
  {
    var product := p.inner * base;
    if product > U128_MAX then Err(PriceConversion)
    else
      var q := DivRound(product, D18, roundUp);
      QuotientBound(product, D18, roundUp, q, U64_MAX);
      if q > U64_MAX then Err(PriceConversion) else Ok(q)
  }

  /** `checked_base_for_quote`: base atoms that `quote` quote atoms buy at
      `p`. A zero price gives zero base atoms instead of dividing by zero. */
  function BaseForQuote(p: Price, quote: u64, roundUp: bool): (r: Result<u64>)
    ensures p.inner == 0 ==> r == Ok(0)
    ensures r.Ok? && p.inner > 0 ==> IsRoundedQuotient(quote * D18, p.inner, roundUp, r.value)
    ensures r.Err? ==> r.error == PriceConversion
  {
    if p.inner == 0 then Ok(0)
    else
      var b := DivRound(quote * D18, p.inner, roundUp);
      if b > U64_MAX then Err(PriceConversion) else Ok(b)
  }

  /** `checked_multiply_rational`: `p * num / den` with the given rounding. */
  function MultiplyRational(p: Price, num: u32, den: u32, roundUp: bool): (r: Result<Price>)
    ensures den == 0 ==> r == Err(PriceConversion)
    ensures r.Ok? ==> den > 0 && IsRoundedQuotient(p.inner * num, den, roundUp, r.value.inner)
    ensures r.Err? ==> r.error == PriceConversion
  {
    if den == 0 then Err(PriceConversion)
    else
      var q := DivRound(p.inner * num, den, roundUp);
      if q > U128_MAX then Err(PriceConversion) else Ok(Price(q))
  }

  /** Rounding up never gives less than rounding down, and at most one atom
      more. */
  lemma QuoteForBaseRoundingGap(p: Price, base: u64)
    requires QuoteForBase(p, base, false).Ok? && QuoteForBase(p, base, true).Ok?
    ensures QuoteForBase(p, base, false).value <= QuoteForBase(p, base, true).value
              <= QuoteForBase(p, base, false).value + 1
  {
    var down: nat := QuoteForBase(p, base, false).value;
    var up: nat := QuoteForBase(p, base, true).value;
    MulCancelLe(down, up, D18);
    assert (down + 2) * D18 == down * D18 + D18 + D18;
    MulCancelLt(up, down + 2, D18);
  }

  /** A conversion of more base atoms never yields fewer quote atoms. */
  lemma QuoteForBaseMonotone(p: Price, b1: u64, b2: u64, roundUp: bool)
    requires b1 <= b2
    requires QuoteForBase(p, b1, roundUp).Ok? && QuoteForBase(p, b2, roundUp).Ok?
    ensures QuoteForBase(p, b1, roundUp).value <= QuoteForBase(p, b2, roundUp).value
  {
    var q1: nat := QuoteForBase(p, b1, roundUp).value;
    var q2: nat := QuoteForBase(p, b2, roundUp).value;
    MulMonotone(b1, b2, p.inner);
    assert p.inner * b1 <= p.inner * b2;
    assert (q2 + 1) * D18 == q2 * D18 + D18;
    MulCancelLt(q1, q2 + 1, D18);
  }
}
