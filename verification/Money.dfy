/**
Fixed-point money with seven decimal places, stored as a 64-bit count of stroops.
 */
module Money {

  const PRECISION: nat := 7
  const STROOPS_PER_UNIT: nat := 10_000_000
  const MIN_STROOPS: int := -0x8000_0000_0000_0000
  const MAX_STROOPS: int := 0x7FFF_FFFF_FFFF_FFFF

  predicate InRange(v: int) {
    MIN_STROOPS <= v <= MAX_STROOPS
  }

  type Stroops = v: int | MIN_STROOPS <= v <= MAX_STROOPS

  datatype Error = Overflow | InvalidAmount | DivideByZero
  datatype Result = Ok(stroops: Stroops) | Err(error: Error)

  /** The value when it fits, an overflow otherwise. */
  function FromBig(v: int): (r: Result) {
    if v > MAX_STROOPS || v < MIN_STROOPS then Err(Overflow) else Ok(v)
  }

  // ---------------------------------------------------------------------------------------
  // Addition and subtraction with wrap-around tests
  // ---------------------------------------------------------------------------------------

  /** Two's complement wrap-around of a 64-bit sum or difference. */
  function Wrap(v: int): (r: Stroops)
    ensures InRange(v) ==> r == v
  {
    (v + 0x8000_0000_0000_0000) % 0x1_0000_0000_0000_0000 - 0x8000_0000_0000_0000
  }

  function Add(m: Stroops, o: Stroops): (r: Result) {
    var sum := Wrap(m + o);
    if (o > 0 && sum < m) || (o < 0 && sum > m) then Err(Overflow) else Ok(sum)
  }

  function Sub(m: Stroops, o: Stroops): (r: Result) {
    var diff := Wrap(m - o);
    if (o < 0 && diff < m) || (o > 0 && diff > m) then Err(Overflow) else Ok(diff)
  }

  lemma WrapOutside(v: int)
    requires !InRange(v) && 2 * MIN_STROOPS <= v <= 2 * MAX_STROOPS + 1
    ensures Wrap(v) == if v > 0 then v - 0x1_0000_0000_0000_0000 else v + 0x1_0000_0000_0000_0000
  {
  }

  /** The wrap-around tests fire exactly when the true result does not fit. */
  lemma AddIsExact(m: Stroops, o: Stroops)
    ensures Add(m, o) == FromBig(m + o) && Sub(m, o) == FromBig(m - o)
    ensures MIN_STROOPS <= m + o <= MAX_STROOPS ==> Add(m, o) == Ok(m + o)
    ensures m + o < MIN_STROOPS || m + o > MAX_STROOPS ==> Add(m, o) == Err(Overflow)
    ensures MIN_STROOPS <= m - o <= MAX_STROOPS ==> Sub(m, o) == Ok(m - o)
    ensures m - o < MIN_STROOPS || m - o > MAX_STROOPS ==> Sub(m, o) == Err(Overflow)
  {
    if !InRange(m + o) { WrapOutside(m + o); }
    if !InRange(m - o) { WrapOutside(m - o); }
  }

  ghost function PrefixSum(amounts: seq<Stroops>, k: nat): (sum: int)
    requires k <= |amounts|
  {
    if k == 0 then 0 else PrefixSum(amounts, k - 1) + amounts[k - 1]
  }

  /** Adds any number of amounts; it fails exactly when some running total does not fit. */
  method Sum(amounts: seq<Stroops>) returns (r: Result)
    ensures r.Ok? <==> forall k :: 0 <= k <= |amounts| ==> InRange(PrefixSum(amounts, k))
    ensures r == Err(Overflow) || r == FromBig(PrefixSum(amounts, |amounts|))
  {
    var total: Stroops := 0;
    var i := 0;
    while i < |amounts|
      invariant 0 <= i <= |amounts|
      invariant total == PrefixSum(amounts, i)
      invariant forall k :: 0 <= k <= i ==> InRange(PrefixSum(amounts, k))
    {
      AddIsExact(total, amounts[i]);
      var next := Add(total, amounts[i]);
      if next.Err? {
        assert !InRange(PrefixSum(amounts, i + 1));
        return next;
      }
      total := next.stroops;
      i := i + 1;
    }
    return Ok(total);
  }

  // ---------------------------------------------------------------------------------------
  // Exact rounded division
  // ---------------------------------------------------------------------------------------

  function Abs(v: int): (r: nat)
  {
    if v < 0 then -v else v
  }

  /** Division that truncates toward zero. */
  function Quo(num: int, den: int): (q: int)
    requires den != 0
  {
    if (num < 0) == (den < 0) then Abs(num) / Abs(den) else -(Abs(num) / Abs(den))
  }

  function RoundDiv(num: int, den: int): (r: int)
    requires den != 0
  {
    var quo := Quo(num, den);
    var rem := num - quo * den;
    if 2 * Abs(rem) >= Abs(den) then
      (if (num < 0) != (den < 0) then quo - 1 else quo + 1)
    else quo
  }

  function MulInt(m: Stroops, n: Stroops): (r: Result) {
    FromBig(m * n)
  }

  function MulDiv(m: Stroops, num: Stroops, den: Stroops): (r: Result) {
    if den == 0 then Err(DivideByZero) else FromBig(RoundDiv(m * num, den))
  }

  /** product is at most half of den away from num, and beyond it as seen from zero if exactly half. */
  ghost predicate NearestMultiple(num: int, den: int, product: int) {
    && 2 * Abs(product - num) <= Abs(den)
    && (2 * Abs(product - num) == Abs(den) ==> Abs(product) > Abs(num))
  }

  /** r is an integer nearest to num/den, and of two equally near ones the one away from zero. */
  ghost predicate IsNearest(num: int, den: int, r: int) {
    NearestMultiple(num, den, r * den)
  }

  lemma QuoRem(num: int, den: int)
    requires den != 0
    ensures var rem := num - Quo(num, den) * den;
      Abs(rem) < Abs(den) && (num >= 0 ==> rem >= 0) && (num <= 0 ==> rem <= 0)
  {
    var a: int, b: int := Abs(num), Abs(den);
    var q: int := a / b;
    assert a == q * b + a % b;
    if num < 0 {
      assert Quo(num, den) * den == -(q * b);
    } else {
      assert Quo(num, den) * den == q * b;
    }
  }

  /** The same in terms of the remainder, where there is nothing left to multiply. */
  lemma RoundingIsNearest(num: int, den: int, product: int, rem: int)
    requires den != 0 && num == product + rem && Abs(rem) < Abs(den)
    requires (num >= 0 ==> rem >= 0) && (num <= 0 ==> rem <= 0)
    ensures var rounded := if 2 * Abs(rem) < Abs(den) then product
        else if (num < 0) != (den < 0) then product - den else product + den;
      NearestMultiple(num, den, rounded)
  {
  }

  lemma OneStepMore(quo: int, den: int)
    ensures (quo + 1) * den == quo * den + den && (quo - 1) * den == quo * den - den
  {
  }

  /** The product that the rounded quotient stands for. */
  lemma RoundDivProduct(num: int, den: int, product: int)
    requires den != 0 && product == Quo(num, den) * den
    ensures RoundDiv(num, den) * den == if 2 * Abs(num - product) < Abs(den) then product
        else if (num < 0) != (den < 0) then product - den else product + den
  {
    OneStepMore(Quo(num, den), den);
  }

  lemma RoundDivIsNearest(num: int, den: int)
    requires den != 0
    ensures IsNearest(num, den, RoundDiv(num, den))
  {
    QuoRem(num, den);
    var product := Quo(num, den) * den;
    RoundDivProduct(num, den, product);
    RoundingIsNearest(num, den, product, num - product);
  }

  /** Two multiples of den that are both within half of den of num are at most one step apart. */
  lemma NeighboursAreClose(num: int, den: int, r: int, s: int)
    requires den != 0 && 2 * Abs(r * den - num) <= Abs(den) && 2 * Abs(s * den - num) <= Abs(den)
    ensures -1 <= r - s <= 1
  {
    var d := r - s;
    assert r * den - s * den == d * den;
    assert Abs(d * den) <= Abs(den);
    StepsAddUp(d, den);
  }

  lemma StepsAddUp(d: int, den: int)
    requires den != 0
    ensures d < -1 || d > 1 ==> Abs(d * den) > Abs(den)
  {
    if den > 0 {
      if d > 1 { assert d * den == (d - 2) * den + 2 * den; SignOfProduct(d - 2, den); }
      if d < -1 { assert d * den == (d + 2) * den - 2 * den; SignOfProduct(d + 2, den); }
    } else {
      if d > 1 { assert d * den == (d - 2) * den + 2 * den; SignOfProduct(d - 2, den); }
      if d < -1 { assert d * den == (d + 2) * den - 2 * den; SignOfProduct(d + 2, den); }
    }
  }

  /** Zero does not lie strictly between neighbouring multiples. */
  lemma NextMultiple(s: int, den: int, low: int, high: int)
    requires low == s * den && high == (s + 1) * den
    ensures high == low + den && ((low >= 0 && high >= 0) || (low <= 0 && high <= 0))
  {
    SignOfProduct(s, den);
    SignOfProduct(s + 1, den);
  }

  lemma NotBothMultiples(num: int, den: int, low: int, high: int)
    requires den != 0 && high == low + den && ((low >= 0 && high >= 0) || (low <= 0 && high <= 0))
    ensures !(NearestMultiple(num, den, low) && NearestMultiple(num, den, high))
  {
  }

  lemma NeighboursAreNotBothNearest(num: int, den: int, s: int)
    requires den != 0
    ensures !(IsNearest(num, den, s) && IsNearest(num, den, s + 1))
  {
    var low, high := s * den, (s + 1) * den;
    NextMultiple(s, den, low, high);
    NotBothMultiples(num, den, low, high);
  }

  lemma NearestIsUnique(num: int, den: int, r: int, s: int)
    requires den != 0 && IsNearest(num, den, r) && IsNearest(num, den, s)
    ensures r == s
  {
    NeighboursAreClose(num, den, r, s);
    NeighboursAreNotBothNearest(num, den, s);
    NeighboursAreNotBothNearest(num, den, r);
  }

  lemma SignOfProduct(s: int, den: int)
    ensures s >= 0 && den >= 0 ==> s * den >= 0
    ensures s <= 0 && den >= 0 ==> s * den <= 0
    ensures s >= 0 && den <= 0 ==> s * den <= 0
    ensures s <= 0 && den <= 0 ==> s * den >= 0
  {
  }

  /** MulDiv is exact for every sign combination: whichever integer is nearest to m*num/den, ties
      away from zero, is the result, or an overflow when it does not fit. */
  lemma MulDivIsExact(m: Stroops, num: Stroops, den: Stroops, r: int)
    ensures den == 0 ==> MulDiv(m, num, den) == Err(DivideByZero)
    ensures den != 0 ==> IsNearest(m * num, den, RoundDiv(m * num, den))
    ensures den != 0 && IsNearest(m * num, den, r) ==> MulDiv(m, num, den) == FromBig(r)
  {
    if den != 0 {
      RoundDivIsNearest(m * num, den);
      if IsNearest(m * num, den, r) {
        NearestIsUnique(m * num, den, r, RoundDiv(m * num, den));
      }
    }
  }

  /** Multiplying by an integer is the case of the divisor 1. */
  lemma MulIntIsMulDivByOne(m: Stroops, n: Stroops)
    ensures MulDiv(m, n, 1) == MulInt(m, n)
  {
    assert IsNearest(m * n, 1, m * n);
    MulDivIsExact(m, n, 1, m * n);
  }
}
