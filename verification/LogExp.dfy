/** Balancer's fixed-point exponential, logarithm and power, shared by the Balancer and Pendle
    ports. Every function takes the width its arithmetic runs at: unbounded, as the ports do, or
    int256 that wraps silently, as Solidity 0.7 does. */
module LogExp {
  import opened Arith

  const ONE_20: int := 100_000_000_000_000_000_000
  const ONE_36: int := 1_000_000_000_000_000_000_000_000_000_000_000_000
  const TWO254: int := UINT256 / 4
  const TWO255: int := UINT256 / 2
  const MAX_NATURAL_EXPONENT: int := 130_000_000_000_000_000_000
  const MIN_NATURAL_EXPONENT: int := -41_000_000_000_000_000_000
  const LN_36_LOWER_BOUND: int := 900_000_000_000_000_000
  const LN_36_UPPER_BOUND: int := 1_100_000_000_000_000_000
  const MILD_EXPONENT_BOUND: int := TWO254 / ONE_20

  /** Powers of e: the first two bare, the rest with 20 decimals. */
  const A: seq<int> := [
    38877084059945950922200000000000000000000000000000000000,
    6235149080811616882910000000,
    7896296018268069516100000000000000,
    888611052050787263676000000,
    298095798704172827474000,
    5459815003314423907810,
    738905609893065022723,
    271828182845904523536,
    164872127070012814685,
    128402541668774148407,
    113314845306682631683,
    106449445891785942956]

  /** Their exponents: the first two with 18 decimals, the rest with 20. */
  const X: seq<int> := [
    128_000_000_000_000_000_000,
    64_000_000_000_000_000_000,
    3_200_000_000_000_000_000_000,
    1_600_000_000_000_000_000_000,
    800_000_000_000_000_000_000,
    400_000_000_000_000_000_000,
    200_000_000_000_000_000_000,
    100_000_000_000_000_000_000,
    50_000_000_000_000_000_000,
    25_000_000_000_000_000_000,
    12_500_000_000_000_000_000,
    6_250_000_000_000_000_000]

  datatype Width = Unbounded | Int256

  /** The result of one operation at a width. */
  function Fit(v: int, w: Width): int {
    match w
    case Unbounded => v
    case Int256 => Signed(v)
  }

  ghost predicate InInt256(v: int) {
    -TWO255 <= v < TWO255
  }

  // ----- exp -----

  datatype Reduction = Reduction(x: int, product: int)

  /** Removes the exponents X[n..10] greedily, multiplying the matching powers together. */
  function Reduce(x: int, product: int, n: nat, w: Width): Reduction
    requires 2 <= n <= 10
    decreases 10 - n, x
  {
    if n == 10 then Reduction(x, product)
    else if x >= X[n] then Reduce(Fit(x - X[n], w), TruncDiv(Fit(product * A[n], w), ONE_20), n + 1, w)
    else Reduce(x, product, n + 1, w)
  }

  /** Terms n..12 of the Taylor series. */
  function Taylor(x: int, term: int, series: int, n: nat, w: Width): int
    requires 2 <= n <= 13
    decreases 13 - n, x
  {
    if n == 13 then series
    else
      var next := TruncDiv(TruncDiv(Fit(term * x, w), ONE_20), n);
      Taylor(x, next, Fit(series + next, w), n + 1, w)
  }

  function FirstPower(x: int): int {
    if x >= X[0] then A[0] else if x >= X[1] then A[1] else 1
  }

  function AfterFirst(x: int, w: Width): int {
    Fit(Fit(if x >= X[0] then x - X[0] else if x >= X[1] then x - X[1] else x, w) * 100, w)
  }

  function ExpNonNegative(x: int, w: Width): int {
    var r := Reduce(AfterFirst(x, w), ONE_20, 2, w);
    var series := Taylor(r.x, r.x, Fit(ONE_20 + r.x, w), 2, w);
    Assemble(r.product, series, FirstPower(x), w)
  }

  function Assemble(product: int, series: int, first: int, w: Width): int {
    TruncDiv(Fit(TruncDiv(Fit(product * series, w), ONE_20) * first, w), 100)
  }

  function Exp(x: int, w: Width): (r: Result<int>)
    ensures w.Unbounded? && r.Ok? ==> 0 <= r.value
  {
    hide ExpNonNegative;
    if !(MIN_NATURAL_EXPONENT <= x <= MAX_NATURAL_EXPONENT) then Err(Revert("INVALID_EXPONENT"))
    else if x < 0 then
      var e := ExpNonNegative(Fit(-x, w), w);
      assert w.Unbounded? ==> WAD <= e by { ExpFits(-x); }
      if e == 0 then Err(DivisionByZero) else Ok(TruncDiv(Fit(WAD * WAD, w), e))
    else
      ExpFits(x);
      Ok(ExpNonNegative(x, w))
  }

  // ----- ln -----

  datatype LnReduction = LnReduction(a: int, sum: int)

  /** Divides by the powers A[n..12] where they fit, summing their exponents. */
  function LnReduce(a: int, sum: int, n: nat, w: Width): LnReduction
    requires 2 <= n <= 12
    decreases 12 - n, a
  {
    if n == 12 then LnReduction(a, sum)
    else if a >= A[n] then LnReduce(TruncDiv(Fit(a * ONE_20, w), A[n]), Fit(sum + X[n], w), n + 1, w)
    else LnReduce(a, sum, n + 1, w)
  }

  /** Terms d, d + 2, .., last of the inverse hyperbolic tangent series. */
  function Atanh(num: int, square: int, series: int, d: nat, last: nat, unit: int, w: Width): int
    requires 0 < d && 0 < unit
    decreases last + 2 - d, num
  {
    if d > last then series
    else
      var next := TruncDiv(Fit(num * square, w), unit);
      Atanh(next, square, Fit(series + TruncDiv(next, d), w), d + 2, last, unit, w)
  }

  /** Twice the series at z = (a - unit) / (a + unit). */
  function TwiceAtanh(a: int, last: nat, unit: int, w: Width): int
    requires 0 < unit && Fit(a + unit, w) != 0
  {
    var z := TruncDiv(Fit(Fit(a - unit, w) * unit, w), Fit(a + unit, w));
    var square := TruncDiv(Fit(z * z, w), unit);
    Fit(Atanh(z, square, z, 3, last, unit, w) * 2, w)
  }

  /** One of the two large powers taken out of an 18-decimal argument. */
  function TakeOut(f: LnReduction, n: nat, w: Width): LnReduction
    requires n < 2
  {
    if f.a >= Fit(A[n] * WAD, w) then LnReduction(TruncDiv(f.a, A[n]), Fit(f.sum + X[n], w)) else f
  }

  /** Both of them, and both results brought to 20 decimals. */
  function LnFirst(a: int, w: Width): LnReduction {
    var f := TakeOut(TakeOut(LnReduction(a, 0), 0, w), 1, w);
    LnReduction(Fit(f.a * 100, w), Fit(f.sum * 100, w))
  }

  /** Logarithm of an argument of at least one. */
  function LnAbove(a: int, w: Width): Result<int> {
    var f := LnFirst(a, w);
    var r := LnReduce(f.a, f.sum, 2, w);
    if Fit(r.a + ONE_20, w) == 0 then Err(DivisionByZero)
    else Ok(TruncDiv(Fit(r.sum + TwiceAtanh(r.a, 11, ONE_20, w), w), 100))
  }

  function Ln(a: int, w: Width): Result<int>
    requires 0 < a
  {
    if a < WAD then
      var l :- LnAbove(TruncDiv(Fit(WAD * WAD, w), a), w);
      Ok(Fit(-l, w))
    else LnAbove(a, w)
  }

  /** Logarithm with 36 decimals, for arguments near one. */
  function Ln36(x: int, w: Width): Result<int> {
    var a := Fit(x * WAD, w);
    if Fit(a + ONE_36, w) == 0 then Err(DivisionByZero) else Ok(TwiceAtanh(a, 15, ONE_36, w))
  }

  // ----- pow -----

  /** Remainder with the sign of the dividend. */
  function TruncRem(a: int, b: int): int
    requires 0 < b
  {
    a - TruncDiv(a, b) * b
  }

  /** A 36-decimal logarithm times y, split so that neither product is too wide. */
  function NearOne(l: int, y: int, w: Width): int {
    Fit(Fit(TruncDiv(l, WAD) * y, w) + TruncDiv(Fit(TruncRem(l, WAD) * y, w), WAD), w)
  }

  function LogTimesY(x: int, y: int, w: Width): Result<int>
    requires 0 < x
  {
    if LN_36_LOWER_BOUND < x < LN_36_UPPER_BOUND then
      var l :- Ln36(x, w);
      Ok(NearOne(l, y, w))
    else
      var l :- Ln(x, w);
      Ok(Fit(l * y, w))
  }

  function LogExpPow(x: nat, y: nat, w: Width): (r: Result<int>)
    ensures w.Unbounded? && r.Ok? ==> 0 <= r.value
  {
    hide LogTimesY, Exp;
    if y == 0 then Ok(WAD)
    else if x == 0 then Ok(0)
    else if x >= TWO255 then Err(Revert("X_OUT_OF_BOUNDS"))
    else if y >= MILD_EXPONENT_BOUND then Err(Revert("Y_OUT_OF_BOUNDS"))
    else
      var product :- LogTimesY(x, y, w);
      var exponent := TruncDiv(product, WAD);
      if !(MIN_NATURAL_EXPONENT <= exponent <= MAX_NATURAL_EXPONENT) then Err(Revert("PRODUCT_OUT_OF_BOUNDS"))
      else Exp(exponent, w)
  }

  // ----- basic facts -----

  lemma FitIsIdentity(v: int, w: Width)
    requires InInt256(v)
    ensures Fit(v, w) == v
  {
  }

  lemma TruncPositive(a: int, b: int)
    requires 0 <= a && 0 < b
    ensures TruncDiv(a, b) == a / b && 0 <= TruncDiv(a, b) <= a
  {
    QuotientBounds(a, b);
    MulMono(1, b, a / b);
  }

  lemma TruncShrinks(a: int, b: int, bound: nat)
    requires 0 < b && Abs(a) <= bound * b
    ensures Abs(TruncDiv(a, b)) <= bound
  {
    QuotientAtMost(Abs(a), b, bound);
    QuotientBounds(Abs(a), b);
  }

  lemma Tables(n: nat)
    requires 2 <= n < 12
    ensures ONE_20 < A[n] <= A[2] && 0 < X[n] <= X[2]
    ensures n < 11 ==> X[n] == 2 * X[n + 1]
  {
  }

  // ----- exp: the argument reduction is exact -----

  /** What the greedy removal leaves is the remainder modulo a quarter: the removed exponents are
      the binary digits of the rest. */
  lemma {:induction false} ReduceLeavesRemainder(x: int, product: int, n: nat, w: Width)
    requires 2 <= n <= 10 && 0 <= x < (if n == 10 then X[9] else 2 * X[n])
    ensures Reduce(x, product, n, w).x == x % X[9]
    decreases 10 - n
  {
    if n < 10 {
      Tables(n);
      if x >= X[n] {
        FitIsIdentity(x - X[n], w);
        QuarterMultiple(x, n);
        ReduceLeavesRemainder(x - X[n], TruncDiv(Fit(product * A[n], w), ONE_20), n + 1, w);
      } else {
        ReduceLeavesRemainder(x, product, n + 1, w);
      }
    }
  }

  lemma QuarterMultiple(x: int, n: nat)
    requires 2 <= n < 10
    ensures (x - X[n]) % X[9] == x % X[9]
  {
  }

  lemma AfterFirstRange(x: int, w: Width)
    requires 0 <= x <= MAX_NATURAL_EXPONENT
    ensures AfterFirst(x, w) == AfterFirst(x, Unbounded)
    ensures 0 <= AfterFirst(x, w) < 2 * X[2]
    ensures x >= X[0] ==> AfterFirst(x, w) <= X[6]
  {
  }

  // ----- exp: every intermediate fits -----

  /** The product if every remaining power were taken. */
  ghost function Upper(product: nat, n: nat): nat
    requires 2 <= n <= 10
    decreases 10 - n
  {
    if n == 10 then product else Upper(product * A[n] / ONE_20, n + 1)
  }

  lemma StepGrows(product: nat, n: nat)
    requires 2 <= n < 12
    ensures product <= product * A[n] / ONE_20
  {
    Tables(n);
    MulMono(ONE_20, A[n], product);
    QuotientAtLeast(product * A[n], ONE_20, product);
  }

  lemma {:induction false} UpperGrows(product: nat, n: nat)
    requires 2 <= n <= 10
    ensures product <= Upper(product, n)
    decreases 10 - n
  {
    if n < 10 {
      StepGrows(product, n);
      UpperGrows(product * A[n] / ONE_20, n + 1);
    }
  }

  lemma {:induction false} UpperMono(p: nat, q: nat, n: nat)
    requires 2 <= n <= 10 && p <= q
    ensures Upper(p, n) <= Upper(q, n)
    decreases 10 - n
  {
    if n < 10 {
      Tables(n);
      MulMono(p, q, A[n]);
      QuotientMono(p * A[n], q * A[n], ONE_20);
      MulMono2(0, p, 0, A[n]);
      UpperMono(p * A[n] / ONE_20, q * A[n] / ONE_20, n + 1);
    }
  }

  /** e^63.75 with 20 decimals. */
  const PRODUCT_LIMIT: nat := 485593898670303750249326089141478710917884464781

  lemma {:induction false} ReduceFits(x: int, product: nat, n: nat)
    requires 2 <= n <= 10 && 0 <= x < (if n == 10 then X[9] else 2 * X[n])
    requires ONE_20 <= product && Upper(product, n) <= PRODUCT_LIMIT
    ensures Reduce(x, product, n, Int256) == Reduce(x, product, n, Unbounded)
    ensures ONE_20 <= Reduce(x, product, n, Unbounded).product <= Upper(product, n)
    decreases 10 - n
  {
    if n < 10 {
      Tables(n);
      StepGrows(product, n);
      var next := product * A[n] / ONE_20;
      UpperGrows(next, n + 1);
      if x >= X[n] {
        QuotientBounds(product * A[n], ONE_20);
        FitIsIdentity(product * A[n], Int256);
        FitIsIdentity(x - X[n], Int256);
        TruncPositive(product * A[n], ONE_20);
        ReduceFits(x - X[n], next, n + 1);
      } else {
        UpperMono(product, next, n + 1);
        ReduceFits(x, product, n + 1);
      }
    }
  }

  lemma UpperStep(product: nat, n: nat, next: nat)
    requires 2 <= n < 10 && next * ONE_20 <= product * A[n] < next * ONE_20 + ONE_20
    ensures Upper(product, n) == Upper(next, n + 1)
  {
    QuotientUnique(product * A[n], ONE_20, next);
  }

  lemma UpperToFour()
    ensures Upper(ONE_20, 2) == Upper(70167359120976317386542812965656684271836, 4)
  {
    UpperStep(ONE_20, 2, 7896296018268069516100000000000000);
    UpperStep(7896296018268069516100000000000000, 3, 70167359120976317386542812965656684271836);
  }

  lemma UpperToSeven()
    ensures Upper(70167359120976317386542812965656684271836, 4)
         == Upper(84383566687414544890605642861479893980206797382, 7)
  {
    UpperStep(70167359120976317386542812965656684271836, 4, 209165949601299615390442109296360546958270159);
    UpperStep(209165949601299615390442109296360546958270159, 5, 11420073898156842836612956676649479145085902416);
    UpperStep(11420073898156842836612956676649479145085902416, 6, 84383566687414544890605642861479893980206797382);
  }

  lemma UpperToTen()
    ensures Upper(84383566687414544890605642861479893980206797382, 7) == PRODUCT_LIMIT
  {
    UpperStep(84383566687414544890605642861479893980206797382, 7, 229378315946960987909564032213814069774054870815);
    UpperStep(229378315946960987909564032213814069774054870815, 8, 378180908539128987898230655692248765927019707301);
    UpperStep(378180908539128987898230655692248765927019707301, 9, 485593898670303750249326089141478710917884464781);
  }

  lemma UpperFromTwo()
    ensures Upper(ONE_20, 2) <= PRODUCT_LIMIT
  {
    UpperToFour();
    UpperToSeven();
    UpperToTen();
  }

  /** The powers below e^2 together stay below e^2. */
  lemma UpperFromSeven()
    ensures Upper(ONE_20, 7) <= A[6]
  {
    UpperStep(ONE_20, 7, 271828182845904523536);
    UpperStep(271828182845904523536, 8, 448168907033806482260);
    UpperStep(448168907033806482260, 9, 575460267600573043684);
  }

  lemma {:induction false} TaylorFits(x: int, term: int, series: int, n: nat)
    requires 2 <= n <= 13 && 0 <= term <= x < X[9] && ONE_20 <= series && series + term <= ONE_20 + 2 * x
    ensures Taylor(x, term, series, n, Int256) == Taylor(x, term, series, n, Unbounded)
    ensures ONE_20 <= Taylor(x, term, series, n, Unbounded) <= ONE_20 + 2 * x
    decreases 13 - n
  {
    if n < 13 {
      MulMono2(term, x, x, X[9]);
      FitIsIdentity(term * x, Int256);
      NextTerm(x, term, n);
      var next := TruncDiv(TruncDiv(term * x, ONE_20), n);
      FitIsIdentity(series + next, Int256);
      TaylorFits(x, next, series + next, n + 1);
    }
  }

  /** Each term is at most half of the one before. */
  lemma NextTerm(x: int, term: int, n: nat)
    requires 2 <= n && 0 <= term <= x < X[9]
    ensures 0 <= 2 * TruncDiv(TruncDiv(term * x, ONE_20), n) <= term
  {
    MulMono2(0, term, 0, x);
    MulMono(x, ONE_20, term);
    TruncPositive(term * x, ONE_20);
    QuotientAtMost(term * x, ONE_20, term);
    var q := TruncDiv(term * x, ONE_20);
    TruncPositive(q, n);
    QuotientBounds(q, n);
    MulMono(2, n, q / n);
  }

  /** An argument of at most two, what is left of 128 to 130, reduces from the sixth power on. */
  lemma ReduceSmall(x: int, n: nat)
    requires 2 <= n <= 6 && 0 <= x <= X[6]
    ensures Reduce(x, ONE_20, n, Unbounded) == Reduce(x, ONE_20, 6, Unbounded)
    decreases 6 - n
  {
    if n < 6 { ReduceSmall(x, n + 1); }
  }

  lemma ReduceSmallProduct(x: int)
    requires 0 <= x <= X[6]
    ensures Reduce(x, ONE_20, 2, Unbounded).product <= A[6]
  {
    ReduceSmall(x, 2);
    UpperFromSeven();
    if x == X[6] {
      QuotientUnique(ONE_20 * A[6], ONE_20, A[6]);
      ReduceZero(A[6], 7);
    } else {
      ReduceFits(x, ONE_20, 7);
    }
  }

  lemma ReduceZero(product: int, n: nat)
    requires 7 <= n <= 10
    ensures Reduce(0, product, n, Unbounded).product == product
    decreases 10 - n
  {
    if n < 10 { ReduceZero(product, n + 1); }
  }

  const SERIES_LIMIT: int := ONE_20 + 2 * 25_000_000_000_000_000_000

  /** The last two multiplications, for the three possible first powers. */
  lemma AssembleFits(product: int, series: int, first: int)
    requires ONE_20 <= product && ONE_20 <= series <= SERIES_LIMIT
    requires || (first == A[0] && product <= A[6])
             || (1 <= first <= A[1] && product <= PRODUCT_LIMIT)
    ensures Assemble(product, series, first, Int256) == Assemble(product, series, first, Unbounded)
    ensures WAD <= Assemble(product, series, first, Unbounded) < TWO255
  {
    var q := product * series / ONE_20;
    ProductOfSeries(product, series);
    FitIsIdentity(product * series, Int256);
    TruncPositive(product * series, ONE_20);
    TimesFirst(q, product, first);
    FitIsIdentity(q * first, Int256);
    TruncPositive(q * first, 100);
    QuotientAtLeast(q * first, 100, WAD);
  }

  lemma ProductOfSeries(product: int, series: int)
    requires ONE_20 <= product <= PRODUCT_LIMIT && ONE_20 <= series <= SERIES_LIMIT
    ensures 0 <= product * series < TWO255
    ensures ONE_20 <= product * series / ONE_20 && 2 * (product * series / ONE_20) <= 3 * product
  {
    MulMono2(ONE_20, product, ONE_20, series);
    MulMono2(product, PRODUCT_LIMIT, series, SERIES_LIMIT);
    QuotientAtLeast(product * series, ONE_20, ONE_20);
    MulMono(series, SERIES_LIMIT, product);
    QuotientBounds(product * series, ONE_20);
  }

  lemma TimesFirst(q: int, product: int, first: int)
    requires ONE_20 <= q && 2 * q <= 3 * product
    requires || (first == A[0] && product <= A[6])
             || (1 <= first <= A[1] && product <= PRODUCT_LIMIT)
    ensures ONE_20 <= q * first < TWO255
  {
    MulMono2(ONE_20, q, 1, first);
    if first == A[0] {
      MulMono(2 * q, 3 * A[6], first);
    } else {
      MulMono2(2 * q, 3 * PRODUCT_LIMIT, first, A[1]);
    }
  }

  /** The reduction of every exponent from 0 to 130, at either width. */
  lemma ExpReduced(x: int)
    requires 0 <= x <= MAX_NATURAL_EXPONENT
    ensures AfterFirst(x, Int256) == AfterFirst(x, Unbounded)
    ensures var x1 := AfterFirst(x, Unbounded);
            var r := Reduce(x1, ONE_20, 2, Unbounded);
            && Reduce(x1, ONE_20, 2, Int256) == r
            && r.x == x1 % X[9]
            && ONE_20 <= r.product <= (if x >= X[0] then A[6] else PRODUCT_LIMIT)
  {
    AfterFirstRange(x, Int256);
    AfterFirstRange(x, Unbounded);
    var x1 := AfterFirst(x, Unbounded);
    UpperFromTwo();
    ReduceFits(x1, ONE_20, 2);
    ReduceLeavesRemainder(x1, ONE_20, 2, Unbounded);
    if x >= X[0] { ReduceSmallProduct(x1); }
  }

  /** On every exponent from 0 to 130 the exponential never leaves int256, and is at least one. */
  lemma ExpFits(x: int)
    requires 0 <= x <= MAX_NATURAL_EXPONENT
    ensures ExpNonNegative(x, Int256) == ExpNonNegative(x, Unbounded)
    ensures WAD <= ExpNonNegative(x, Unbounded) < TWO255
  {
    hide Reduce, Taylor, Assemble, AfterFirst;
    ExpReduced(x);
    var r := Reduce(AfterFirst(x, Unbounded), ONE_20, 2, Unbounded);
    SeriesFits(r.x);
    AssembleFits(r.product, Taylor(r.x, r.x, ONE_20 + r.x, 2, Unbounded), FirstPower(x));
  }

  lemma SeriesFits(x: int)
    requires 0 <= x < X[9]
    ensures Taylor(x, x, Fit(ONE_20 + x, Int256), 2, Int256) == Taylor(x, x, ONE_20 + x, 2, Unbounded)
    ensures ONE_20 <= Taylor(x, x, ONE_20 + x, 2, Unbounded) <= SERIES_LIMIT
  {
    FitIsIdentity(ONE_20 + x, Int256);
    TaylorFits(x, x, ONE_20 + x, 2);
  }

  /** The whole exponential, negative exponents included: int256 and unbounded agree everywhere. */
  lemma ExpAgrees(x: int)
    ensures Exp(x, Int256) == Exp(x, Unbounded)
    ensures Exp(x, Unbounded).Ok? <==> MIN_NATURAL_EXPONENT <= x <= MAX_NATURAL_EXPONENT
    ensures 0 <= x <= MAX_NATURAL_EXPONENT ==> WAD <= Exp(x, Unbounded).value
    ensures MIN_NATURAL_EXPONENT <= x < 0 ==> 0 <= Exp(x, Unbounded).value <= WAD
  {
    if MIN_NATURAL_EXPONENT <= x < 0 {
      FitIsIdentity(-x, Int256);
      ExpFits(-x);
      var e := ExpNonNegative(-x, Unbounded);
      TruncPositive(WAD * WAD, e);
      MulMono(WAD, e, WAD);
      QuotientAtMost(WAD * WAD, e, WAD);
    } else if 0 <= x <= MAX_NATURAL_EXPONENT {
      ExpFits(x);
    }
  }

  // ----- ln: every intermediate fits -----

  /** More than the exponents X[n..12] together. */
  ghost function Tail(n: nat): int
    requires 2 <= n <= 12
  {
    if n == 12 then 0 else 2 * X[n]
  }

  const LN_ARGUMENT_LIMIT: int := 1_000_000_000_000 * ONE_36
  const SUM_LIMIT: int := 200 * ONE_20

  lemma {:induction false} LnReduceFits(a: int, sum: int, n: nat)
    requires 2 <= n <= 12 && ONE_20 <= a <= LN_ARGUMENT_LIMIT && 0 <= sum && sum + Tail(n) <= SUM_LIMIT
    ensures LnReduce(a, sum, n, Int256) == LnReduce(a, sum, n, Unbounded)
    ensures ONE_20 <= LnReduce(a, sum, n, Unbounded).a <= a
    ensures 0 <= LnReduce(a, sum, n, Unbounded).sum <= sum + Tail(n)
    decreases 12 - n
  {
    if n < 12 {
      Tables(n);
      if a >= A[n] {
        FitIsIdentity(a * ONE_20, Int256);
        FitIsIdentity(sum + X[n], Int256);
        TruncPositive(a * ONE_20, A[n]);
        QuotientAtLeast(a * ONE_20, A[n], ONE_20);
        MulMono(ONE_20, A[n], a);
        QuotientAtMost(a * ONE_20, A[n], a);
        LnReduceFits(a * ONE_20 / A[n], sum + X[n], n + 1);
      } else {
        LnReduceFits(a, sum, n + 1);
      }
    }
  }

  lemma LnReduceSkips(a: int, sum: int, n: nat, w: Width)
    requires 2 <= n <= 5 && a < A[4]
    ensures LnReduce(a, sum, n, w) == LnReduce(a, sum, 5, w)
    decreases 5 - n
  {
    if n < 5 { LnReduceSkips(a, sum, n + 1, w); }
  }

  lemma {:induction false} AtanhFits(num: int, square: int, series: int, d: nat, last: nat, unit: int, bound: nat)
    requires 0 < d <= last + 2 && last <= 15 && 0 < unit <= ONE_36 && 0 <= square <= unit
    requires bound <= unit && Abs(num) <= bound && Abs(series) <= d * bound
    ensures Atanh(num, square, series, d, last, unit, Int256) == Atanh(num, square, series, d, last, unit, Unbounded)
    ensures Abs(Atanh(num, square, series, d, last, unit, Unbounded)) <= 20 * bound
    decreases last + 2 - d
  {
    MulMono(d, 17, bound);
    if d <= last {
      AbsProduct(num, square, bound, unit);
      FitIsIdentity(num * square, Int256);
      TruncShrinks(num * square, unit, bound);
      var next := TruncDiv(num * square, unit);
      MulMono(1, d, bound);
      TruncShrinks(next, d, bound);
      FitIsIdentity(series + TruncDiv(next, d), Int256);
      assert (d + 2) * bound == d * bound + 2 * bound;
      AtanhFits(next, square, series + TruncDiv(next, d), d + 2, last, unit, bound);
    }
  }

  lemma AbsProduct(x: int, y: nat, bound: nat, unit: int)
    requires Abs(x) <= bound <= unit <= ONE_36 && y <= unit
    ensures Abs(x * y) <= bound * unit <= ONE_36 * ONE_36
  {
    assert Abs(x * y) == Abs(x) * y;
    MulMono2(Abs(x), bound, y, unit);
    MulMono2(bound, ONE_36, unit, ONE_36);
  }

  /** z = (a - unit) / (a + unit) for an argument within a factor of the unit. */
  lemma TwiceAtanhFits(a: int, last: nat, unit: int, bound: nat)
    requires 0 < a && 0 < unit <= ONE_36 && bound <= unit && 1 <= last <= 15
    requires Abs(a - unit) * unit <= bound * (a + unit)
    requires a + unit < TWO255 && InInt256((a - unit) * unit)
    ensures Fit(a + unit, Int256) == a + unit
    ensures TwiceAtanh(a, last, unit, Int256) == TwiceAtanh(a, last, unit, Unbounded)
    ensures Abs(TwiceAtanh(a, last, unit, Unbounded)) <= 40 * bound
  {
    hide Atanh;
    FitIsIdentity(a + unit, Int256);
    assert InInt256(a - unit);
    FitIsIdentity(a - unit, Int256);
    FitIsIdentity((a - unit) * unit, Int256);
    assert Abs((a - unit) * unit) == Abs(a - unit) * unit;
    TruncShrinks((a - unit) * unit, a + unit, bound);
    var z := TruncDiv((a - unit) * unit, a + unit);
    SquareFits(z, bound, unit);
    FitIsIdentity(z * z, Int256);
    var square := TruncDiv(z * z, unit);
    AtanhFits(z, square, z, 3, last, unit, bound);
    FitIsIdentity(Atanh(z, square, z, 3, last, unit, Unbounded) * 2, Int256);
  }

  lemma SquareFits(z: int, bound: nat, unit: int)
    requires Abs(z) <= bound <= unit <= ONE_36 && 0 < unit
    ensures 0 <= z * z <= ONE_36 * ONE_36
    ensures 0 <= TruncDiv(z * z, unit) <= unit
  {
    assert z * z == Abs(z) * Abs(z);
    MulMono2(Abs(z), bound, Abs(z), bound);
    MulMono2(bound, unit, bound, unit);
    MulMono2(unit, ONE_36, unit, ONE_36);
    TruncPositive(z * z, unit);
    QuotientAtMost(z * z, unit, unit);
  }

  lemma TakeOutFits(f: LnReduction, n: nat)
    requires n < 2 && WAD <= f.a && 0 <= f.sum <= 200 * WAD
    ensures TakeOut(f, n, Int256) == TakeOut(f, n, Unbounded)
    ensures WAD <= TakeOut(f, n, Unbounded).a <= f.a
    ensures f.a >= A[n] * WAD ==> TakeOut(f, n, Unbounded) == LnReduction(f.a / A[n], f.sum + X[n])
  {
    FitIsIdentity(A[n] * WAD, Int256);
    FitIsIdentity(f.sum + X[n], Int256);
    if f.a >= A[n] * WAD {
      TruncPositive(f.a, A[n]);
      QuotientAtLeast(f.a, A[n], WAD);
    }
  }

  lemma LnFirstFits(a: int)
    requires WAD <= a < TWO255
    ensures LnFirst(a, Int256) == LnFirst(a, Unbounded)
    ensures var f := LnFirst(a, Unbounded);
            && ONE_20 <= f.a <= LN_ARGUMENT_LIMIT
            && (|| (f.sum == 100 * X[0] && f.a < A[4])
                || 0 <= f.sum <= 100 * X[1])
  {
    var f0 := TakeOut(LnReduction(a, 0), 0, Unbounded);
    TakeOutFits(LnReduction(a, 0), 0);
    TakeOutFits(f0, 1);
    var f1 := TakeOut(f0, 1, Unbounded);
    if a >= A[0] * WAD {
      QuotientBelow(a, A[0], 2_000_000_000_000_000_000_000);
    } else if a >= A[1] * WAD {
      QuotientBelow(a, A[1], 10_000_000_000 * ONE_36);
    }
    FitIsIdentity(f1.a * 100, Int256);
    FitIsIdentity(f1.sum * 100, Int256);
  }

  const LN_LIMIT: nat := 176_000_000_000_000_000_000

  lemma LnReducedSum(f: LnReduction)
    requires ONE_20 <= f.a <= LN_ARGUMENT_LIMIT
    requires (f.sum == 100 * X[0] && f.a < A[4]) || 0 <= f.sum <= 100 * X[1]
    ensures LnReduce(f.a, f.sum, 2, Int256) == LnReduce(f.a, f.sum, 2, Unbounded)
    ensures ONE_20 <= LnReduce(f.a, f.sum, 2, Unbounded).a <= LN_ARGUMENT_LIMIT
    ensures 0 <= LnReduce(f.a, f.sum, 2, Unbounded).sum <= 136 * ONE_20
  {
    if f.a < A[4] {
      LnReduceSkips(f.a, f.sum, 2, Unbounded);
      LnReduceSkips(f.a, f.sum, 2, Int256);
      LnReduceFits(f.a, f.sum, 5);
    } else {
      LnReduceFits(f.a, f.sum, 2);
    }
  }

  /** The reduced argument stays at or above one, no step overflows, and the logarithm is small. */
  lemma LnAboveFits(a: int)
    requires WAD <= a < TWO255
    ensures LnAbove(a, Int256) == LnAbove(a, Unbounded)
    ensures LnAbove(a, Unbounded).Ok? && Abs(LnAbove(a, Unbounded).value) <= LN_LIMIT
  {
    LnFirstFits(a);
    var f := LnFirst(a, Unbounded);
    LnReducedSum(f);
    var r := LnReduce(f.a, f.sum, 2, Unbounded);
    TwiceAtanhFits(r.a, 11, ONE_20, ONE_20);
    var t := r.sum + TwiceAtanh(r.a, 11, ONE_20, Unbounded);
    FitIsIdentity(t, Int256);
    TruncShrinks(t, 100, LN_LIMIT);
  }

  lemma LnFits(a: int)
    requires 0 < a < TWO255
    ensures Ln(a, Int256) == Ln(a, Unbounded)
    ensures Ln(a, Unbounded).Ok? && Abs(Ln(a, Unbounded).value) <= LN_LIMIT
  {
    if a < WAD {
      TruncPositive(WAD * WAD, a);
      MulMono(a, WAD, WAD);
      QuotientAtLeast(WAD * WAD, a, WAD);
      LnAboveFits(WAD * WAD / a);
      FitIsIdentity(-LnAbove(WAD * WAD / a, Unbounded).value, Int256);
    } else {
      LnAboveFits(a);
    }
  }

  const LN_36_LIMIT: nat := 3 * 1_000_000_000_000_000_000_000_000_000_000_000_000

  lemma Ln36Fits(x: int)
    requires LN_36_LOWER_BOUND < x < LN_36_UPPER_BOUND
    ensures Ln36(x, Int256) == Ln36(x, Unbounded)
    ensures Ln36(x, Unbounded).Ok? && Abs(Ln36(x, Unbounded).value) <= LN_36_LIMIT
  {
    var a := x * WAD;
    FitIsIdentity(a, Int256);
    TwiceAtanhFits(a, 15, ONE_36, 60_000_000_000_000_000_000_000_000_000_000_000);
  }

  lemma ProductFits(l: int, y: int, bound: nat)
    requires Abs(l) <= bound <= LN_LIMIT && 0 <= y < MILD_EXPONENT_BOUND
    ensures Abs(l * y) <= bound * y
    ensures InInt256(l * y)
  {
    assert Abs(l * y) == Abs(l) * y;
    MulMono(Abs(l), bound, y);
    MulMono(bound, LN_LIMIT, y);
  }

  lemma LogTimesYFits(x: int, y: int)
    requires 0 < x < TWO255 && 0 <= y < MILD_EXPONENT_BOUND
    ensures LogTimesY(x, y, Int256) == LogTimesY(x, y, Unbounded)
    ensures LogTimesY(x, y, Unbounded).Ok?
  {
    if LN_36_LOWER_BOUND < x < LN_36_UPPER_BOUND {
      Ln36Fits(x);
      NearOneFits(Ln36(x, Unbounded).value, y);
    } else {
      LnFits(x);
      ProductFits(Ln(x, Unbounded).value, y, LN_LIMIT);
      FitIsIdentity(Ln(x, Unbounded).value * y, Int256);
    }
  }

  lemma NearOneFits(l: int, y: int)
    requires Abs(l) <= LN_36_LIMIT && 0 <= y < MILD_EXPONENT_BOUND
    ensures NearOne(l, y, Int256) == NearOne(l, y, Unbounded)
  {
    var q, r := TruncDiv(l, WAD), TruncRem(l, WAD);
    TruncShrinks(l, WAD, 3 * WAD);
    ProductFits(q, y, 3 * WAD);
    TruncDivBounds(l, WAD);
    ProductFits(r, y, WAD);
    TruncShrinks(r * y, WAD, y);
    MulMono(y, MILD_EXPONENT_BOUND, 3 * WAD);
    FitIsIdentity(q * y, Int256);
    FitIsIdentity(r * y, Int256);
    FitIsIdentity(q * y + TruncDiv(r * y, WAD), Int256);
  }

  /** Whenever the guards let a power through, no intermediate value leaves int256: the unbounded
      port and the contract's unchecked arithmetic agree on every pair of arguments. */
  lemma PowAgrees(x: nat, y: nat)
    ensures LogExpPow(x, y, Int256) == LogExpPow(x, y, Unbounded)
  {
    if 0 < x < TWO255 && 0 < y < MILD_EXPONENT_BOUND {
      LogTimesYFits(x, y);
      ExpAgrees(TruncDiv(LogTimesY(x, y, Unbounded).value, WAD));
    }
  }

  // ----- the loops -----

  method ExpLoop(x: int, w: Width) returns (r: int)
    ensures r == ExpNonNegative(x, w)
  {
    var rest, product := AfterFirst(x, w), ONE_20;
    for n := 2 to 10
      invariant Reduce(rest, product, n, w) == Reduce(AfterFirst(x, w), ONE_20, 2, w)
    {
      if rest >= X[n] {
        rest := Fit(rest - X[n], w);
        product := TruncDiv(Fit(product * A[n], w), ONE_20);
      }
    }
    var term, series := rest, Fit(ONE_20 + rest, w);
    for n := 2 to 13
      invariant Taylor(rest, term, series, n, w) == Taylor(rest, rest, Fit(ONE_20 + rest, w), 2, w)
    {
      term := TruncDiv(TruncDiv(Fit(term * rest, w), ONE_20), n);
      series := Fit(series + term, w);
    }
    r := TruncDiv(Fit(TruncDiv(Fit(product * series, w), ONE_20) * FirstPower(x), w), 100);
  }

  method AtanhLoop(z: int, square: int, last: nat, unit: int, w: Width) returns (series: int)
    requires 0 < unit
    ensures series == Atanh(z, square, z, 3, last, unit, w)
  {
    var num, d := z, 3;
    series := z;
    while d <= last
      invariant 0 < d
      invariant Atanh(num, square, series, d, last, unit, w) == Atanh(z, square, z, 3, last, unit, w)
    {
      num := TruncDiv(Fit(num * square, w), unit);
      series := Fit(series + TruncDiv(num, d), w);
      d := d + 2;
    }
  }

  method LnLoop(x: int, w: Width) returns (r: Result<int>)
    ensures r == LnAbove(x, w)
  {
    var f := LnFirst(x, w);
    var a, sum := f.a, f.sum;
    for n := 2 to 12
      invariant LnReduce(a, sum, n, w) == LnReduce(f.a, f.sum, 2, w)
    {
      if a >= A[n] {
        a := TruncDiv(Fit(a * ONE_20, w), A[n]);
        sum := Fit(sum + X[n], w);
      }
    }
    if Fit(a + ONE_20, w) == 0 {
      return Err(DivisionByZero);
    }
    var z := TruncDiv(Fit(Fit(a - ONE_20, w) * ONE_20, w), Fit(a + ONE_20, w));
    var series := AtanhLoop(z, TruncDiv(Fit(z * z, w), ONE_20), 11, ONE_20, w);
    return Ok(TruncDiv(Fit(sum + Fit(series * 2, w), w), 100));
  }

  method Ln36Loop(x: int, w: Width) returns (r: Result<int>)
    ensures r == Ln36(x, w)
  {
    var a := Fit(x * WAD, w);
    if Fit(a + ONE_36, w) == 0 {
      return Err(DivisionByZero);
    }
    var z := TruncDiv(Fit(Fit(a - ONE_36, w) * ONE_36, w), Fit(a + ONE_36, w));
    var series := AtanhLoop(z, TruncDiv(Fit(z * z, w), ONE_36), 15, ONE_36, w);
    return Ok(Fit(series * 2, w));
  }
}
