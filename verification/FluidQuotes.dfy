/** What a Fluid pool's prices, reserves, routing and legs guarantee. */
module FluidQuotes {
  import opened Arith
  import QuadraticSolver
  import opened Bits
  import opened BigNumber
  import opened Liquidity
  import opened FluidPool

  // ----- prices and ranges -----

  /** A pool's range words: both edges are a proper fraction of the center away. */
  ghost predicate ProperRange(vars2: nat) {
    UpperPercent(vars2) < SIX && LowerPercent(vars2) <= SIX
  }

  ghost predicate HasWidth(vars2: nat) {
    0 < UpperPercent(vars2) + LowerPercent(vars2)
  }

  ghost predicate SaneRange(vars2: nat) {
    ProperRange(vars2) && HasWidth(vars2)
  }

  lemma EdgesAround(center: nat, vars2: nat)
    requires ProperRange(vars2)
    ensures UpperOf(center, vars2).Ok?
    ensures 0 <= LowerOf(center, vars2) <= center <= UpperOf(center, vars2).value
    ensures HasWidth(vars2) ==> LowerOf(center, vars2) * SIX <= (UpperOf(center, vars2).value + 1) * (SIX - 1)
  {
    hide Field;
    var u, l := UpperPercent(vars2), LowerPercent(vars2);
    MulMono(SIX - u, SIX, center);
    QuotientAtLeast(center * SIX, SIX - u, center);
    QuotientBounds(center * SIX, SIX - u);
    MulMono2(0, center, 0, SIX - l);
    QuotientBounds(center * (SIX - l), SIX);
    MulMono(SIX - l, SIX, center);
    QuotientAtMost(center * (SIX - l), SIX, center);
    var upper := UpperOf(center, vars2).value;
    if 0 < u {
      MulMono(SIX - u, SIX - 1, upper + 1);
    } else if 0 < l {
      MulMono(SIX - l, SIX - 1, center);
    }
  }

  /** A shift never leaves the range it starts from. */
  lemma ShiftStaysInRange(pool: Pool, center: int, upper: int, lower: int, ts: int)
    requires lower <= center <= upper && SwapStamp(pool.vars) <= ts
    requires Shifted(pool, center, upper, lower, ts).Ok?
    ensures lower <= Shifted(pool, center, upper, lower, ts).value <= upper
  {
    hide Field, FromBig;
    var elapsed, time := ts - SwapStamp(pool.vars), Field(pool.vars2, 88, 24);
    if elapsed < time {
      ShareOf(upper - center, elapsed, time);
      ShareOf(center - lower, elapsed, time);
    }
  }

  lemma ShareOf(whole: nat, part: nat, parts: nat)
    requires part < parts
    ensures 0 <= whole * part / parts <= whole
  {
    MulMono2(0, whole, 0, part);
    QuotientBounds(whole * part, parts);
    MulMono(part, parts, whole);
    QuotientAtMost(whole * part, parts, whole);
  }

  /** In both precisions the mean is at most the true one, and falls short of the lower edge by less
      than one unit of the precision; in the fine one it is the exact floor root. */
  lemma MeanWithin(upper: int, lower: int)
    requires 0 <= lower <= upper
    ensures MeanOf(upper, lower).Ok?
    ensures var m := MeanOf(upper, lower).value;
            && m * m <= upper * lower && m <= upper
            && (upper < E38 ==> lower <= m && upper * lower < (m + 1) * (m + 1))
            && lower < m + E18
  {
    MulMono2(0, lower, 0, upper);
    var m;
    if upper < E38 {
      m := Isqrt(upper * lower);
      MulMono(lower, upper, lower);
      IsqrtAtLeast(upper * lower, lower);
    } else {
      CoarseMean(upper, lower);
      m := MeanOf(upper, lower).value;
    }
    MulMono(lower, upper, upper);
    if upper < m { MulMonoStrict(upper, m, m); MulMono(upper, m, upper); }
  }

  lemma CoarseMean(upper: int, lower: int)
    requires 0 <= lower <= upper && E38 <= upper
    ensures MeanOf(upper, lower).Ok? && MeanOf(upper, lower).value * MeanOf(upper, lower).value <= upper * lower
    ensures lower < MeanOf(upper, lower).value + E18
  {
    var u, l := upper / E18, lower / E18;
    QuotientBounds(upper, E18);
    QuotientBounds(lower, E18);
    MulMono2(0, u, 0, l);
    var r := Isqrt(u * l);
    assert (r * E18) * (r * E18) == (r * r) * (E18 * E18);
    MulMono(r * r, u * l, E18 * E18);
    assert (u * l) * (E18 * E18) == (u * E18) * (l * E18);
    MulMono2(u * E18, upper, l * E18, lower);
    QuotientMono(lower, upper, E18);
    MulMono(l, u, l);
    IsqrtAtLeast(u * l, l);
  }

  lemma RangesOrdered(pool: Pool, ts: int)
    requires ProperRange(pool.vars2) && RangesOf(pool, ts).Ok?
    ensures var g := RangesOf(pool, ts).value;
            && 0 <= g.lower <= g.center <= g.upper
            && (MinCenter(pool.vars2) <= MaxCenter(pool.vars2) <==>
                MinCenter(pool.vars2) <= g.center <= MaxCenter(pool.vars2))
            && g.mean * g.mean <= g.upper * g.lower && g.mean <= g.upper
            && (HasWidth(pool.vars2) && E27 <= g.mean ==> g.lower <= g.mean)
  {
    hide Field, FromBig, ProperRange, HasWidth, Shifted, UpperOf, LowerOf, MeanOf, Shr;
    var g := RangesOf(pool, ts).value;
    EdgesAround(g.center, pool.vars2);
    MeanWithin(g.upper, g.lower);
    if HasWidth(pool.vars2) && E38 <= g.upper && E27 <= g.mean { CoarseMeanAboveLower(g.upper, g.lower); }
  }

  /** A range with a width is wide enough that the coarse mean still clears the lower edge. */
  lemma CoarseMeanAboveLower(upper: int, lower: int)
    requires 0 <= lower <= upper && E38 <= upper && lower * SIX <= (upper + 1) * (SIX - 1)
    requires MeanOf(upper, lower).Ok? && 0 < MeanOf(upper, lower).value
    ensures lower <= MeanOf(upper, lower).value
  {
    var u, l := upper / E18, lower / E18;
    QuotientBounds(upper, E18);
    QuotientBounds(lower, E18);
    var r := Isqrt(u * l);
    IsqrtUnique(0, 0);
    assert l == 0 ==> u * l == 0;
    assert l + 3 <= u;
    MulMono(l + 3, u, l);
    IsqrtAtLeast(u * l, l + 1);
    MulMono(l + 1, r, E18);
  }

  // ----- reserves -----

  /** z is the floor of the non-negative root of z*z - 2*p*z - q. */
  ghost predicate FloorRoot(z: int, p: int, q: int) {
    QuadraticSolver.IsRoot(z, -2 * p, q)
  }

  lemma RootIsFloor(p: int, q: nat)
    ensures 0 <= q + p * p && FloorRoot(p + Isqrt(q + p * p), p, q)
  {
    SquareNonNegative(p);
    var s := Isqrt(q + p * p);
    if p < 0 {
      IsqrtAtLeast(q + p * p, -p);
    }
    CompletedSquare(p, s);
    CompletedSquare(p, s + 1);
  }

  lemma CompletedSquare(p: int, s: int)
    ensures (p + s) * (p + s) + -2 * p * (p + s) == s * s - p * p
  {
  }

  /** The term under the root is the quotient, to within its precision. */
  lemma ScaledProductWithin(product: nat, divisor: int)
    requires 0 < divisor
    ensures ScaledProduct(product, divisor).Ok?
    ensures var q := ScaledProduct(product, divisor).value;
            && 0 <= q && q * divisor <= product * E27 < (q + E27) * divisor
  {
    if product < E50 {
      QuotientBounds(product * E27, divisor);
      MulMono(1, E27, divisor);
    } else {
      QuotientBounds(product, divisor);
      var q := product / divisor;
      assert (q * E27) * divisor == (q * divisor) * E27;
      assert (q * E27 + E27) * divisor == (q * divisor + divisor) * E27;
    }
  }

  lemma LinearTermNonNegative(gp: nat, divisor: int, rx: nat, ry: nat)
    requires 0 < divisor
    ensures LinearTerm(gp, divisor, rx, ry).Ok? && 0 <= LinearTerm(gp, divisor, rx, ry).value
  {
    MulMono2(0, gp, 0, rx);
    QuotientBounds(gp * rx + ry * E27, 2 * divisor);
  }

  /** The imaginary reserve is the exact floor root of the range's quadratic. */
  lemma OutsideRangeExact(gp: int, pa: int, rx: nat, ry: nat)
    requires 0 <= gp < pa
    ensures RangeRoot(gp, pa, rx, ry).Ok? && LinearTerm(gp, pa - gp, rx, ry).Ok? && ScaledProduct(rx * ry, pa - gp).Ok?
    ensures FloorRoot(RangeRoot(gp, pa, rx, ry).value,
                      LinearTerm(gp, pa - gp, rx, ry).value, ScaledProduct(rx * ry, pa - gp).value)
  {
    hide ScaledProduct, FloorRoot, LinearTerm;
    LinearTermNonNegative(gp, pa - gp, rx, ry);
    MulMono2(0, rx, 0, ry);
    ScaledProductWithin(rx * ry, pa - gp);
    RootIsFloor(LinearTerm(gp, pa - gp, rx, ry).value, ScaledProduct(rx * ry, pa - gp).value);
  }

  lemma DebtProductNonNegative(product: nat, pb: nat)
    ensures 0 <= DebtProduct(product, pb)
  {
    MulMono2(0, product, 0, pb);
    QuotientBounds(product * pb, E27);
    MulMono2(0, product / E27, 0, pb);
  }

  /** The real reserve of a debt is the exact floor root, so its sign check never fires. */
  lemma DebtRootExact(gp: nat, pb: nat, dx: nat, dy: nat)
    ensures DebtSolved(gp, pb, dx, dy) != Err(Revert("negative"))
    ensures DebtSolved(gp, pb, dx, dy).Ok? ==>
              FloorRoot(DebtSolved(gp, pb, dx, dy).value.r1,
                        TruncDiv(dx * gp - dy * E27, 2 * E27), DebtProduct(dx * dy, pb))
  {
    hide DebtProduct, TruncDiv;
    MulMono2(0, dx, 0, dy);
    DebtProductNonNegative(dx * dy, pb);
    var p := TruncDiv(dx * gp - dy * E27, 2 * E27);
    RootIsFloor(p, DebtProduct(dx * dy, pb));
  }

  lemma DebtNonNegative(gp: nat, pb: nat, dx: nat, dy: nat)
    requires DebtSolved(gp, pb, dx, dy).Ok?
    ensures var r := DebtSolved(gp, pb, dx, dy).value;
            0 <= r.r0 <= r.i0 && 0 <= r.r1 <= r.i1
  {
    hide DebtProduct, TruncDiv, FloorRoot;
    var r := DebtSolved(gp, pb, dx, dy).value;
    var ry, edge := r.r1, r.r1 * E27 - dx * pb;
    MulMono2(0, dx, 0, pb);
    assert 0 < ry;
    ImaginaryAboveReal(ry, edge);
    MulMono(ry, r.i1, dx);
    QuotientAtLeast(r.i1 * dx, ry, dx);
    RealBelowImaginary(r.i0, r.i1, dy);
  }

  lemma RealBelowImaginary(irx: nat, iry: int, dy: nat)
    requires 0 < iry
    ensures 0 <= irx * dy / (iry + dy) <= irx
  {
    MulMono2(0, irx, 0, dy);
    QuotientBounds(irx * dy, iry + dy);
    MulMono(dy, iry + dy, irx);
    QuotientAtMost(irx * dy, iry + dy, irx);
  }

  lemma ImaginaryAboveReal(ry: nat, edge: int)
    requires 0 < ry && 0 < edge <= ry * E27
    ensures ry <= ry * ry * E27 / edge
    ensures 0 < edge / E27 ==> ry <= ry * ry / (edge / E27)
  {
    MulMono(edge, ry * E27, ry);
    assert ry * E27 * ry == ry * ry * E27;
    QuotientAtLeast(ry * ry * E27, edge, ry);
    QuotientAtMost(edge, E27, ry);
    if 0 < edge / E27 {
      MulMono(edge / E27, ry, ry);
      QuotientAtLeast(ry * ry, edge / E27, ry);
    }
  }

  // ----- both sides of a pool -----

  ghost predicate NonNegativeSide(s: Side) {
    0 <= s.realIn && 0 <= s.realOut && 0 <= s.imagIn && 0 <= s.imagOut
  }

  lemma HeldNonNegative(word: nat, price: nat, num: nat, den: nat)
    requires Held(word, price, num, den).Ok?
    ensures 0 <= Held(word, price, num, den).value
  {
    hide Field, FromBig;
    var amount := Amount(word);
    MulMono2(0, amount, 0, price);
    var v := if WithInterest(word) then amount * price / PRICE_UNIT else amount;
    MulMono2(0, v, 0, num);
    QuotientBounds(v * num, den);
  }

  ghost predicate RangeSound(g: Ranges) {
    0 <= g.lower && g.mean <= g.upper && (E27 <= g.mean ==> g.lower <= g.mean)
  }

  lemma ColNonNegative(pool: Pool, g: Ranges, price0: nat, price1: nat)
    requires RangeSound(g) && ColReserves(pool, g, price0, price1).Ok?
    ensures var r := ColReserves(pool, g, price0, price1).value; 0 <= r.r0 <= r.i0 && 0 <= r.r1 <= r.i1
  {
    hide Held, OutsideRange;
    HeldNonNegative(pool.token0.supply, price0, pool.num0, pool.den0);
    HeldNonNegative(pool.token1.supply, price1, pool.num1, pool.den1);
    var s0 := Held(pool.token0.supply, price0, pool.num0, pool.den0).value;
    var s1 := Held(pool.token1.supply, price1, pool.num1, pool.den1).value;
    if g.mean < E27 {
      SolvedRangeNonNegative(g.mean, g.upper, s0, s1);
    } else {
      QuotientAntitone(E54, g.lower, g.mean);
      QuotientBounds(E54, g.mean);
      SolvedRangeNonNegative(E54 / g.mean, E54 / g.lower, s1, s0);
    }
  }

  lemma SolvedRangeNonNegative(gp: int, pa: int, rx: nat, ry: nat)
    requires 0 <= gp <= pa && OutsideRange(gp, pa, rx, ry).Ok?
    ensures 0 <= OutsideRange(gp, pa, rx, ry).value.x && 0 <= OutsideRange(gp, pa, rx, ry).value.y
  {
    hide ScaledProduct, Rooted;
    assert gp != pa;
    OutsideRangeExact(gp, pa, rx, ry);
    var z := OutsideRange(gp, pa, rx, ry).value.x;
    MulMono2(0, z, 0, gp);
    QuotientBounds(z * gp, E27);
  }

  lemma DebtSideNonNegative(pool: Pool, g: Ranges, price0: nat, price1: nat)
    requires RangeSound(g) && DebtReserves(pool, g, price0, price1).Ok?
    ensures var r := DebtReserves(pool, g, price0, price1).value; 0 <= r.r0 && 0 <= r.r1 && 0 <= r.i0 && 0 <= r.i1
  {
    hide Held, DebtSolved;
    HeldNonNegative(pool.token0.borrow, price0, pool.num0, pool.den0);
    HeldNonNegative(pool.token1.borrow, price1, pool.num1, pool.den1);
    var d0 := Held(pool.token0.borrow, price0, pool.num0, pool.den0).value;
    var d1 := Held(pool.token1.borrow, price1, pool.num1, pool.den1).value;
    if g.mean < E27 {
      DebtNonNegative(g.mean, g.lower, d0, d1);
    } else {
      QuotientBounds(E54, g.mean);
      QuotientBounds(E54, g.upper);
      DebtNonNegative(E54 / g.mean, E54 / g.upper, d1, d0);
    }
  }

  lemma SidesNonNegative(pool: Pool, g: Ranges, p0: Prices, p1: Prices, zeroForOne: bool)
    requires RangeSound(g) && 0 <= p0.supply && 0 <= p0.borrow && 0 <= p1.supply && 0 <= p1.borrow
    requires SidesOf(pool, g, p0, p1, zeroForOne).Ok?
    ensures var s := SidesOf(pool, g, p0, p1, zeroForOne).value; NonNegativeSide(s.col) && NonNegativeSide(s.debt)
  {
    hide ColReserves, DebtReserves, Field, RangeSound;
    if SmartCol(pool.vars2) { ColNonNegative(pool, g, p0.supply, p1.supply); }
    if SmartDebt(pool.vars2) { DebtSideNonNegative(pool, g, p0.borrow, p1.borrow); }
  }

  // ----- routing -----

  /** Every amount has a route, and its parts are not negative and add up to it. */
  lemma RouteConserves(amount: nat, smartCol: bool, smartDebt: bool, routing: int)
    ensures Route(amount, smartCol, smartDebt, routing).Ok?
    ensures var s := Route(amount, smartCol, smartDebt, routing).value;
            0 <= s.col && 0 <= s.debt && s.col + s.debt == amount
  {
  }

  /** The split balances the two legs to within one unit of the roots: with p and q the computed
      roots, the marginal prices (y + a) / p and (y2 + t - a) / q agree as closely as an integer
      split allows. */
  lemma RoutingBalances(t: int, x: int, y: int, x2: int, y2: int)
    requires SwapRouting(t, x, y, x2, y2).Ok?
    ensures 0 <= x * y * E18 && 0 <= x2 * y2 * E18
    ensures var a := SwapRouting(t, x, y, x2, y2).value;
            var p, q := Isqrt(x * y * E18), Isqrt(x2 * y2 * E18);
            Abs((y + a) * q - (y2 + t - a) * p) < p + q
  {
    hide TruncDiv;
    var p, q := Isqrt(x * y * E18), Isqrt(x2 * y2 * E18);
    var n := y2 * p + t * p - y * q;
    TruncDivBounds(n, p + q);
    var a := TruncDiv(n, p + q);
    SplitAlgebra(t, y, y2, a, p, q);
  }

  lemma SplitAlgebra(t: int, y: int, y2: int, a: int, p: int, q: int)
    ensures (y + a) * q - (y2 + t - a) * p == a * (p + q) - (y2 * p + t * p - y * q)
  {
  }

  /** A leg is used only when both of its reserves are positive. */
  lemma RoutedLegsPositive(t: nat, x: nat, y: nat, x2: nat, y2: nat)
    requires 0 < t && SwapRouting(t, x, y, x2, y2).Ok?
    ensures 0 < SwapRouting(t, x, y, x2, y2).value ==> 0 < x && 0 < y
    ensures SwapRouting(t, x, y, x2, y2).value < t ==> 0 < x2 && 0 < y2
  {
    hide TruncDiv;
    var p, q := Isqrt(x * y * E18), Isqrt(x2 * y2 * E18);
    var n := y2 * p + t * p - y * q;
    TruncDivBounds(n, p + q);
    if x == 0 || y == 0 {
      assert x * y == 0;
      IsqrtUnique(0, 0);
      MulMono2(0, y, 0, q);
    }
    if x2 == 0 || y2 == 0 {
      assert x2 * y2 == 0;
      IsqrtUnique(0, 0);
      assert n == (y2 + t) * p;
      QuotientUnique(n, p, y2 + t);
    }
  }

  // ----- routing over the reals -----

  /** Output of one leg without fees, over the reals. */
  ghost function RealOut(x: real, y: real, a: real): real
    requires y + a != 0.0
  {
    x * a / (y + a)
  }

  /** The split the routing formula aims for, and the part of it inside [0, t]. */
  ghost function RealRouting(t: real, y: real, y2: real, p: real, q: real): real
    requires p + q != 0.0
  {
    (y2 * p + t * p - y * q) / (p + q)
  }

  ghost function RealSplit(t: real, y: real, y2: real, p: real, q: real): real
    requires p + q != 0.0
  {
    var a := RealRouting(t, y, y2, p, q);
    if a < 0.0 then 0.0 else if a > t then t else a
  }

  lemma RealMulMono(a: real, b: real, c: real)
    requires a <= b && 0.0 <= c
    ensures a * c <= b * c
  {
  }

  /** Output gained on a leg of product k when its input reserve grows by d, from u to w. */
  ghost function Gain(k: real, d: real, u: real, w: real): real
    requires u * w != 0.0
  {
    k * d / (u * w)
  }

  lemma RealOutMoves(x: real, y: real, a: real, c: real)
    requires 0.0 < y && 0.0 <= a && 0.0 <= c
    ensures 0.0 < (y + a) * (y + c)
    ensures RealOut(x, y, c) - RealOut(x, y, a) == Gain(x * y, c - a, y + a, y + c)
  {
    var u, v := y + a, y + c;
    RealProductPositive(u, v);
    var d := x * c / v - x * a / u;
    assert x * c / v * v == x * c;
    assert x * a / u * u == x * a;
    RealDistribute(x * c / v, x * a / u, u, v);
    assert d * (u * v) == x * c * u - x * a * v;
    RealCross(x, y, a, c);
    RealQuotientIs(x * y * (c - a), u * v, d);
  }

  lemma RealProductPositive(u: real, v: real)
    requires 0.0 < u && 0.0 < v
    ensures 0.0 < u * v
  {
  }

  lemma RealDistribute(m: real, n: real, u: real, v: real)
    ensures (m - n) * (u * v) == m * v * u - n * u * v
  {
  }

  lemma RealCross(x: real, y: real, a: real, c: real)
    ensures x * c * (y + a) - x * a * (y + c) == x * y * (c - a)
  {
  }

  lemma RealQuotientIs(n: real, d: real, r: real)
    requires d != 0.0 && r * d == n
    ensures n / d == r
  {
  }

  /** The larger of two fractions with the same positive numerator factor. */
  lemma RealFractions(m: real, n: real, u: real, v: real)
    requires 0.0 < u && 0.0 < v && n * u <= m * v
    ensures n / v <= m / u
  {
    var a, b := n / v, m / u;
    RealRegroup3(a, u, v);
    RealRegroup3(b, v, u);
    RealProductPositive(u, v);
    RealMulCancel(a, b, u * v);
  }

  lemma RealRegroup3(a: real, u: real, v: real)
    ensures a * (u * v) == a * v * u == a * (v * u)
  {
  }

  lemma RealMulCancel(a: real, b: real, w: real)
    requires a * w <= b * w && 0.0 < w
    ensures a <= b
  {
  }

  lemma RealMulMono2(a: real, b: real, c: real, d: real)
    requires 0.0 <= a <= b && 0.0 <= c <= d
    ensures a * c <= b * d
  {
    RealMulMono(a, b, c);
    RealMulMono(c, d, b);
  }

  /** Short of the balance point, moving d from leg two to leg one gains more than it loses. */
  lemma TowardBalance(k: real, k2: real, p: real, q: real, u: real, w: real, v: real, z: real, d: real)
    requires 0.0 <= p && 0.0 <= q && p * p == k && q * q == k2
    requires 0.0 < u <= w && 0.0 < z <= v && 0.0 <= d && q * w <= p * z
    ensures 0.0 < u * w && 0.0 < v * z
    ensures Gain(k2, d, v, z) <= Gain(k, d, u, w)
  {
    RealProductPositive(u, w);
    RealProductPositive(v, z);
    RealMulMono(u, w, q);
    RealMulMono(z, v, p);
    RealMulMono(0.0, u, q);
    RealMulMono2(q * u, p * v, q * w, p * z);
    RealRegroup(q, u, w);
    RealRegroup(p, v, z);
    RealMulMono(k2 * (u * w), k * (v * z), d);
    RealSwap(k2, u * w, d);
    RealSwap(k, v * z, d);
    RealFractions(k * d, k2 * d, u * w, v * z);
  }

  lemma RealRegroup(q: real, u: real, w: real)
    ensures q * u * (q * w) == q * q * (u * w)
  {
  }

  lemma RealSwap(a: real, b: real, c: real)
    ensures a * b * c == a * c * b
  {
  }

  /** Of all ways to split t between the two legs, the routing formula's gives the largest output. */
  lemma RoutingIsOptimal(t: real, x: real, y: real, x2: real, y2: real, p: real, q: real, a: real)
    requires 0.0 < x && 0.0 < y && 0.0 < x2 && 0.0 < y2 && 0.0 <= a <= t
    requires 0.0 < p && 0.0 < q && p * p == x * y && q * q == x2 * y2
    ensures var c := RealSplit(t, y, y2, p, q);
            && 0.0 <= c <= t
            && RealOut(x, y, a) + RealOut(x2, y2, t - a) <= RealOut(x, y, c) + RealOut(x2, y2, t - c)
  {
    hide RealOut, RealRouting, Gain;
    var c := RealSplit(t, y, y2, p, q);
    Balanced(t, y, y2, p, q, c);
    if a < c {
      MoveTowardBalance(x, y, x2, y2, p, q, a, c, t - a, t - c);
    } else if c < a {
      MoveTowardBalance(x2, y2, x, y, q, p, t - a, t - c, a, c);
    }
  }

  lemma MoveTowardBalance(x: real, y: real, x2: real, y2: real, p: real, q: real, a: real, c: real, b: real, e: real)
    requires 0.0 < y && 0.0 < y2 && 0.0 <= a <= c && 0.0 <= e <= b && b - e == c - a
    requires 0.0 < p && 0.0 < q && p * p == x * y && q * q == x2 * y2
    requires q * (y + c) <= p * (y2 + e)
    ensures RealOut(x, y, a) + RealOut(x2, y2, b) <= RealOut(x, y, c) + RealOut(x2, y2, e)
  {
    hide RealOut, Gain;
    SplitGains(x, y, a, c);
    SplitGains(x2, y2, e, b);
    TowardBalance(x * y, x2 * y2, p, q, y + a, y + c, y2 + b, y2 + e, c - a);
  }

  /** The gain of a move reads the same from either end. */
  lemma SplitGains(x: real, y: real, a: real, c: real)
    requires 0.0 < y && 0.0 <= a <= c
    ensures 0.0 < (y + a) * (y + c) && 0.0 < (y + c) * (y + a)
    ensures RealOut(x, y, c) - RealOut(x, y, a) == Gain(x * y, c - a, y + a, y + c)
    ensures RealOut(x, y, c) - RealOut(x, y, a) == Gain(x * y, c - a, y + c, y + a)
  {
    RealOutMoves(x, y, a, c);
    RealCommute(y + a, y + c);
  }

  lemma RealCommute(u: real, w: real)
    ensures u * w == w * u
  {
  }

  /** Short of the routing point leg one is still the better one, and past it leg two. */
  lemma Balanced(t: real, y: real, y2: real, p: real, q: real, c: real)
    requires 0.0 < p && 0.0 < q
    ensures c <= RealRouting(t, y, y2, p, q) ==> q * (y + c) <= p * (y2 + (t - c))
    ensures RealRouting(t, y, y2, p, q) <= c ==> p * (y2 + (t - c)) <= q * (y + c)
  {
    var a := RealRouting(t, y, y2, p, q);
    assert a * (p + q) == y2 * p + t * p - y * q;
    if c <= a { RealMulMono(c, a, p + q); }
    if a <= c { RealMulMono(a, c, p + q); }
    assert p * (y2 + (t - c)) - q * (y + c) == y2 * p + t * p - y * q - c * (p + q);
  }

  // ----- legs -----

  /** The revenue is taken from the fee alone. */
  ghost predicate CutWithinFee(feeWord: nat, cut: nat) {
    cut <= 100 || feeWord == 0
  }

  /** Then at least the priced amount is credited, and no more than was given. */
  lemma CreditCoversPriced(amount: nat, feeWord: nat, cut: nat)
    requires CutWithinFee(feeWord, cut) && feeWord <= SIX
    ensures 0 <= AfterFee(amount, feeWord) <= AfterCut(amount, feeWord, cut) <= amount
  {
    MulMono2(0, amount, 0, SIX - feeWord);
    QuotientBounds(amount * (SIX - feeWord), SIX);
    var f := AfterFee(amount, feeWord);
    if cut <= 100 { MulMono(cut, 100, feeWord); } else { assert cut * feeWord == 0; }
    MulMono(100 * (SIX - feeWord), EIGHT - cut * feeWord, amount);
    assert amount * (100 * (SIX - feeWord)) == 100 * (amount * (SIX - feeWord));
    QuotientAtLeast(amount * (EIGHT - cut * feeWord), EIGHT, f);
    MulMono2(0, cut, 0, feeWord);
    MulMono(EIGHT - cut * feeWord, EIGHT, amount);
    QuotientAtMost(amount * (EIGHT - cut * feeWord), EIGHT, amount);
  }

  /** Whatever the amount, the credit covers what was priced. */
  ghost predicate CreditAlwaysCovers(feeWord: nat, cut: nat) {
    forall amount: nat :: AfterFee(amount, feeWord) <= AfterCut(amount, feeWord, cut)
  }

  /** That is so exactly when the revenue is taken from the fee alone. */
  lemma CreditCondition(feeWord: nat, cut: nat)
    requires feeWord <= SIX
    ensures CreditAlwaysCovers(feeWord, cut) <==> CutWithinFee(feeWord, cut)
  {
    hide AfterFee, AfterCut;
    if CutWithinFee(feeWord, cut) {
      forall amount: nat ensures AfterFee(amount, feeWord) <= AfterCut(amount, feeWord, cut) {
        CreditCoversPriced(amount, feeWord, cut);
      }
    } else {
      CreditFallsShort(feeWord, cut);
    }
  }

  /** Otherwise an amount of 1e8 is credited less than it is priced at. */
  lemma CreditFallsShort(feeWord: nat, cut: nat)
    requires !CutWithinFee(feeWord, cut)
    ensures AfterFee(EIGHT, feeWord) == EIGHT - 100 * feeWord
    ensures AfterCut(EIGHT, feeWord, cut) < AfterFee(EIGHT, feeWord)
  {
    MulMonoStrict(100, cut, feeWord);
    QuotientUnique(EIGHT * (SIX - feeWord), SIX, EIGHT - 100 * feeWord);
    QuotientUnique(EIGHT * (EIGHT - cut * feeWord), EIGHT, EIGHT - cut * feeWord);
  }

  lemma OutKeepsProduct(priced: nat, credited: nat, imagIn: nat, imagOut: nat)
    requires priced <= credited && 0 < imagIn
    ensures AmountOut(priced, imagIn, imagOut).Ok?
    ensures var o := AmountOut(priced, imagIn, imagOut).value;
            && 0 <= o <= imagOut && (0 < imagOut ==> o < imagOut)
            && imagIn * imagOut <= (imagIn + credited) * (imagOut - o)
  {
    var o := priced * imagOut / (imagIn + priced);
    MulMono2(0, priced, 0, imagOut);
    QuotientBounds(priced * imagOut, imagIn + priced);
    MulMono(priced, imagIn + priced, imagOut);
    QuotientAtMost(priced * imagOut, imagIn + priced, imagOut);
    if 0 < imagOut {
      MulMonoStrict(priced, imagIn + priced, imagOut);
      QuotientBelow(priced * imagOut, imagIn + priced, imagOut);
    }
    assert (imagIn + priced) * (imagOut - o) == imagIn * imagOut + priced * imagOut - o * (imagIn + priced);
    MulMono(imagIn + priced, imagIn + credited, imagOut - o);
  }

  /** The product of the imaginary reserves does not fall on one leg of a swap, and the leg's
      output is less than the reserve it comes from. */
  ghost predicate LegKeepsProduct(s: Side, credited: int, out: int) {
    && 0 <= credited && 0 <= out < s.imagOut && out <= s.realOut
    && s.imagIn * s.imagOut <= (s.imagIn + credited) * (s.imagOut - out)
  }

  lemma LegWithin(s: Side, amount: int, feeWord: nat, cut: nat, center: nat, zeroForOne: bool)
    requires CutWithinFee(feeWord, cut) && feeWord <= SIX
    requires 0 < amount && NonNegativeSide(s) && 0 < s.imagIn && 0 < s.imagOut
    requires LegOut(s, amount, feeWord, center, zeroForOne).Ok?
    ensures LegKeepsProduct(s, AfterCut(amount, feeWord, cut), LegOut(s, amount, feeWord, center, zeroForOne).value)
  {
    hide AfterFee, AfterCut, AmountOut, CutWithinFee;
    CreditCoversPriced(amount, feeWord, cut);
    OutKeepsProduct(AfterFee(amount, feeWord), AfterCut(amount, feeWord, cut), s.imagIn, s.imagOut);
  }

  /** Whatever the reserves, the amount, the center and the direction, a leg that is priced keeps its
      product. */
  ghost predicate LegsKeepProduct(feeWord: nat, cut: nat) {
    forall s: Side, amount: int, center: nat, zeroForOne: bool ::
      0 < amount && NonNegativeSide(s) && 0 < s.imagIn && 0 < s.imagOut
      && LegOut(s, amount, feeWord, center, zeroForOne).Ok? ==>
        LegKeepsProduct(s, AfterCut(amount, feeWord, cut), LegOut(s, amount, feeWord, center, zeroForOne).value)
  }

  /** That is so exactly when the revenue is taken from the fee alone. */
  lemma LegProductCondition(feeWord: nat, cut: nat)
    requires feeWord <= SIX
    ensures LegsKeepProduct(feeWord, cut) <==> CutWithinFee(feeWord, cut)
  {
    hide LegOut, AfterCut, CutWithinFee, NonNegativeSide;
    if CutWithinFee(feeWord, cut) {
      forall s: Side, amount: int, center: nat, zeroForOne: bool
        | 0 < amount && NonNegativeSide(s) && 0 < s.imagIn && 0 < s.imagOut
          && LegOut(s, amount, feeWord, center, zeroForOne).Ok?
        ensures LegKeepsProduct(s, AfterCut(amount, feeWord, cut),
                                LegOut(s, amount, feeWord, center, zeroForOne).value)
      {
        LegWithin(s, amount, feeWord, cut, center, zeroForOne);
      }
    } else {
      LegLosesProduct(feeWord, cut, true);
    }
  }

  /** The leg on which an amount of 1e8 buys exactly what it is priced at. */
  ghost function EvenSide(feeWord: nat): Side {
    var priced := EIGHT - 100 * feeWord;
    Side(EIGHT, EIGHT + priced, 2 * EIGHT, 2 * EIGHT + priced)
  }

  /** Otherwise the product falls on that leg, in either direction, at a center price of one. */
  lemma LegLosesProduct(feeWord: nat, cut: nat, zeroForOne: bool)
    requires feeWord <= SIX && !CutWithinFee(feeWord, cut)
    ensures NonNegativeSide(EvenSide(feeWord)) && 0 < EvenSide(feeWord).imagIn && 0 < EvenSide(feeWord).imagOut
    ensures LegOut(EvenSide(feeWord), EIGHT, feeWord, E27, zeroForOne) == Ok(EIGHT - 100 * feeWord)
    ensures var s, out := EvenSide(feeWord), EIGHT - 100 * feeWord;
            (s.imagIn + AfterCut(EIGHT, feeWord, cut)) * (s.imagOut - out) < s.imagIn * s.imagOut
  {
    hide AfterFee, AfterCut, CutWithinFee;
    CreditFallsShort(feeWord, cut);
    var a, c, i := EIGHT - 100 * feeWord, AfterCut(EIGHT, feeWord, cut), 2 * EIGHT;
    QuotientUnique(a * (i + a), i + a, a);
    QuotientUnique(2 * EIGHT * E27, E27 * MINIMUM_LIQUIDITY, 2 * EIGHT / MINIMUM_LIQUIDITY);
    MulMonoStrict(i + c, i + a, i);
  }

  /** After a leg, at the center price, neither real reserve is more than ten thousand times the other
      in the direction the swap moved them, up to a unit. */
  lemma LegLeavesReserves(s: Side, amount: int, feeWord: nat, center: nat, zeroForOne: bool)
    requires 0 < amount && LegOut(s, amount, feeWord, center, zeroForOne).Ok?
    ensures var left := s.realOut - LegOut(s, amount, feeWord, center, zeroForOne).value;
            && 0 <= left
            && (zeroForOne ==> (s.realIn + amount) * center < (left + 1) * (E27 * MINIMUM_LIQUIDITY))
            && (!zeroForOne ==> (s.realIn + amount) * E27 < (left + 1) * (center * MINIMUM_LIQUIDITY))
  {
    hide AfterFee, AmountOut;
    var left := s.realOut - LegOut(s, amount, feeWord, center, zeroForOne).value;
    if zeroForOne {
      QuotientBounds((s.realIn + amount) * center, E27 * MINIMUM_LIQUIDITY);
      MulMono((s.realIn + amount) * center / (E27 * MINIMUM_LIQUIDITY), left, E27 * MINIMUM_LIQUIDITY);
    } else {
      var unit := center * MINIMUM_LIQUIDITY;
      QuotientBounds((s.realIn + amount) * E27, unit);
      MulMono((s.realIn + amount) * E27 / unit, left, unit);
    }
  }
}
