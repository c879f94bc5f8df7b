/** Dynamic fees of Curve pools. Every one of them moves between two configured ends as the
    pool leaves balance; the balance measure never exceeds one by the inequality between the
    arithmetic and geometric means, so no subtraction in them can underflow. */
module CurveFees {
  import opened Arith

  const MIN_FEE: nat := 100_000


  /** A checked uint256 result. */
  function Checked(v: int): Result<nat> {
    if v < 0 then Err(Underflow) else if v >= UINT256 then Err(Overflow) else Ok(v)
  }

  function Divide(a: nat, b: nat): Result<nat> {
    if b == 0 then Err(DivisionByZero) else QuotientBounds(a, b); Ok(a / b)
  }

  // ----- two coins, checked arithmetic -----

  /** Four times the product of the two shares of the pool: 1e18 in balance, never above. */
  function TwoBalance(x0: nat, x1: nat): (r: Result<nat>)
    ensures r != Err(Underflow)
    ensures r.Ok? ==> r.value <= WAD
  {
    var s :- Checked(x0 + x1);
    var a :- Checked(WAD * 4 * x0);
    var b :- Divide(a, s);
    var c :- Checked(b * x1);
    BalanceAtMostOne(x0, x1);
    Divide(c, s)
  }

  /** Weight of the mid fee: 1e18 in balance, falling to gamma / (1 + gamma) of it. */
  function Weight(feeGamma: nat, balance: nat): (r: Result<nat>)
    ensures balance <= WAD ==> r != Err(Underflow)
    ensures balance <= WAD && r.Ok? ==> r.value <= WAD
  {
    var sum :- Checked(feeGamma + WAD);
    var top :- Checked(feeGamma * WAD);
    var bottom :- Checked(sum - balance);
    WeightAtMostOne(feeGamma, bottom);
    Divide(top, bottom)
  }

  /** A blend of two fees lies between them. */
  function Blend(midFee: nat, outFee: nat, f: nat): (r: Result<nat>)
    ensures f <= WAD ==> r != Err(Underflow)
    ensures f <= WAD && r.Ok? ==> Min(midFee, outFee) <= r.value <= Max(midFee, outFee)
  {
    var a :- Checked(midFee * f);
    var rest :- Checked(WAD - f);
    var b :- Checked(outFee * rest);
    var c :- Checked(a + b);
    BlendBounds(midFee, outFee, f);
    Divide(c, WAD)
  }

  /** The fee lies between its configured ends, and no subtraction on the way underflows. */
  function TwoFee(x0: nat, x1: nat, midFee: nat, outFee: nat, feeGamma: nat): (r: Result<nat>)
    ensures r != Err(Underflow)
    ensures r.Ok? ==> Min(midFee, outFee) <= r.value <= Max(midFee, outFee)
  {
    var balance :- TwoBalance(x0, x1);
    var f :- Weight(feeGamma, balance);
    Blend(midFee, outFee, f)
  }

  /** Two nested floors by s stay below the real quotient a x / s^2. */
  lemma FloorProduct(a: nat, x: nat, s: nat)
    requires 0 < s
    ensures ((a / s) * x) / s * (s * s) <= a * x
  {
    QuotientBounds(a, s);
    QuotientBounds((a / s) * x, s);
    var q, r := a / s, ((a / s) * x) / s;
    MulMono(q * s, a, x);
    MulMono(r * s, q * x, s);
    assert r * s * s == r * (s * s);
    assert q * x * s == q * s * x;
  }

  lemma MeansTwo(x0: nat, x1: nat)
    ensures 4 * (x0 * x1) <= (x0 + x1) * (x0 + x1)
  {
    assert (x0 + x1) * (x0 + x1) - 4 * (x0 * x1) == (x0 - x1) * (x0 - x1);
    assert 0 <= (x0 - x1) * (x0 - x1);
  }

  lemma BalanceAtMostOne(x0: nat, x1: nat)
    ensures 0 < x0 + x1 ==> 0 <= (WAD * 4 * x0 / (x0 + x1) * x1) / (x0 + x1) <= WAD
  {
    var s := x0 + x1;
    if 0 < s {
      var k := (WAD * 4 * x0 / s * x1) / s;
      FloorProduct(WAD * 4 * x0, x1, s);
      MeansTwo(x0, x1);
      assert WAD * 4 * x0 * x1 == WAD * (4 * (x0 * x1));
      MulMono(4 * (x0 * x1), s * s, WAD);
      assert 0 < s * s by { MulMonoStrict(0, s, s); }
      MulCancel(k, WAD, s * s);
      QuotientBounds(WAD * 4 * x0, s);
      MulMono2(0, WAD * 4 * x0 / s, 0, x1);
      QuotientBounds(WAD * 4 * x0 / s * x1, s);
    }
  }

  lemma WeightAtMostOne(feeGamma: nat, bottom: nat)
    ensures feeGamma <= bottom && 0 < bottom ==> feeGamma * WAD / bottom <= WAD
  {
    if feeGamma <= bottom && 0 < bottom {
      MulMono(feeGamma, bottom, WAD);
      QuotientAtMost(feeGamma * WAD, bottom, WAD);
    }
  }

  lemma BlendBounds(midFee: nat, outFee: nat, f: nat)
    requires f <= WAD
    ensures Min(midFee, outFee) <= (midFee * f + outFee * (WAD - f)) / WAD <= Max(midFee, outFee)
  {
    var lo, hi := Min(midFee, outFee), Max(midFee, outFee);
    MulMono(lo, midFee, f);
    MulMono(lo, outFee, WAD - f);
    assert lo * f + lo * (WAD - f) == lo * WAD;
    MulMono(midFee, hi, f);
    MulMono(outFee, hi, WAD - f);
    assert hi * f + hi * (WAD - f) == hi * WAD;
    QuotientAtLeast(midFee * f + outFee * (WAD - f), WAD, lo);
    QuotientAtMost(midFee * f + outFee * (WAD - f), WAD, hi);
  }

  // ----- three coins, checked arithmetic -----

  /** One coin's factor 3 x / s, applied to a running product. */
  function ScaleDown(k: nat, x: nat, s: nat): (r: Result<nat>)
    ensures r != Err(Underflow)
    ensures r.Ok? ==> 0 < s && r.value * s <= k * 3 * x
  {
    var k3 :- Checked(k * 3);
    var a :- Checked(k3 * x);
    Divide(a, s)
  }

  /** Twenty-seven times the product of the three shares: 1e18 in balance, never above. */
  function TriBalance(x0: nat, x1: nat, x2: nat): (r: Result<nat>)
    ensures r != Err(Underflow)
    ensures r.Ok? ==> r.value <= WAD
  {
    var s01 :- Checked(x0 + x1);
    var s :- Checked(s01 + x2);
    var k0 :- ScaleDown(WAD, x0, s);
    var k1 :- ScaleDown(k0, x1, s);
    var k2 :- ScaleDown(k1, x2, s);
    ThreeFloors(k0, k1, k2, x0, x1, x2, s);
    Ok(k2)
  }

  function TriFee(x0: nat, x1: nat, x2: nat, midFee: nat, outFee: nat, feeGamma: nat): (r: Result<nat>)
    ensures r != Err(Underflow)
    ensures r.Ok? ==> Min(midFee, outFee) <= r.value <= Max(midFee, outFee)
  {
    var k :- TriBalance(x0, x1, x2);
    var f :- if feeGamma > 0 then Weight(feeGamma, k) else Ok(k);
    Blend(midFee, outFee, f)
  }

  lemma MeansThree(x: nat, y: nat, z: nat)
    ensures 27 * (x * y * z) <= (x + y + z) * (x + y + z) * (x + y + z)
  {
    if x <= y && x <= z { MeansThreeFrom(x, y - x, z - x); }
    else if y <= x && y <= z {
      MeansThreeFrom(y, x - y, z - y);
      assert y * (y + (x - y)) * (y + (z - y)) == x * y * z;
    } else {
      MeansThreeFrom(z, x - z, y - z);
      assert z * (z + (x - z)) * (z + (y - z)) == x * y * z;
    }
  }

  lemma MeansThreeFrom(m: nat, a: nat, b: nat)
    ensures 27 * (m * (m + a) * (m + b)) <= (3 * m + a + b) * (3 * m + a + b) * (3 * m + a + b)
  {
    CubeOfSum(m, a, b);
    CubeGapNonNegative(m, a, b);
  }

  lemma CubeGapNonNegative(m: nat, a: nat, b: nat)
    ensures 0 <= 9 * (m * (a * a - a * b + b * b)) + (a + b) * (a + b) * (a + b)
  {
    SquareGapNonNegative(a, b);
    MulMono2(0, m, 0, a * a - a * b + b * b);
    MulMono2(0, a + b, 0, a + b);
    MulMono2(0, (a + b) * (a + b), 0, a + b);
  }

  lemma SquareGapNonNegative(a: nat, b: nat)
    ensures 0 <= a * a - a * b + b * b
  {
    MulMono2(0, a, 0, b);
    MeansTwo(a, b);
    assert (a + b) * (a + b) == (a * a - a * b + b * b) + 3 * (a * b);
  }

  /** The gap between the two sides, for m the least of the three. */
  lemma CubeOfSum(m: nat, a: nat, b: nat)
    ensures (3 * m + a + b) * (3 * m + a + b) * (3 * m + a + b)
         == 27 * (m * (m + a) * (m + b)) + 9 * (m * (a * a - a * b + b * b)) + (a + b) * (a + b) * (a + b)
  {
    Cube(m, a + b);
    assert m * (m + a) * (m + b) == m * m * m + m * m * (a + b) + m * (a * b);
    assert m * ((a + b) * (a + b)) == m * (a * a - a * b + b * b) + 3 * (m * (a * b));
  }

  lemma Cube(m: nat, t: nat)
    ensures (3 * m + t) * (3 * m + t) * (3 * m + t)
         == 27 * (m * m * m) + 27 * (m * m * t) + 9 * (m * (t * t)) + t * t * t
  {
  }

  lemma ThreeFloors(k: nat, k1: nat, k2: nat, x0: nat, x1: nat, x2: nat, s: nat)
    requires 0 < s == x0 + x1 + x2
    requires k * s <= WAD * 3 * x0 && k1 * s <= k * 3 * x1 && k2 * s <= k1 * 3 * x2
    ensures k2 <= WAD
  {
    ThreeFloorsScaled(k, k1, k2, x0, x1, x2, s);
    MeansThree(x0, x1, x2);
    MulMono(27 * (x0 * x1 * x2), s * s * s, WAD);
    assert 0 < s * s * s by { MulMonoStrict(0, s, s); MulMonoStrict(0, s * s, s); }
    MulCancel(k2, WAD, s * s * s);
  }

  lemma ThreeFloorsScaled(k: nat, k1: nat, k2: nat, x0: nat, x1: nat, x2: nat, s: nat)
    requires k * s <= WAD * 3 * x0 && k1 * s <= k * 3 * x1 && k2 * s <= k1 * 3 * x2
    ensures k2 * (s * s * s) <= WAD * (27 * (x0 * x1 * x2))
  {
    var once := k2 * s;
    var twice := once * s;
    FloorTimes(once, k1, x2, k * 3 * x1, s);
    assert twice <= (k * 3 * x1) * (3 * x2) == k * (9 * (x1 * x2));
    MulMono(twice, k * (9 * (x1 * x2)), s);
    assert k * (9 * (x1 * x2)) * s == (k * s) * (9 * (x1 * x2));
    MulMono(k * s, WAD * 3 * x0, 9 * (x1 * x2));
    RegroupThree(k2, x0, x1, x2, s);
  }

  lemma FloorTimes(q: nat, k: nat, x: nat, bound: nat, s: nat)
    requires q <= k * 3 * x && k * s <= bound
    ensures q * s <= bound * (3 * x)
  {
    MulMono(q, k * 3 * x, s);
    assert k * 3 * x * s == (k * s) * (3 * x);
    MulMono(k * s, bound, 3 * x);
  }

  lemma RegroupThree(k: nat, x0: nat, x1: nat, x2: nat, s: nat)
    ensures k * s * s * s == k * (s * s * s)
    ensures WAD * 3 * x0 * (9 * (x1 * x2)) == WAD * (27 * (x0 * x1 * x2))
  {
  }

  // ----- 2025 Twocrypto pools -----

  /** Four times the product of the two shares of the pool: 1e18 in balance. */
  function PairBalance(x0: int, x1: int): int
    requires x0 + x1 != 0
  {
    FloorDiv(FloorDiv(WAD * 4 * x0, x0 + x1) * x1, x0 + x1)
  }

  /** The balance term gamma B / (gamma B / 1e18 + 1e18 - B). */
  function StableWeight(feeGamma: nat, b: int): Result<int> {
    var bottom := feeGamma * b / WAD + WAD - b;
    if bottom == 0 then Err(DivisionByZero) else Ok(FloorDiv(feeGamma * b, bottom))
  }

  function ClampedBlend(midFee: nat, outFee: nat, f: int): int {
    Min(FEE_UNIT, Max(MIN_FEE, (midFee * f + outFee * (WAD - f)) / WAD))
  }

  /** The blend clamped to [0.1 bps, 100 %]; for real balances the blend is between its ends. */
  function TwoStableFee(x0: int, x1: int, midFee: nat, outFee: nat, feeGamma: nat): (r: Result<int>)
    ensures r.Ok? ==> MIN_FEE <= r.value <= FEE_UNIT
    ensures r.Ok? && 0 <= x0 && 0 <= x1 ==>
              && Min(FEE_UNIT, Max(MIN_FEE, Min(midFee, outFee))) <= r.value
              && r.value <= Min(FEE_UNIT, Max(MIN_FEE, Max(midFee, outFee)))
  {
    if x0 + x1 == 0 then Err(DivisionByZero)
    else
      var f :- StableWeight(feeGamma, PairBalance(x0, x1));
      assert 0 <= x0 && 0 <= x1 ==>
          Min(midFee, outFee) <= (midFee * f + outFee * (WAD - f)) / WAD <= Max(midFee, outFee)
      by {
        if 0 <= x0 && 0 <= x1 {
          BalanceAtMostOne(x0, x1);
          StableWeightAtMostOne(feeGamma, PairBalance(x0, x1));
          BlendBounds(midFee, outFee, f);
        }
      }
      Ok(ClampedBlend(midFee, outFee, f))
  }

  lemma StableWeightAtMostOne(feeGamma: nat, b: nat)
    requires b <= WAD
    ensures StableWeight(feeGamma, b).Ok? ==> 0 <= StableWeight(feeGamma, b).value <= WAD
    ensures StableWeight(feeGamma, b).Err? <==> feeGamma == 0 && b == WAD
  {
    if b == WAD {
      QuotientUnique(feeGamma * b, WAD, feeGamma);
      if 0 < feeGamma { QuotientUnique(feeGamma * b, feeGamma, WAD); }
    } else {
      MulMono2(0, feeGamma, 0, b);
      QuotientBounds(feeGamma * b, WAD);
      UnbalancedWeight(feeGamma * b, feeGamma * b / WAD, WAD - b);
    }
  }

  lemma UnbalancedWeight(top: nat, q: nat, gap: nat)
    requires top < q * WAD + WAD && 0 < gap
    ensures 0 <= top / (q + gap) <= WAD
  {
    MulMono(q + 1, q + gap, WAD);
    QuotientBounds(top, q + gap);
    QuotientAtMost(top, q + gap, WAD);
  }

  // ----- stableswap NG -----

  /** An NG fee lies between the base fee and its off-peg multiple. */
  function DynamicFee(x: int, y: int, fee: nat, m: nat): (r: Result<int>)
    ensures 0 <= x && 0 <= y ==> (r.Ok? <==> m <= FEE_UNIT || 0 < x + y)
    ensures 0 <= x && 0 <= y && r.Ok? ==> fee <= r.value <= Max(fee, m * fee / FEE_UNIT)
  {
    if m <= FEE_UNIT then Ok(fee)
    else if x + y == 0 then Err(DivisionByZero)
    else
      assert 0 < (x + y) * (x + y) by { MulMonoStrict(0, Abs(x + y), Abs(x + y)); }
      var bottom := (m - FEE_UNIT) * 4 * x * y / ((x + y) * (x + y)) + FEE_UNIT;
      assert 0 <= x && 0 <= y ==> FEE_UNIT <= bottom <= m by {
        if 0 <= x && 0 <= y { OffPegShare(m - FEE_UNIT, x, y, (x + y) * (x + y)); }
      }
      BetweenEnds(fee, m, bottom);
      if bottom == 0 then Err(DivisionByZero) else Ok(FloorDiv(m * fee, bottom))
  }

  lemma BetweenEnds(fee: nat, m: nat, bottom: int)
    ensures FEE_UNIT <= bottom <= m ==> fee <= m * fee / bottom <= m * fee / FEE_UNIT
  {
    if FEE_UNIT <= bottom <= m {
      MulMono(bottom, m, fee);
      MulMono2(0, m, 0, fee);
      QuotientAtLeast(m * fee, bottom, fee);
      QuotientAntitone(m * fee, FEE_UNIT, bottom);
    }
  }

  lemma OffPegShare(e: nat, x: nat, y: nat, s: nat)
    requires 0 < s == (x + y) * (x + y)
    ensures 0 <= e * 4 * x * y / s <= e
  {
    MeansTwo(x, y);
    assert e * 4 * x * y == e * (4 * (x * y));
    MulMono2(0, x, 0, y);
    MulMono2(0, 4 * (x * y), 0, e);
    MulMono(4 * (x * y), s, e);
    QuotientAtMost(e * 4 * x * y, s, e);
    QuotientBounds(e * 4 * x * y, s);
  }
}
