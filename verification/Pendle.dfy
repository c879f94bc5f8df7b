/** Pendle's sale of principal tokens (PT) to a market: the rate the market offers, the fee, and
    the state checks after the trade. Signed 18-decimal integers, division toward zero. */
module Pendle {
  import opened Arith
  import LogExp

  const IMPLIED_RATE_TIME: int := 31_536_000
  const MAX_MARKET_PROPORTION: int := 960_000_000_000_000_000

  function SignedDivide(a: int, b: int): Result<int> {
    if b == 0 then Err(DivisionByZero) else Ok(TruncDiv(a, b))
  }

  function DivDown(a: int, b: int): Result<int> {
    SignedDivide(a * WAD, b)
  }

  function SubNoNeg(a: int, b: int): Result<int> {
    if a < b then Err(Revert("negative")) else Ok(a - b)
  }

  function Sign(a: int): int {
    if a < 0 then -1 else 1
  }

  function SyToAsset(index: nat, sy: int): (r: int)
    ensures index == 0 ==> r == 0
  {
    Sign(sy) * (Abs(sy) * index / WAD)
  }

  function AssetToSy(index: nat, asset: int): Result<int> {
    if index == 0 then Err(DivisionByZero) else Ok(Sign(asset) * (Abs(asset) * WAD / index))
  }

  function AssetToSyUp(index: nat, asset: int): Result<int> {
    if index == 0 then Err(DivisionByZero) else Ok(Sign(asset) * ((Abs(asset) * WAD + index - 1) / index))
  }

  function Ln(a: int): Result<int> {
    if a <= 0 then Err(Revert("out of bounds"))
    else if LogExp.LN_36_LOWER_BOUND < a < LogExp.LN_36_UPPER_BOUND then
      var l :- LogExp.Ln36(a, LogExp.Unbounded);
      Ok(TruncDiv(l, WAD))
    else LogExp.Ln(a, LogExp.Unbounded)
  }

  function LogProportion(p: int): Result<int> {
    if p == WAD then Err(Revert("proportion must not equal one"))
    else
      var odds :- DivDown(p, WAD - p);
      Ln(odds)
  }

  /** Assets per PT at the proportion left after netPt leaves the market. */
  function ExchangeRate(totalPt: int, totalAsset: int, rateScalar: int, rateAnchor: int, netPt: int)
    : (r: Result<int>)
    ensures r.Ok? ==> WAD <= r.value && netPt <= totalPt
  {
    var num :- SubNoNeg(totalPt, netPt);
    var p :- DivDown(num, totalPt + totalAsset);
    if p > MAX_MARKET_PROPORTION then Err(Revert("proportion too high"))
    else
      var log :- LogProportion(p);
      var scaled :- DivDown(log, rateScalar);
      var rate := scaled + rateAnchor;
      if rate < WAD then Err(Revert("exchange rate below one")) else Ok(rate)
  }

  function RateFromImplied(lnRate: int, tte: int): Result<int> {
    LogExp.Exp(lnRate * tte / IMPLIED_RATE_TIME, LogExp.Unbounded)
  }

  datatype Market = Market(
    expiry: int,
    totalPt: int,
    totalSy: int,
    index: nat,
    scalarRoot: int,
    lastLnImpliedRate: int,
    lnFeeRateRoot: int,
    reserveFeePercent: int)

  /** Scalar and anchor of the market's rate curve at a moment. */
  datatype Curve = Curve(rateScalar: int, rateAnchor: int, totalAsset: int)

  /** The anchor that makes the curve pass through the last implied rate. */
  function RateAnchor(totalPt: int, totalAsset: int, rateScalar: int, newRate: int): Result<int> {
    var p :- DivDown(totalPt, totalPt + totalAsset);
    var log :- LogProportion(p);
    var scaled :- DivDown(log, rateScalar);
    Ok(newRate - scaled)
  }

  function RateCurve(m: Market, tte: int): (r: Result<Curve>)
    ensures r.Ok? ==> 0 < m.index
  {
    hide RateAnchor, RateFromImplied;
    var rateScalar :- SignedDivide(m.scalarRoot * IMPLIED_RATE_TIME, tte);
    if rateScalar <= 0 then Err(Revert("rate scalar"))
    else
      var totalAsset := SyToAsset(m.index, m.totalSy);
      if m.totalPt == 0 || totalAsset == 0 then Err(Revert("zero totals"))
      else
        var newRate :- RateFromImplied(m.lastLnImpliedRate, tte);
        if newRate < WAD then Err(Revert("exchange rate below one"))
        else
          var anchor :- RateAnchor(m.totalPt, totalAsset, rateScalar, newRate);
          Ok(Curve(rateScalar, anchor, totalAsset))
  }

  /** A sale in assets: proceeds before the fee, the fee and the part of it the reserve takes. */
  datatype Proceeds = Proceeds(preAsset: int, fee: int, reserve: int)

  function Priced(ptIn: int, preRate: int, feeRate: int, reservePercent: int): Result<Proceeds> {
    var negated :- DivDown(0 - ptIn, preRate);
    var preAsset := -negated;
    var cut :- SignedDivide(preAsset * (WAD - feeRate), feeRate);
    Ok(Proceeds(preAsset, -cut, TruncDiv(-cut * reservePercent, 100)))
  }

  datatype Sale = Sale(netSy: int, syFee: int, syReserve: int)

  function InSy(index: nat, p: Proceeds): Result<Sale> {
    var net := p.preAsset - p.fee;
    var netSy :- if net < 0 then AssetToSyUp(index, net) else AssetToSy(index, net);
    var syFee :- AssetToSy(index, p.fee);
    var syReserve :- AssetToSy(index, p.reserve);
    Ok(Sale(netSy, syFee, syReserve))
  }

  /** The market's own checks on the state it would be left in. */
  function Checked(m: Market, c: Curve, s: Sale, ptIn: int, tte: int): (r: Result<Sale>)
    requires tte != 0
    ensures r.Ok? ==> r.value == s && s.netSy + s.syReserve <= m.totalSy
  {
    var newPt :- SubNoNeg(m.totalPt, 0 - ptIn);
    var newSy :- SubNoNeg(m.totalSy, s.netSy + s.syReserve);
    var rate :- ExchangeRate(newPt, SyToAsset(m.index, newSy), c.rateScalar, c.rateAnchor, 0);
    var log :- Ln(rate);
    if log < 0 || FloorDiv(log * IMPLIED_RATE_TIME, tte) == 0 then Err(Revert("zero ln implied rate"))
    else if SyToAsset(m.index, s.syFee - s.syReserve) == 0 then Err(Revert("zero net LP fee"))
    else if s.netSy < 0 || s.syFee < 0 || s.syReserve < 0 then Err(Revert("negative"))
    else Ok(s)
  }

  /** What a sale pays at a moment, before the market's checks. */
  function Quoted(m: Market, c: Curve, ptIn: nat, tte: int): Result<Sale> {
    var feeRate :- RateFromImplied(m.lnFeeRateRoot, tte);
    var preRate :- ExchangeRate(m.totalPt, c.totalAsset, c.rateScalar, c.rateAnchor, 0 - ptIn);
    var p :- Priced(ptIn, preRate, feeRate, m.reserveFeePercent);
    InSy(m.index, p)
  }

  function SellPt(m: Market, ptIn: nat, blockTime: int): Result<Sale> {
    if m.expiry <= blockTime then Err(Revert("expired"))
    else if m.totalPt <= 0 - ptIn then Err(Revert("insufficient pt"))
    else
      var tte := m.expiry - blockTime;
      var c :- RateCurve(m, tte);
      var s :- Quoted(m, c, ptIn, tte);
      Checked(m, c, s, ptIn, tte)
  }

  // ----- a sale never pays above par -----

  lemma FeeRateAtLeastOne(lnRate: nat, tte: nat)
    ensures RateFromImplied(lnRate, tte).Ok? ==> WAD <= RateFromImplied(lnRate, tte).value
  {
    MulMono2(0, lnRate, 0, tte);
    QuotientBounds(lnRate * tte, IMPLIED_RATE_TIME);
    LogExp.ExpAgrees(lnRate * tte / IMPLIED_RATE_TIME);
  }

  /** With both rates at least one the proceeds are at most par, the fee is part of the proceeds,
      and the reserve's share part of the fee. */
  lemma PricedWithin(ptIn: nat, preRate: int, feeRate: int, percent: int)
    requires WAD <= preRate && WAD <= feeRate && 0 <= percent <= 100
    ensures Priced(ptIn, preRate, feeRate, percent).Ok?
    ensures var p := Priced(ptIn, preRate, feeRate, percent).value;
            0 <= p.reserve <= p.fee <= p.preAsset <= ptIn
  {
    var pre := ptIn * WAD / preRate;
    TruncDivBounds((0 - ptIn) * WAD, preRate);
    assert -((0 - ptIn) * WAD) == ptIn * WAD;
    MulMono(WAD, preRate, ptIn);
    QuotientAtMost(ptIn * WAD, preRate, ptIn);
    QuotientBounds(ptIn * WAD, preRate);
    FeeWithin(pre, feeRate);
    var fee := pre * (feeRate - WAD) / feeRate;
    TruncDivBounds(pre * (WAD - feeRate), feeRate);
    assert -(pre * (WAD - feeRate)) == pre * (feeRate - WAD);
    ReserveWithin(fee, percent);
    TruncDivBounds(fee * percent, 100);
  }

  lemma FeeWithin(pre: nat, feeRate: int)
    requires WAD <= feeRate
    ensures 0 <= pre * (feeRate - WAD) / feeRate <= pre
    ensures pre * (WAD - feeRate) <= 0
  {
    MulMono2(0, pre, 0, feeRate - WAD);
    assert pre * (WAD - feeRate) == -(pre * (feeRate - WAD));
    MulMono(feeRate - WAD, feeRate, pre);
    QuotientBounds(pre * (feeRate - WAD), feeRate);
    QuotientAtMost(pre * (feeRate - WAD), feeRate, pre);
  }

  lemma ReserveWithin(fee: nat, percent: int)
    requires 0 <= percent <= 100
    ensures 0 <= fee * percent && 0 <= fee * percent / 100 <= fee
  {
    MulMono2(0, fee, 0, percent);
    MulMono(percent, 100, fee);
    QuotientBounds(fee * percent, 100);
    QuotientAtMost(fee * percent, 100, fee);
  }

  lemma InSyWithin(index: nat, p: Proceeds, ptIn: nat)
    requires 0 < index && 0 <= p.reserve <= p.fee <= p.preAsset <= ptIn
    ensures InSy(index, p).Ok?
    ensures var s := InSy(index, p).value;
            && 0 <= s.netSy && 0 <= s.syReserve <= s.syFee
            && s.netSy + s.syFee <= ptIn * WAD / index
  {
    var net := p.preAsset - p.fee;
    QuotientBounds(net * WAD, index);
    QuotientBounds(p.fee * WAD, index);
    QuotientBounds(p.reserve * WAD, index);
    QuotientMono(p.reserve * WAD, p.fee * WAD, index);
    var a, b := net * WAD / index, p.fee * WAD / index;
    assert (a + b) * index == a * index + b * index;
    QuotientAtLeast(p.preAsset * WAD, index, a + b);
    QuotientMono(p.preAsset * WAD, ptIn * WAD, index);
  }

  lemma QuotedWithin(m: Market, c: Curve, ptIn: nat, tte: nat)
    requires 0 <= m.lnFeeRateRoot && 0 <= m.reserveFeePercent <= 100 && 0 < m.index
    requires Quoted(m, c, ptIn, tte).Ok?
    ensures var s := Quoted(m, c, ptIn, tte).value;
            && 0 <= s.netSy && 0 <= s.syReserve <= s.syFee
            && s.netSy + s.syFee <= ptIn * WAD / m.index
  {
    FeeRateAtLeastOne(m.lnFeeRateRoot, tte);
    var feeRate := RateFromImplied(m.lnFeeRateRoot, tte).value;
    var preRate := ExchangeRate(m.totalPt, c.totalAsset, c.rateScalar, c.rateAnchor, 0 - ptIn).value;
    PricedWithin(ptIn, preRate, feeRate, m.reserveFeePercent);
    InSyWithin(m.index, Priced(ptIn, preRate, feeRate, m.reserveFeePercent).value, ptIn);
  }

  /** Whenever a sale goes through, with a fee root of at least zero and a reserve percentage, the
      seller and the fee together get at most par in SY, the fee is not negative and covers the
      reserve's share, and the market holds what it pays. */
  lemma SaleAtMostPar(m: Market, ptIn: nat, blockTime: int)
    requires 0 <= m.lnFeeRateRoot && 0 <= m.reserveFeePercent <= 100
    requires SellPt(m, ptIn, blockTime).Ok?
    ensures 0 < m.index
    ensures var s := SellPt(m, ptIn, blockTime).value;
            && 0 <= s.netSy && 0 <= s.syReserve <= s.syFee
            && s.netSy + s.syFee <= ptIn * WAD / m.index
            && s.netSy + s.syReserve <= m.totalSy
  {
    hide RateCurve, Quoted, Checked;
    var tte := m.expiry - blockTime;
    QuotedWithin(m, RateCurve(m, tte).value, ptIn, tte);
  }
}
