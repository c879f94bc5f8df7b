/** The 2025 Twocrypto pools (v2.1.0d and v3.0.0): one `exchange` and the `tweak_price` that
    follows it, as a step on the pool's storage. */
module Twocrypto {
  import opened Arith
  import opened Stableswap
  import opened WadExponential
  import CurveFees

  const FEE_UNIT_SQUARED: nat := 100_000_000_000_000_000_000
  const A_MULTIPLIER: nat := 10_000
  const MAX_IMBALANCE: nat := 10_000
  const TWO64: nat := 0x1_0000000000000000
  const TWO128: nat := 0x1_0000000000000000_0000000000000000

  datatype Version = V210d | V300

  /** The pool's storage. */
  datatype State = State(
    version: Version,
    precisions: seq<nat>,
    amp: nat,
    midFee: nat,
    outFee: nat,
    feeGamma: nat,
    reservedProfitFraction: nat,
    adminFee: nat,
    packedParams: nat,
    donationDuration: nat,
    donationProtectionExpiry: nat,
    donationProtectionPeriod: nat,
    balances: seq<int>,
    priceScale: int,
    d: int,
    totalSupply: int,
    priceOracle: int,
    lastPrices: int,
    lastTimestamp: int,
    virtualPrice: int,
    xcpProfit: int,
    lpXcpProfit: int,
    donationShares: int,
    lastDonationRelease: int)
  {
    predicate TwoCoins() {
      |precisions| == 2 && |balances| == 2
    }
  }

  datatype Call = Call(i: nat, j: nat, dx: nat, ts: nat) {
    predicate Coins() {
      i < 2 && j < 2
    }
  }

  // ----- arithmetic -----

  /** Division that yields zero on a zero divisor. */
  function UnsafeDiv(a: int, b: int): int {
    if b == 0 then 0 else FloorDiv(a, b)
  }

  function Sqrt(n: int): Result<int> {
    if n < 0 then Err(Revert("square root of a negative number")) else Ok(Isqrt(n))
  }

  // ----- formulas -----

  /** Liquidity measure D / (2 sqrt(price scale)). */
  function Xcp(d: int, priceScale: int): Result<int> {
    var root :- Sqrt(WAD * priceScale);
    Divided(d * WAD / 2, root)
  }

  function VirtualPrice(d: int, priceScale: int, supply: int): Result<int> {
    var xcp :- Xcp(d, priceScale);
    Divided(WAD * xcp, supply)
  }

  function NewtonD(amp: nat, xp: seq<int>): Result<int>
    requires |xp| == 2
  {
    if 0 < xp[0] && 0 < xp[1] && Max(xp[0], xp[1]) / Min(xp[0], xp[1]) < MAX_IMBALANCE
    then GetD(xp, amp, A_MULTIPLIER, true)
    else Err(Revert("!balance"))
  }

  /** Marginal price dx / dy at xp. */
  function GetP(xp: seq<int>, d: int, amp: nat): Result<int>
    requires |xp| == 2
  {
    var ann := amp * 2 % UINT256;
    var dr0 :- Divided(d / 4 * d, xp[0]);
    var dr :- Divided(dr0 * d, xp[1]);
    var xp0A := ann * xp[0] / A_MULTIPLIER;
    Divided(WAD * (xp0A + UnsafeDiv(dr * xp[0], xp[1])), xp0A + dr)
  }

  /** The three packed rebalancing parameters: allowed extra profit, adjustment step, averaging time. */
  function AllowedExtra(packed: nat): (r: nat) {
    packed / TWO128 % TWO128
  }

  function AdjustmentStep(packed: nat): (r: nat) {
    packed / TWO64 % TWO64
  }

  function AveragingTime(packed: nat): (r: nat) {
    packed % TWO64
  }

  /** Donation shares released by ts, before and after the protection factor. */
  function Unlocked(s: State, ts: int): int {
    if s.donationShares == 0 then 0
    else Min(s.donationShares,
             UnsafeDiv(s.donationShares * (ts - s.lastDonationRelease), s.donationDuration))
  }

  function ProtectionFactor(s: State, ts: int): int {
    if s.donationProtectionExpiry > ts
    then Min(UnsafeDiv((s.donationProtectionExpiry - ts) * WAD, s.donationProtectionPeriod), WAD)
    else 0
  }

  function Released(s: State, ts: int): int {
    if s.donationShares == 0 then 0
    else Unlocked(s, ts) * (WAD - ProtectionFactor(s, ts)) / WAD
  }

  // ----- the trade -----

  function ScaledBalances(s: State, balances: seq<int>): (xp: seq<int>)
    requires s.TwoCoins() && |balances| == 2
    ensures |xp| == 2
  {
    [balances[0] * s.precisions[0], balances[1] * s.priceScale * s.precisions[1] / WAD]
  }

  function ScaledBalance(s: State, j: nat, balance: int): int
    requires s.TwoCoins() && j < 2
  {
    if j == 0 then balance * s.precisions[0] else balance * s.precisions[1] * s.priceScale / WAD
  }

  /** An amount of coin j in its own units, from the pool's common units. */
  function Unscaled(s: State, j: nat, amount: int): Result<int>
    requires s.TwoCoins() && j < 2
  {
    var a :- if j > 0 then Divided(amount * WAD, s.priceScale) else Ok(amount);
    Divided(a, s.precisions[j])
  }

  function AdminCut(s: State, fee: int): int {
    match s.version
    case V300 => Max(0, fee * s.reservedProfitFraction * s.adminFee / FEE_UNIT_SQUARED)
    case V210d => 0
  }

  datatype Trade = Trade(balances: seq<int>, xp: seq<int>, dy: int, d: int)

  /** Balances in common units at the solved point, and the amount bought before fees. */
  datatype Purchase = Purchase(xp: seq<int>, gross: int)

  function Bought(s: State, j: nat, balances: seq<int>): (r: Result<Purchase>)
    requires s.TwoCoins() && j < 2 && |balances| == 2
    ensures r.Ok? ==> |r.value.xp| == 2
  {
    var xp := ScaledBalances(s, balances);
    var y :- GetY(xp, j, s.amp, A_MULTIPLIER, s.d);
    if !(y < xp[j]) then Err(Revert("unsafe value for y"))
    else
      var gross :- Unscaled(s, j, xp[j] - y - 1);
      Ok(Purchase(xp[j := y], gross))
  }

  /** Fees taken, balances written and D solved again. */
  function Settled(s: State, j: nat, balances: seq<int>, p: Purchase): (r: Result<Trade>)
    requires s.TwoCoins() && j < 2 && |balances| == 2 && |p.xp| == 2
    ensures r.Ok? ==> |r.value.balances| == 2 && |r.value.xp| == 2
  {
    var rate :- CurveFees.TwoStableFee(p.xp[0], p.xp[1], s.midFee, s.outFee, s.feeGamma);
    var fee := rate * p.gross / FEE_UNIT;
    var left := balances[j] - (p.gross - fee) - AdminCut(s, fee);
    var xp := p.xp[j := ScaledBalance(s, j, left)];
    var d :- NewtonD(s.amp, xp);
    Ok(Trade(balances[j := left], xp, p.gross - fee, d))
  }

  function Traded(s: State, c: Call): (r: Result<Trade>)
    requires s.TwoCoins() && c.Coins()
    ensures r.Ok? ==> |r.value.balances| == 2 && |r.value.xp| == 2
  {
    var balances := s.balances[c.i := s.balances[c.i] + c.dx];
    var p :- Bought(s, c.j, balances);
    Settled(s, c.j, balances, p)
  }

  /** The view's own code for the same input. */
  function Quote(s: State, c: Call): Result<int>
    requires s.TwoCoins() && c.Coins()
  {
    var bal := s.balances[c.i := s.balances[c.i] + c.dx];
    var xp := [bal[0] * s.precisions[0], bal[1] * s.priceScale * s.precisions[1] / WAD];
    var y :- GetY(xp, c.j, s.amp, A_MULTIPLIER, s.d);
    if !(y < xp[c.j]) then Err(Revert("unsafe value for y"))
    else
      var left := xp[c.j := y];
      var scaled :- if c.j > 0 then Divided((xp[c.j] - y - 1) * WAD, s.priceScale) else Ok(xp[c.j] - y - 1);
      var dy :- Divided(scaled, s.precisions[c.j]);
      var rate :- CurveFees.TwoStableFee(left[0], left[1], s.midFee, s.outFee, s.feeGamma);
      Ok(dy - rate * dy / FEE_UNIT)
  }

  // ----- the price oracle -----

  /** The last price, capped relative to the price scale. */
  function CappedPrice(s: State): int {
    match s.version
    case V300 => Min(Max(s.lastPrices, s.priceScale / 2), 2 * s.priceScale)
    case V210d => Min(s.lastPrices, 2 * s.priceScale)
  }

  /** Exponential average, moved at most once per timestamp. */
  function Observed(s: State, ts: int): Result<int> {
    if s.lastTimestamp < ts then
      var alpha :- WadExp(-UnsafeDiv((ts - s.lastTimestamp) * WAD, AveragingTime(s.packedParams)));
      Ok((CappedPrice(s) * (WAD - alpha) + s.priceOracle * alpha) / WAD)
    else Ok(s.priceOracle)
  }

  // ----- profit -----

  datatype Profit = Profit(xcp: int, lp: int, threshold: int, extra: int)

  /** Share of a profit that v3.0.0 reserves for liquidity providers. */
  function LpShare(s: State, profit: int): int {
    UnsafeDiv(profit * s.reservedProfitFraction * (FEE_UNIT - s.adminFee),
              FEE_UNIT_SQUARED - s.reservedProfitFraction * s.adminFee)
  }

  function Booked(s: State, vpBefore: int, vp: int): Result<Profit> {
    match s.version
    case V300 =>
      if vp < vpBefore || vp < s.virtualPrice then Err(Revert("virtual price decreased"))
      else
        var xcp := s.xcpProfit + (vp - s.virtualPrice);
        var lp := if vp > s.virtualPrice
                  then (if xcp > WAD then s.lpXcpProfit + LpShare(s, xcp - Max(s.xcpProfit, WAD)) else s.lpXcpProfit)
                  else (if s.lpXcpProfit > WAD then s.lpXcpProfit else WAD);
        Ok(Profit(xcp, lp, lp, 0))
    case V210d =>
      if vp < s.virtualPrice then Err(Revert("virtual price decreased"))
      else
        var xcp := s.xcpProfit + vp - s.virtualPrice;
        Ok(Profit(xcp, s.lpXcpProfit, Max(WAD, (xcp + WAD) / 2), AllowedExtra(s.packedParams)))
  }

  // ----- rebalancing -----

  /** A price scale moved toward the target by `step` parts of `norm`. */
  function Moved(priceScale: int, target: int, norm: int, step: int): int {
    UnsafeDiv(priceScale * (norm - step) + step * target, norm)
  }

  function NewScale(s: State, target: int): int {
    var ratio := UnsafeDiv(target * WAD, s.priceScale);
    var norm := if ratio > WAD then ratio - WAD else WAD - ratio;
    var step := Min(norm / 5, AdjustmentStep(s.packedParams));
    match s.version
    case V300 => if step > AllowedExtra(s.packedParams) then Moved(s.priceScale, target, norm, step) else s.priceScale
    case V210d => if norm > step then Moved(s.priceScale, target, norm, step) else s.priceScale
  }

  /** What a rebalancing would store: invariant, virtual price and burned donation shares. */
  datatype Proposal = Proposal(d: int, vp: int, burn: int)

  function Proposed(s: State, xp: seq<int>, scale: int, vp: int, threshold: int, released: int): Result<Proposal>
    requires |xp| == 2
  {
    var d :- NewtonD(s.amp, [xp[0], UnsafeDiv(xp[1] * scale, s.priceScale)]);
    var xcp :- Xcp(d, scale);
    var newVp :- Divided(WAD * xcp, s.totalSupply);
    var goal := Max(threshold, vp);
    if newVp < goal then
      var tweaked :- Divided(WAD * xcp, goal);
      if !(tweaked < s.totalSupply) then Err(Revert("tweaked supply must shrink"))
      else
        var burn := Min(s.totalSupply - tweaked, released);
        var burnedVp :- Divided(WAD * xcp, s.totalSupply - burn);
        Ok(Proposal(d, burnedVp, burn))
    else Ok(Proposal(d, newVp, 0))
  }

  /** Elapsed time that keeps the remaining unlocked shares unlocked after a burn. */
  function ElapsedAfterBurn(s: State, ts: int, burn: int, released: int): int {
    var unlocked := Unlocked(s, ts);
    var left := unlocked - UnsafeDiv(burn * unlocked, released);
    var shares := s.donationShares - burn;
    if shares > 0 && left > 0 then left * s.donationDuration / shares else 0
  }

  function AfterBurn(s: State, ts: int, burn: int, released: int): State {
    if burn > 0
    then s.(donationShares := s.donationShares - burn,
            totalSupply := s.totalSupply - burn,
            lastDonationRelease := ts - ElapsedAfterBurn(s, ts, burn, released))
    else s
  }

  /** The state if a rebalancing to `scale` is accepted, or with the trade alone if not. */
  function Rebalanced(s: State, t: Trade, ts: int, vp: int, threshold: int, released: int, scale: int)
    : (r: Result<State>)
    requires |t.xp| == 2
    ensures r.Ok? ==> r.value.balances == s.balances && r.value.precisions == s.precisions
  {
    var plain := s.(d := t.d, virtualPrice := vp);
    if scale == s.priceScale then Ok(plain)
    else
      var p :- Proposed(s, t.xp, scale, vp, threshold, released);
      if p.vp > WAD && p.vp >= threshold
      then Ok(AfterBurn(s, ts, p.burn, released).(d := p.d, virtualPrice := p.vp, priceScale := scale))
      else Ok(plain)
  }

  // ----- one exchange -----

  /** What `tweak_price` finds after a trade: new oracle and last price, the virtual price with and
      without the released donations, and the booked profit. */
  datatype Assessment = Assessment(oracle: int, price: int, vp: int, boosted: int, booked: Profit)

  function Assessed(s: State, t: Trade, ts: int, vpBefore: int): Result<Assessment>
    requires |t.xp| == 2
  {
    var oracle :- Observed(s, ts);
    var p :- GetP(t.xp, t.d, s.amp);
    var xcp :- Xcp(t.d, s.priceScale);
    var vp :- Divided(WAD * xcp, s.totalSupply);
    var booked :- Booked(s, vpBefore, vp);
    var boosted :- Divided(WAD * xcp, s.totalSupply - Released(s, ts));
    if boosted < vp then Err(Revert("negative donation"))
    else Ok(Assessment(oracle, p * s.priceScale / WAD, vp, boosted, booked))
  }

  /** The state between the trade and the rebalancing decision. */
  function Recorded(s: State, t: Trade, ts: int, a: Assessment): State {
    s.(balances := t.balances, priceOracle := a.oracle, lastPrices := a.price,
       lastTimestamp := Max(s.lastTimestamp, ts), xcpProfit := a.booked.xcp, lpXcpProfit := a.booked.lp)
  }

  /** Whether the profit allows a rebalancing, and to which scale. */
  function ChosenScale(s: State, before: int, ts: int, a: Assessment): int {
    if a.boosted > a.booked.threshold + a.booked.extra && ts > before
    then NewScale(s, a.oracle) else s.priceScale
  }

  /** `tweak_price` after a trade. */
  function Tweaked(s: State, t: Trade, ts: int, vpBefore: int): (r: Result<State>)
    requires |t.xp| == 2
    ensures r.Ok? ==> r.value.balances == t.balances && r.value.precisions == s.precisions
  {
    var a :- Assessed(s, t, ts, vpBefore);
    var s1 := Recorded(s, t, ts, a);
    Rebalanced(s1, t, ts, a.vp, a.booked.threshold, Released(s, ts), ChosenScale(s1, s.lastTimestamp, ts, a))
  }

  function Step(s: State, c: Call): (r: Result<(State, int)>)
    requires s.TwoCoins() && c.Coins()
    ensures r.Ok? ==> r.value.0.TwoCoins()
  {
    if c.i == c.j || c.dx == 0 then Err(Revert("same coin / zero dx"))
    else
      var vpBefore :- if s.version.V300? then VirtualPrice(s.d, s.priceScale, s.totalSupply) else Ok(0);
      var t :- Traded(s, c);
      var s' :- Tweaked(s, t, c.ts, vpBefore);
      Ok((s', t.dy))
  }
}
