/** What every exchange of a 2025 Twocrypto pool keeps, and what whole runs of them cannot do. */
module TwocryptoRuns {
  import opened Arith
  import opened Stableswap
  import opened Twocrypto
  import CurveFees

  // ----- the profit floor -----

  ghost predicate FractionsWithinUnit(s: State) {
    s.reservedProfitFraction <= FEE_UNIT && s.adminFee <= FEE_UNIT
  }

  /** Liquidity providers keep their capital and, per version, half of or their share of the profit. */
  ghost predicate ProfitFloor(s: State) {
    match s.version
    case V210d => WAD <= s.virtualPrice && s.xcpProfit + WAD <= 2 * s.virtualPrice + 1
    case V300 => WAD <= s.lpXcpProfit <= s.virtualPrice
  }

  lemma LpShareWithin(s: State, profit: nat)
    requires FractionsWithinUnit(s)
    ensures 0 <= LpShare(s, profit) <= profit
  {
    var rf, af := s.reservedProfitFraction, s.adminFee;
    MulMono(rf, FEE_UNIT, af);
    MulMono(af, FEE_UNIT, FEE_UNIT);
    MulMono(rf, FEE_UNIT, FEE_UNIT);
    var part, whole := rf * (FEE_UNIT - af), FEE_UNIT_SQUARED - rf * af;
    assert part == rf * FEE_UNIT - rf * af;
    assert profit * rf * (FEE_UNIT - af) == profit * part;
    MulMono2(0, rf, 0, FEE_UNIT - af);
    MulMono2(0, profit, 0, part);
    MulMono(part, whole, profit);
    if whole != 0 {
      QuotientBounds(profit * part, whole);
      QuotientAtMost(profit * part, whole, profit);
    }
  }

  /** After booking, the new virtual price carries the floor by itself. */
  lemma BookedKeepsFloor(s: State, vpBefore: int, vp: int)
    requires ProfitFloor(s) && FractionsWithinUnit(s) && Booked(s, vpBefore, vp).Ok?
    ensures var b := Booked(s, vpBefore, vp).value;
            match s.version
            case V210d => WAD <= vp && b.xcp + WAD <= 2 * vp + 1 && b.xcp + WAD <= 2 * b.threshold + 1
            case V300 => WAD <= b.lp <= vp && b.threshold == b.lp
  {
    if s.version.V300? && vp > s.virtualPrice {
      var xcp := s.xcpProfit + (vp - s.virtualPrice);
      if xcp > WAD { LpShareWithin(s, xcp - Max(s.xcpProfit, WAD)); }
    }
  }

  lemma RebalancedKeepsFloor(s: State, t: Trade, ts: int, vp: int, threshold: int, released: int, scale: int)
    requires |t.xp| == 2 && Rebalanced(s, t, ts, vp, threshold, released, scale).Ok?
    requires match s.version
             case V210d => WAD <= vp && s.xcpProfit + WAD <= 2 * vp + 1 && s.xcpProfit + WAD <= 2 * threshold + 1
             case V300 => WAD <= s.lpXcpProfit <= vp && threshold == s.lpXcpProfit
    ensures ProfitFloor(Rebalanced(s, t, ts, vp, threshold, released, scale).value)
  {
  }

  /** One exchange keeps the profit floor whether or not the pool rebalances. */
  lemma StepKeepsFloor(s: State, c: Call)
    requires s.TwoCoins() && c.Coins() && Step(s, c).Ok?
    requires ProfitFloor(s) && FractionsWithinUnit(s)
    ensures ProfitFloor(Step(s, c).value.0) && FractionsWithinUnit(Step(s, c).value.0)
  {
    var vpBefore := if s.version.V300? then VirtualPrice(s.d, s.priceScale, s.totalSupply).value else 0;
    TweakedKeepsFloor(s, Traded(s, c).value, c.ts, vpBefore);
  }

  lemma TweakedKeepsFloor(s: State, t: Trade, ts: int, vpBefore: int)
    requires |t.xp| == 2 && Tweaked(s, t, ts, vpBefore).Ok?
    requires ProfitFloor(s) && FractionsWithinUnit(s)
    ensures ProfitFloor(Tweaked(s, t, ts, vpBefore).value)
    ensures FractionsWithinUnit(Tweaked(s, t, ts, vpBefore).value)
  {
    var a := Assessed(s, t, ts, vpBefore).value;
    var s1 := Recorded(s, t, ts, a);
    BookedKeepsFloor(s, vpBefore, a.vp);
    RebalancedKeepsFloor(s1, t, ts, a.vp, a.booked.threshold, Released(s, ts),
                         ChosenScale(s1, s.lastTimestamp, ts, a));
  }

  // ----- supply and donations -----

  /** Storage a pool can be in: positive scale and supply, donations part of the supply. */
  ghost predicate Sane(s: State) {
    && s.TwoCoins()
    && 0 < s.precisions[0] && 0 < s.precisions[1]
    && 0 < s.priceScale && 0 < s.totalSupply
    && 0 <= s.donationShares <= s.totalSupply
  }

  lemma UnlockedWithin(s: State, ts: int)
    requires 0 <= s.donationShares && s.lastDonationRelease <= ts
    ensures 0 <= Unlocked(s, ts) <= s.donationShares
  {
    var product := s.donationShares * (ts - s.lastDonationRelease);
    MulMono2(0, s.donationShares, 0, ts - s.lastDonationRelease);
    if s.donationDuration != 0 { QuotientBounds(product, s.donationDuration); }
  }

  lemma ReleasedWithin(s: State, ts: int)
    requires 0 <= s.donationShares && s.lastDonationRelease <= ts
    ensures 0 <= Released(s, ts) <= Unlocked(s, ts) <= s.donationShares
  {
    UnlockedWithin(s, ts);
    var u, f := Unlocked(s, ts), ProtectionFactor(s, ts);
    FactorWithin(s, ts);
    MulMono2(0, u, 0, WAD - f);
    MulMono(WAD - f, WAD, u);
    QuotientBounds(u * (WAD - f), WAD);
    QuotientAtMost(u * (WAD - f), WAD, u);
  }

  lemma FactorWithin(s: State, ts: int)
    ensures 0 <= ProtectionFactor(s, ts) <= WAD
  {
    if s.donationProtectionExpiry > ts && s.donationProtectionPeriod != 0 {
      QuotientBounds((s.donationProtectionExpiry - ts) * WAD, s.donationProtectionPeriod);
    }
  }

  /** What is left unlocked when a burn takes its share of the released donation. */
  ghost function UnlockedLeft(s: State, ts: int, burn: int): int {
    Unlocked(s, ts) - UnsafeDiv(burn * Unlocked(s, ts), Released(s, ts))
  }

  lemma UnlockedLeftNonNegative(s: State, ts: int, burn: int)
    requires 0 <= s.donationShares && s.lastDonationRelease <= ts && 0 < burn <= Released(s, ts)
    ensures 0 <= UnlockedLeft(s, ts, burn)
  {
    ReleasedWithin(s, ts);
    MulMono(burn, Released(s, ts), Unlocked(s, ts));
    QuotientAtMost(burn * Unlocked(s, ts), Released(s, ts), Unlocked(s, ts));
  }

  /** The clock is set back just so far that no more is unlocked than was left. */
  lemma BurnKeepsRelease(s: State, ts: int, burn: int)
    requires 0 <= s.donationShares && s.lastDonationRelease <= ts && 0 < burn <= Released(s, ts)
    ensures var s' := AfterBurn(s, ts, burn, Released(s, ts));
            && s'.lastDonationRelease <= ts
            && 0 <= s'.donationShares
            && Unlocked(s', ts) <= UnlockedLeft(s, ts, burn)
            && Released(s', ts) <= Released(s, ts) - burn + 1
  {
    ReleasedWithin(s, ts);
    UnlockedLeftNonNegative(s, ts, burn);
    BurnUnlocks(s, ts, burn);
    var s' := AfterBurn(s, ts, burn, Released(s, ts));
    FactorWithin(s, ts);
    ReleaseAfterBurn(Unlocked(s, ts), WAD - ProtectionFactor(s, ts), Released(s, ts), burn, Unlocked(s', ts));
  }

  /** Floors give back less than two units, so at most one. */
  lemma ReleaseAfterBurn(unlocked: nat, open: nat, released: int, burn: int, left: int)
    requires 0 < burn <= released && open <= WAD && released == unlocked * open / WAD
    requires left <= unlocked - burn * unlocked / released
    ensures left * open / WAD <= released - burn + 1
  {
    var q := burn * unlocked / released;
    QuotientBounds(burn * unlocked, released);
    QuotientBounds(unlocked * open, WAD);
    MulMono(left, unlocked - q, open);
    var l := unlocked - q;
    assert l * released == unlocked * released - q * released;
    MulMono(l * released, unlocked * (released - burn) + released, open);
    MulMono(unlocked * open, (released + 1) * WAD, released - burn);
    MulMono(open, WAD, released);
    ReleaseRegroup(l, released, open, unlocked, burn);
    MulCancelStrict(l * open, (released - burn + 2) * WAD, released);
    QuotientBelow(left * open, WAD, released - burn + 2);
  }

  lemma ReleaseRegroup(l: int, r: int, g: int, u: int, b: int)
    ensures l * r * g == l * g * r
    ensures (u * (r - b) + r) * g == u * g * (r - b) + g * r
    ensures (r + 1) * WAD * (r - b) + WAD * r == (r - b + 2) * WAD * r - b * WAD
  {
  }

  lemma BurnUnlocks(s: State, ts: int, burn: int)
    requires 0 <= s.donationShares && s.lastDonationRelease <= ts && 0 < burn <= Released(s, ts)
    ensures var s' := AfterBurn(s, ts, burn, Released(s, ts));
            && s'.lastDonationRelease <= ts
            && 0 <= s'.donationShares
            && Unlocked(s', ts) <= UnlockedLeft(s, ts, burn)
  {
    ReleasedWithin(s, ts);
    UnlockedLeftNonNegative(s, ts, burn);
    var left, shares, dur := UnlockedLeft(s, ts, burn), s.donationShares - burn, s.donationDuration;
    if shares > 0 {
      MulMono2(0, left, 0, dur);
      QuotientBounds(left * dur, shares);
      var elapsed := left * dur / shares;
      if dur != 0 {
        QuotientAtMost(shares * elapsed, dur, left);
        QuotientAtMost(shares * 0, dur, left);
      }
    }
  }

  /** The supply outside donations, and everything a rebalancing may do to it. */
  ghost predicate SupplyStep(s: State, s': State, ts: int) {
    var burn := s.donationShares - s'.donationShares;
    && s'.totalSupply - s'.donationShares == s.totalSupply - s.donationShares
    && 0 <= burn <= Released(s, ts)
    && s'.lastDonationRelease <= ts
    && (burn == 0 ==> s'.lastDonationRelease == s.lastDonationRelease)
    && (0 < burn ==> Unlocked(s', ts) <= UnlockedLeft(s, ts, burn) && Released(s', ts) <= Released(s, ts) - burn + 1)
  }

  /** Whatever the state and the clock: the supply outside donations is unchanged, donations do not
      grow, and if any are burned it is no more than was released. */
  ghost predicate SupplyConserved(s: State, s': State, released: int) {
    && s'.totalSupply - s'.donationShares == s.totalSupply - s.donationShares
    && s'.donationShares <= s.donationShares
    && (s'.donationShares < s.donationShares ==> s.donationShares - s'.donationShares <= released)
  }

  lemma RebalancedConserves(s: State, t: Trade, ts: int, vp: int, threshold: int, released: int, scale: int)
    requires |t.xp| == 2 && Rebalanced(s, t, ts, vp, threshold, released, scale).Ok?
    ensures SupplyConserved(s, Rebalanced(s, t, ts, vp, threshold, released, scale).value, released)
  {
    hide NewtonD, Xcp, ElapsedAfterBurn;
  }

  lemma StepConservesSupply(s: State, c: Call)
    requires s.TwoCoins() && c.Coins() && Step(s, c).Ok?
    ensures SupplyConserved(s, Step(s, c).value.0, Released(s, c.ts))
  {
    hide Traded, Assessed, Rebalanced, ChosenScale, Released, VirtualPrice;
    var vpBefore := if s.version.V300? then VirtualPrice(s.d, s.priceScale, s.totalSupply).value else 0;
    var t := Traded(s, c).value;
    var a := Assessed(s, t, c.ts, vpBefore).value;
    var s1 := Recorded(s, t, c.ts, a);
    RebalancedConserves(s1, t, c.ts, a.vp, a.booked.threshold, Released(s, c.ts),
                        ChosenScale(s1, s.lastTimestamp, c.ts, a));
  }

  lemma ProposedBurn(s: State, xp: seq<int>, scale: int, vp: int, threshold: int, released: int)
    requires |xp| == 2 && 0 <= released && 0 < s.priceScale && 0 < s.totalSupply
    requires Proposed(s, xp, scale, vp, threshold, released).Ok?
    ensures var p := Proposed(s, xp, scale, vp, threshold, released).value;
            && 0 <= p.burn <= released
            && VirtualPrice(p.d, scale, s.totalSupply - p.burn) == Ok(p.vp)
            && s.totalSupply - p.burn != 0
            && (0 < xp[1] ==> 0 < scale)
  {
    if 0 < xp[1] && scale <= 0 {
      MulMono(scale, 0, xp[1]);
      QuotientAtMost(xp[1] * scale, s.priceScale, 0);
    }
  }

  lemma RebalancedKeepsSupply(s: State, t: Trade, ts: int, vp: int, threshold: int, scale: int)
    requires Sane(s) && |t.xp| == 2 && 0 < t.xp[1] && s.lastDonationRelease <= ts
    requires VirtualPrice(t.d, s.priceScale, s.totalSupply) == Ok(vp)
    requires Rebalanced(s, t, ts, vp, threshold, Released(s, ts), scale).Ok?
    ensures var s' := Rebalanced(s, t, ts, vp, threshold, Released(s, ts), scale).value;
            && Sane(s') && SupplyStep(s, s', ts)
            && VirtualPrice(s'.d, s'.priceScale, s'.totalSupply) == Ok(s'.virtualPrice)
  {
    ReleasedWithin(s, ts);
    if scale != s.priceScale {
      ProposedBurn(s, t.xp, scale, vp, threshold, Released(s, ts));
      var burn := Proposed(s, t.xp, scale, vp, threshold, Released(s, ts)).value.burn;
      if 0 < burn { BurnKeepsRelease(s, ts, burn); }
    }
  }

  /** Donation bookkeeping reads nothing the trade or the price records touch. */
  lemma SupplyStepFrom(s: State, s1: State, s': State, ts: int)
    requires s1.donationShares == s.donationShares && s1.totalSupply == s.totalSupply
    requires s1.lastDonationRelease == s.lastDonationRelease && s1.donationDuration == s.donationDuration
    requires s1.donationProtectionExpiry == s.donationProtectionExpiry
    requires s1.donationProtectionPeriod == s.donationProtectionPeriod
    requires SupplyStep(s1, s', ts)
    ensures SupplyStep(s, s', ts)
  {
  }

  lemma TweakedKeepsSupply(s: State, t: Trade, ts: int, vpBefore: int)
    requires Sane(s) && |t.balances| == |t.xp| == 2 && 0 < t.xp[1] && s.lastDonationRelease <= ts
    requires Tweaked(s, t, ts, vpBefore).Ok?
    ensures var s' := Tweaked(s, t, ts, vpBefore).value;
            && Sane(s') && SupplyStep(s, s', ts)
            && VirtualPrice(s'.d, s'.priceScale, s'.totalSupply) == Ok(s'.virtualPrice)
  {
    var a := Assessed(s, t, ts, vpBefore).value;
    var s1 := Recorded(s, t, ts, a);
    assert Released(s1, ts) == Released(s, ts);
    RebalancedKeepsSupply(s1, t, ts, a.vp, a.booked.threshold, ChosenScale(s1, s.lastTimestamp, ts, a));
    SupplyStepFrom(s, s1, Tweaked(s, t, ts, vpBefore).value, ts);
  }

  /** One exchange conserves the supply outside donations, burns no more than was released, and
      leaves the stored virtual price equal to its definition on the stored D, scale and supply. */
  lemma StepKeepsSupply(s: State, c: Call)
    requires Sane(s) && c.Coins() && s.lastDonationRelease <= c.ts && Step(s, c).Ok?
    ensures var s' := Step(s, c).value.0;
            && Sane(s') && SupplyStep(s, s', c.ts)
            && VirtualPrice(s'.d, s'.priceScale, s'.totalSupply) == Ok(s'.virtualPrice)
  {
    var vpBefore := if s.version.V300? then VirtualPrice(s.d, s.priceScale, s.totalSupply).value else 0;
    TweakedKeepsSupply(s, Traded(s, c).value, c.ts, vpBefore);
  }

  // ----- the price scale -----

  /** A scale lies between the old one and the target, at most a fifth of the way, up to a unit. */
  ghost predicate ScaleMove(scale: int, target: int, moved: int) {
    if scale <= target then scale <= moved && 5 * (moved - scale) <= target - scale
    else target <= moved <= scale && 5 * (scale - moved) < scale - target + 5
  }

  lemma MovedBetween(scale: int, target: int, norm: int, step: int)
    requires 0 < norm && 0 <= 5 * step <= norm
    ensures ScaleMove(scale, target, Moved(scale, target, norm, step))
  {
    var top, moved := scale * (norm - step) + step * target, Moved(scale, target, norm, step);
    assert top == scale * norm + step * (target - scale);
    QuotientBounds(top, norm);
    assert moved * norm - scale * norm == (moved - scale) * norm;
    if scale <= target {
      MovedUp(moved - scale, target - scale, norm, step);
    } else {
      MovedDown(scale - moved, scale - target, norm, step);
    }
  }

  lemma MovedUp(q: int, gap: nat, norm: int, step: int)
    requires 0 < norm && 0 <= 5 * step <= norm
    requires q * norm <= step * gap < q * norm + norm
    ensures 0 <= q && 5 * q <= gap
  {
    MulMono2(0, step, 0, gap);
    MulMono(5 * step, norm, gap);
    MulCancelStrict(0, q + 1, norm);
    MulCancel(5 * q, gap, norm);
  }

  lemma MovedDown(q: int, gap: nat, norm: int, step: int)
    requires 0 < norm && 0 <= 5 * step <= norm
    requires step * gap <= q * norm < step * gap + norm
    ensures 0 <= q && 5 * q < gap + 5 && q <= gap
  {
    MulMono2(0, step, 0, gap);
    MulMono(5 * step, norm, gap);
    MulCancel(0, q, norm);
    MulCancelStrict(5 * (q - 1), gap, norm);
    if gap == 0 { MulCancelStrict(q, 1, norm); }
  }

  lemma NewScaleMoves(s: State, target: int)
    ensures NewScale(s, target) == s.priceScale || ScaleMove(s.priceScale, target, NewScale(s, target))
  {
    var ratio := UnsafeDiv(target * WAD, s.priceScale);
    var norm := if ratio > WAD then ratio - WAD else WAD - ratio;
    var step := Min(norm / 5, AdjustmentStep(s.packedParams));
    if 0 < norm { MovedBetween(s.priceScale, target, norm, step); }
  }

  lemma RebalancedFrame(s: State, t: Trade, ts: int, vp: int, threshold: int, released: int, scale: int)
    requires |t.xp| == 2 && Rebalanced(s, t, ts, vp, threshold, released, scale).Ok?
    ensures var s' := Rebalanced(s, t, ts, vp, threshold, released, scale).value;
            && (s'.priceScale == s.priceScale || s'.priceScale == scale)
            && (scale == s.priceScale ==> s' == s.(d := t.d, virtualPrice := vp))
            && s' == s.(d := s'.d, virtualPrice := s'.virtualPrice, priceScale := s'.priceScale,
                        donationShares := s'.donationShares, totalSupply := s'.totalSupply,
                        lastDonationRelease := s'.lastDonationRelease)
  {
  }

  /** Everything one exchange can write, and when it can move the scale and the oracle. */
  ghost predicate StepFrame(s: State, s': State, ts: int) {
    && s'.lastTimestamp == Max(s.lastTimestamp, ts)
    && (s'.priceScale == s.priceScale || ScaleMove(s.priceScale, s'.priceOracle, s'.priceScale))
    && (ts <= s.lastTimestamp ==>
          && s'.priceScale == s.priceScale && s'.priceOracle == s.priceOracle
          && s'.totalSupply == s.totalSupply && s'.donationShares == s.donationShares
          && s'.lastDonationRelease == s.lastDonationRelease)
    && s'.precisions == s.precisions && s'.amp == s.amp && s'.version == s.version
    && s'.reservedProfitFraction == s.reservedProfitFraction && s'.adminFee == s.adminFee
  }

  lemma TweakedFrame(s: State, t: Trade, ts: int, vpBefore: int)
    requires |t.xp| == 2 && Tweaked(s, t, ts, vpBefore).Ok?
    ensures StepFrame(s, Tweaked(s, t, ts, vpBefore).value, ts)
    ensures Tweaked(s, t, ts, vpBefore).value.balances == t.balances
    ensures Tweaked(s, t, ts, vpBefore).value.d == t.d
         || exists xp: seq<int> :: |xp| == 2 && NewtonD(s.amp, xp) == Ok(Tweaked(s, t, ts, vpBefore).value.d)
  {
    var a := Assessed(s, t, ts, vpBefore).value;
    var s1 := Recorded(s, t, ts, a);
    var scale := ChosenScale(s1, s.lastTimestamp, ts, a);
    NewScaleMoves(s1, a.oracle);
    RebalancedFrame(s1, t, ts, a.vp, a.booked.threshold, Released(s, ts), scale);
    RebalancedD(s1, t, ts, a.vp, a.booked.threshold, Released(s, ts), scale);
  }

  lemma RebalancedD(s: State, t: Trade, ts: int, vp: int, threshold: int, released: int, scale: int)
    requires |t.xp| == 2 && Rebalanced(s, t, ts, vp, threshold, released, scale).Ok?
    ensures var d := Rebalanced(s, t, ts, vp, threshold, released, scale).value.d;
            d == t.d || exists xp: seq<int> :: |xp| == 2 && NewtonD(s.amp, xp) == Ok(d)
  {
    if scale != s.priceScale {
      var xp2 := [t.xp[0], UnsafeDiv(t.xp[1] * scale, s.priceScale)];
      assert NewtonD(s.amp, xp2) == Ok(Proposed(s, t.xp, scale, vp, threshold, released).value.d);
    }
  }

  /** The price scale moves only toward the oracle and at most a fifth of the way; scale, oracle,
      supply and donations move only in the first exchange of a timestamp. */
  lemma StepFramed(s: State, c: Call)
    requires s.TwoCoins() && c.Coins() && Step(s, c).Ok?
    ensures StepFrame(s, Step(s, c).value.0, c.ts)
  {
    var vpBefore := if s.version.V300? then VirtualPrice(s.d, s.priceScale, s.totalSupply).value else 0;
    TweakedFrame(s, Traded(s, c).value, c.ts, vpBefore);
  }

  // ----- payouts -----

  /** A pool whose balances are not overdrawn. */
  ghost predicate Backed(s: State) {
    Sane(s) && FractionsWithinUnit(s) && 0 <= s.balances[0] && 0 <= s.balances[1]
  }

  /** And whose D is well defined, now and whenever it is solved again. */
  ghost predicate Solvent(s: State) {
    Backed(s) && 0 <= s.d && A_MULTIPLIER <= 2 * s.amp
  }

  lemma UnscaledWithin(s: State, j: nat, balance: nat, amount: nat)
    requires Sane(s) && j < 2
    requires amount < (if j == 0 then balance * s.precisions[0] else balance * s.priceScale * s.precisions[1] / WAD)
    ensures Unscaled(s, j, amount).Ok? && 0 <= Unscaled(s, j, amount).value <= balance
  {
    var prec := s.precisions[j];
    if j == 0 {
      QuotientBounds(amount, prec);
      QuotientAtMost(amount, prec, balance);
    } else {
      QuotientBounds(balance * s.priceScale * prec, WAD);
      assert balance * s.priceScale * prec == balance * prec * s.priceScale;
      QuotientAtMost(amount * WAD, s.priceScale, balance * prec);
      QuotientBounds(amount * WAD, s.priceScale);
      QuotientBounds(amount * WAD / s.priceScale, prec);
      QuotientAtMost(amount * WAD / s.priceScale, prec, balance);
    }
  }

  lemma AdminCutWithin(s: State, fee: nat)
    requires FractionsWithinUnit(s)
    ensures 0 <= AdminCut(s, fee) <= fee
  {
    var rf, af := s.reservedProfitFraction, s.adminFee;
    MulMono2(0, rf, 0, af);
    MulMono2(rf, FEE_UNIT, af, FEE_UNIT);
    assert fee * rf * af == fee * (rf * af);
    MulMono(rf * af, FEE_UNIT_SQUARED, fee);
    QuotientAtMost(fee * rf * af, FEE_UNIT_SQUARED, fee);
  }

  lemma ScaledNonNegative(s: State, balances: seq<int>)
    requires Sane(s) && |balances| == 2 && 0 <= balances[0] && 0 <= balances[1]
    ensures 0 <= ScaledBalances(s, balances)[0] && 0 <= ScaledBalances(s, balances)[1]
  {
    MulMono2(0, balances[0], 0, s.precisions[0]);
    MulMono2(0, balances[1], 0, s.priceScale);
    MulMono2(0, balances[1] * s.priceScale, 0, s.precisions[1]);
    QuotientBounds(balances[1] * s.priceScale * s.precisions[1], WAD);
  }

  lemma PositiveIfScaledPositive(s: State, j: nat, left: int)
    requires Sane(s) && j < 2 && 0 < ScaledBalance(s, j, left)
    ensures 0 < left
  {
    if left <= 0 { ScaledNonPositive(left, s.precisions[j], s.priceScale); }
  }

  lemma ScaledNonPositive(left: int, prec: nat, scale: int)
    requires left <= 0 && 0 < scale
    ensures left * prec <= 0 && left * prec * scale / WAD <= 0
  {
    MulMono(left, 0, prec);
    MulMono(left * prec, 0, scale);
    QuotientAtMost(left * prec * scale, WAD, 0);
  }

  /** The amount before fees is covered by the balance it comes from. */
  lemma GrossWithin(s: State, j: nat, bal: seq<int>)
    requires Backed(s) && 0 <= s.d && j < 2 && |bal| == 2 && 0 <= bal[0] && 0 <= bal[1] && Bought(s, j, bal).Ok?
    ensures 0 <= Bought(s, j, bal).value.gross <= bal[j]
  {
    var xp := ScaledBalances(s, bal);
    ScaledNonNegative(s, bal);
    SolvedNonNegative(xp, j, s.amp, A_MULTIPLIER, s.d);
    UnscaledWithin(s, j, bal[j], xp[j] - GetY(xp, j, s.amp, A_MULTIPLIER, s.d).value - 1);
  }

  lemma SettledPays(s: State, j: nat, bal: seq<int>, p: Purchase)
    requires Backed(s) && j < 2 && |bal| == 2 && |p.xp| == 2 && 0 <= p.gross <= bal[j]
    requires Settled(s, j, bal, p).Ok?
    ensures var t := Settled(s, j, bal, p).value;
            && 0 <= t.dy <= p.gross
            && t.balances == bal[j := t.balances[j]]
            && 0 < t.balances[j] <= bal[j] - t.dy
            && (s.version.V210d? ==> t.balances[j] == bal[j] - t.dy)
            && 0 < t.xp[0] && 0 < t.xp[1] && (A_MULTIPLIER <= 2 * s.amp ==> 0 <= t.d)
  {
    var rate := CurveFees.TwoStableFee(p.xp[0], p.xp[1], s.midFee, s.outFee, s.feeGamma).value;
    FeeShare(rate, p.gross);
    AdminCutWithin(s, rate * p.gross / FEE_UNIT);
    var t := Settled(s, j, bal, p).value;
    NewtonDNonNegative(s.amp, t.xp);
    PositiveIfScaledPositive(s, j, t.balances[j]);
  }

  /** A trade pays a non-negative amount covered by the coin's balance, and leaves both balances
      positive: what comes in stays in full, what goes out is the payout and the admin's cut. */
  lemma TradePays(s: State, c: Call)
    requires Backed(s) && 0 <= s.d && c.Coins() && c.i != c.j && Traded(s, c).Ok?
    ensures var t := Traded(s, c).value;
            && 0 <= t.dy <= s.balances[c.j]
            && t.balances[c.i] == s.balances[c.i] + c.dx
            && 0 < t.balances[c.j] <= s.balances[c.j] - t.dy
            && (s.version.V210d? ==> t.balances[c.j] == s.balances[c.j] - t.dy)
            && 0 < t.xp[0] && 0 < t.xp[1] && (A_MULTIPLIER <= 2 * s.amp ==> 0 <= t.d)
  {
    var bal := s.balances[c.i := s.balances[c.i] + c.dx];
    GrossWithin(s, c.j, bal);
    SettledPays(s, c.j, bal, Bought(s, c.j, bal).value);
  }

  lemma NewtonDNonNegative(amp: nat, xp: seq<int>)
    requires |xp| == 2 && NewtonD(amp, xp).Ok?
    ensures 0 < xp[0] && 0 < xp[1] && (A_MULTIPLIER <= 2 * amp ==> 0 <= NewtonD(amp, xp).value)
  {
    if A_MULTIPLIER <= 2 * amp { GetDNonNegative(xp, amp, A_MULTIPLIER, true); }
  }

  /** Balances stay covered at any amplification, and D defined at one of at least a half. */
  lemma StepKeepsSolvent(s: State, c: Call)
    requires Backed(s) && 0 <= s.d && c.Coins() && s.lastDonationRelease <= c.ts && Step(s, c).Ok?
    ensures Backed(Step(s, c).value.0)
    ensures Solvent(s) ==> Solvent(Step(s, c).value.0)
  {
    TradePays(s, c);
    StepKeepsSupply(s, c);
    var t := Traded(s, c).value;
    var vpBefore := if s.version.V300? then VirtualPrice(s.d, s.priceScale, s.totalSupply).value else 0;
    TweakedFrame(s, t, c.ts, vpBefore);
    var s' := Step(s, c).value.0;
    if s'.d != t.d {
      var xp: seq<int> :| |xp| == 2 && NewtonD(s.amp, xp) == Ok(s'.d);
      NewtonDNonNegative(s.amp, xp);
    }
  }

  /** An exchange that goes through pays exactly what the view quoted on the state before it. */
  lemma ExchangePaysQuote(s: State, c: Call)
    requires s.TwoCoins() && c.Coins() && Step(s, c).Ok?
    ensures Quote(s, c) == Ok(Step(s, c).value.1)
  {
    assert Traded(s, c).value.dy == Quote(s, c).value;
  }

  /** Putting more of one coin in never takes less of the other out, up to one common unit:
      xp[j] - y - 1 for the larger input is at least that for the smaller one, less one. */
  lemma BoughtNearlyMonotone(s: State, c: Call, dx': nat)
    requires Sane(s) && 0 <= s.d && 0 <= s.balances[0] && 0 <= s.balances[1]
    requires c.Coins() && c.i != c.j && c.dx <= dx'
    requires var xp := ScaledBalances(s, s.balances[c.i := s.balances[c.i] + c.dx]);
             var xp' := ScaledBalances(s, s.balances[c.i := s.balances[c.i] + dx']);
             GetY(xp, c.j, s.amp, A_MULTIPLIER, s.d).Ok? && GetY(xp', c.j, s.amp, A_MULTIPLIER, s.d).Ok?
    ensures var xp := ScaledBalances(s, s.balances[c.i := s.balances[c.i] + c.dx]);
            var xp' := ScaledBalances(s, s.balances[c.i := s.balances[c.i] + dx']);
            var out := xp[c.j] - GetY(xp, c.j, s.amp, A_MULTIPLIER, s.d).value - 1;
            var out' := xp'[c.j] - GetY(xp', c.j, s.amp, A_MULTIPLIER, s.d).value - 1;
            out <= out' + 1
  {
    var bal := s.balances[c.i := s.balances[c.i] + c.dx];
    var bal' := s.balances[c.i := s.balances[c.i] + dx'];
    ScaledNonNegative(s, bal);
    ScaledMono(s, bal, bal');
    GetYNearlyAntitone(ScaledBalances(s, bal), ScaledBalances(s, bal'), c.j, s.amp, A_MULTIPLIER, s.d);
  }

  lemma ScaledMono(s: State, bal: seq<int>, bal': seq<int>)
    requires Sane(s) && |bal| == |bal'| == 2 && bal[0] <= bal'[0] && bal[1] <= bal'[1]
    ensures ScaledBalances(s, bal)[0] <= ScaledBalances(s, bal')[0]
    ensures ScaledBalances(s, bal)[1] <= ScaledBalances(s, bal')[1]
  {
    MulMono(bal[0], bal'[0], s.precisions[0]);
    MulMono(bal[1], bal'[1], s.priceScale);
    MulMono(bal[1] * s.priceScale, bal'[1] * s.priceScale, s.precisions[1]);
    QuotientMono(bal[1] * s.priceScale * s.precisions[1], bal'[1] * s.priceScale * s.precisions[1], WAD);
  }

  // ----- whole runs -----

  ghost predicate Steps(s: State, c: Call, s': State) {
    s.TwoCoins() && c.Coins() && Step(s, c).Ok? && Step(s, c).value.0 == s'
  }

  /** A run of exchanges: the state it starts in, then each call with the state it leaves. */
  datatype Run = Start(state: State) | Then(before: Run, call: Call, state: State) {
    ghost predicate Valid() {
      match this
      case Start(_) => true
      case Then(before, call, state) => before.Valid() && Steps(before.state, call, state)
    }

    ghost function First(): State {
      match this
      case Start(s) => s
      case Then(before, _, _) => before.First()
    }

    /** The time reached: the last call's, or the last donation release when there is none. */
    ghost function Clock(): int {
      match this
      case Start(s) => s.lastDonationRelease
      case Then(_, call, _) => call.ts
    }

    /** Timestamps never go back. */
    ghost predicate ClockRuns() {
      match this
      case Start(_) => true
      case Then(before, call, _) => before.ClockRuns() && before.Clock() <= call.ts
    }

    /** Donations released at each exchange, added up. */
    ghost function AllReleased(): int {
      match this
      case Start(_) => 0
      case Then(before, call, _) => before.AllReleased() + Max(0, Released(before.state, call.ts))
    }

    ghost predicate AllAt(ts: int) {
      match this
      case Start(_) => true
      case Then(before, call, _) => before.AllAt(ts) && call.ts == ts
    }
  }

  /** No run of exchanges breaks the profit floor of either version. */
  lemma {:induction false} RunKeepsFloor(run: Run)
    requires run.Valid() && ProfitFloor(run.First()) && FractionsWithinUnit(run.First())
    ensures ProfitFloor(run.state) && FractionsWithinUnit(run.state)
  {
    if run.Then? {
      RunKeepsFloor(run.before);
      StepKeepsFloor(run.before.state, run.call);
    }
  }

  lemma StepsConserve(s: State, c: Call, s': State)
    requires Steps(s, c, s')
    ensures SupplyConserved(s, s', Released(s, c.ts))
  {
    hide Step, Released;
    StepConservesSupply(s, c);
  }

  /** Over every run: the supply outside donations is what it was, donations have not grown, each
      exchange burns no more than was released at its time, and so does the whole run. */
  lemma {:induction false} RunConservesSupply(run: Run)
    requires run.Valid()
    ensures run.state.totalSupply - run.state.donationShares == run.First().totalSupply - run.First().donationShares
    ensures run.state.donationShares <= run.First().donationShares
    ensures run.Then? ==> SupplyConserved(run.before.state, run.state, Released(run.before.state, run.call.ts))
    ensures run.First().donationShares - run.state.donationShares <= run.AllReleased()
  {
    hide Steps, Released;
    if run.Then? {
      RunConservesSupply(run.before);
      StepsConserve(run.before.state, run.call, run.state);
    }
  }

  lemma StepsSolvent(s: State, c: Call, s': State)
    requires Steps(s, c, s') && Solvent(s) && s.lastDonationRelease <= c.ts
    ensures Solvent(s') && SupplyStep(s, s', c.ts)
  {
    StepKeepsSolvent(s, c);
    StepKeepsSupply(s, c);
  }

  /** Wherever a run stands whose clock does not go back, the pool is solvent, and its last burn
      left released at most the release less the burn, up to one share. */
  lemma {:induction false} RunStaysSolvent(run: Run)
    requires run.Valid() && run.ClockRuns() && Solvent(run.First())
    ensures Solvent(run.state) && run.state.lastDonationRelease <= run.Clock()
    ensures run.Then? ==> SupplyStep(run.before.state, run.state, run.call.ts)
  {
    hide Steps, Released, Unlocked, UnlockedLeft;
    if run.Then? {
      RunStaysSolvent(run.before);
      StepsSolvent(run.before.state, run.call, run.state);
    }
  }

  /** From a state that has already seen an exchange at a timestamp, no number of further ones at
      it moves the price scale, the oracle, the supply or the donations. */
  lemma {:induction false} RunWithinBlock(run: Run, ts: int)
    requires run.Valid() && run.AllAt(ts) && ts <= run.First().lastTimestamp
    ensures ts <= run.state.lastTimestamp
    ensures run.state.priceScale == run.First().priceScale && run.state.priceOracle == run.First().priceOracle
    ensures run.state.totalSupply == run.First().totalSupply
    ensures run.state.donationShares == run.First().donationShares
  {
    if run.Then? {
      RunWithinBlock(run.before, ts);
      StepFramed(run.before.state, run.call);
    }
  }
}
