/** A 2025 Twocrypto pool as an object that one exchange mutates field by field. */
module TwocryptoPool {
  import opened Arith
  import opened Twocrypto
  import opened TwocryptoRuns

  class Pool {
    const version: Version
    const precisions: seq<nat>
    const amp: nat
    const midFee: nat
    const outFee: nat
    const feeGamma: nat
    const reservedProfitFraction: nat
    const adminFee: nat
    const packedParams: nat
    const donationDuration: nat
    const donationProtectionExpiry: nat
    const donationProtectionPeriod: nat
    var balances: seq<int>
    var priceScale: int
    var d: int
    var totalSupply: int
    var priceOracle: int
    var lastPrices: int
    var lastTimestamp: int
    var virtualPrice: int
    var xcpProfit: int
    var lpXcpProfit: int
    var donationShares: int
    var lastDonationRelease: int

    function Storage(): State
      reads this
    {
      State(version, precisions, amp, midFee, outFee, feeGamma, reservedProfitFraction, adminFee, packedParams,
            donationDuration, donationProtectionExpiry, donationProtectionPeriod,
            balances, priceScale, d, totalSupply, priceOracle, lastPrices, lastTimestamp,
            virtualPrice, xcpProfit, lpXcpProfit, donationShares, lastDonationRelease)
    }

    constructor (s: State)
      ensures Storage() == s
    {
      version, precisions, amp := s.version, s.precisions, s.amp;
      midFee, outFee, feeGamma := s.midFee, s.outFee, s.feeGamma;
      reservedProfitFraction, adminFee, packedParams := s.reservedProfitFraction, s.adminFee, s.packedParams;
      donationDuration := s.donationDuration;
      donationProtectionExpiry := s.donationProtectionExpiry;
      donationProtectionPeriod := s.donationProtectionPeriod;
      balances, priceScale, d, totalSupply := s.balances, s.priceScale, s.d, s.totalSupply;
      priceOracle, lastPrices, lastTimestamp := s.priceOracle, s.lastPrices, s.lastTimestamp;
      virtualPrice, xcpProfit, lpXcpProfit := s.virtualPrice, s.xcpProfit, s.lpXcpProfit;
      donationShares, lastDonationRelease := s.donationShares, s.lastDonationRelease;
    }

    /** Writes an accepted rebalancing. */
    method Accept(p: Proposal, scale: int, ts: int, released: int)
      modifies this
      ensures Storage() == AfterBurn(old(Storage()), ts, p.burn, released)
                           .(d := p.d, virtualPrice := p.vp, priceScale := scale)
    {
      d := p.d;
      virtualPrice := p.vp;
      priceScale := scale;
      if p.burn > 0 {
        var elapsed := ElapsedAfterBurn(Storage(), ts, p.burn, released);
        donationShares := donationShares - p.burn;
        totalSupply := totalSupply - p.burn;
        lastDonationRelease := ts - elapsed;
      }
    }

    /** The end of `tweak_price`: rebalance if the proposal holds the floor, else keep the trade. */
    method Rebalance(t: Trade, scale: int, ts: int, vp: int, threshold: int, released: int) returns (r: Result<()>)
      requires |t.xp| == 2
      modifies this
      ensures r.Ok? <==> Rebalanced(old(Storage()), t, ts, vp, threshold, released, scale).Ok?
      ensures r.Err? ==> r.error == Rebalanced(old(Storage()), t, ts, vp, threshold, released, scale).error
      ensures r.Ok? ==> Storage() == Rebalanced(old(Storage()), t, ts, vp, threshold, released, scale).value
    {
      if scale != priceScale {
        var p :- Proposed(Storage(), t.xp, scale, vp, threshold, released);
        if p.vp > WAD && p.vp >= threshold {
          Accept(p, scale, ts, released);
          return Ok(());
        }
      }
      d := t.d;
      virtualPrice := vp;
      return Ok(());
    }

    /** The first half of `tweak_price`: oracle, last price and profit. */
    method Assess(t: Trade, ts: int, vpBefore: int) returns (r: Result<Assessment>)
      requires |t.xp| == 2
      modifies this
      ensures r == Assessed(old(Storage()), t, ts, vpBefore)
      ensures r.Ok? ==> Storage() == Recorded(old(Storage()), t, ts, r.value)
    {
      var s := Storage();
      balances := t.balances;
      var oracle :- Observed(s, ts);
      if lastTimestamp < ts {
        priceOracle := oracle;
        lastTimestamp := ts;
      }
      var p :- GetP(t.xp, t.d, amp);
      lastPrices := p * priceScale / WAD;
      var xcp :- Xcp(t.d, priceScale);
      var vp :- Divided(WAD * xcp, totalSupply);
      var booked :- Booked(s, vpBefore, vp);
      lpXcpProfit := booked.lp;
      xcpProfit := booked.xcp;
      var boosted :- Divided(WAD * xcp, totalSupply - Released(s, ts));
      if boosted < vp {
        return Err(Revert("negative donation"));
      }
      return Ok(Assessment(oracle, lastPrices, vp, boosted, booked));
    }

    method Tweak(t: Trade, ts: int, vpBefore: int) returns (r: Result<()>)
      requires |t.xp| == 2
      modifies this
      ensures r.Ok? <==> Tweaked(old(Storage()), t, ts, vpBefore).Ok?
      ensures r.Err? ==> r.error == Tweaked(old(Storage()), t, ts, vpBefore).error
      ensures r.Ok? ==> Storage() == Tweaked(old(Storage()), t, ts, vpBefore).value
    {
      var s := Storage();
      var a :- Assess(t, ts, vpBefore);
      var scale := ChosenScale(Storage(), s.lastTimestamp, ts, a);
      r := Rebalance(t, scale, ts, a.vp, a.booked.threshold, Released(s, ts));
    }

    /** `exchange`: the trade, then `tweak_price`. Storage after a revert is left unspecified. */
    method Exchange(i: nat, j: nat, dx: nat, ts: nat) returns (r: Result<int>)
      requires Storage().TwoCoins() && i < 2 && j < 2
      modifies this
      ensures r.Ok? <==> Step(old(Storage()), Call(i, j, dx, ts)).Ok?
      ensures r.Err? ==> r.error == Step(old(Storage()), Call(i, j, dx, ts)).error
      ensures r.Ok? ==> (Storage(), r.value) == Step(old(Storage()), Call(i, j, dx, ts)).value
      ensures r.Ok? && old(ProfitFloor(Storage()) && FractionsWithinUnit(Storage())) ==> ProfitFloor(Storage())
      ensures r.Ok? && old(Solvent(Storage())) && old(lastDonationRelease) <= ts ==>
                Solvent(Storage()) && SupplyStep(old(Storage()), Storage(), ts)
    {
      ghost var before, call := Storage(), Call(i, j, dx, ts);
      if i == j || dx == 0 {
        return Err(Revert("same coin / zero dx"));
      }
      var vpBefore := 0;
      if version.V300? {
        vpBefore :- VirtualPrice(d, priceScale, totalSupply);
      }
      var t :- Traded(Storage(), Call(i, j, dx, ts));
      var tweak := Tweak(t, ts, vpBefore);
      if tweak.Err? {
        return Err(tweak.error);
      }
      if ProfitFloor(before) && FractionsWithinUnit(before) { StepKeepsFloor(before, call); }
      if Solvent(before) && before.lastDonationRelease <= ts {
        StepKeepsSolvent(before, call);
        StepKeepsSupply(before, call);
      }
      return Ok(t.dy);
    }
  }
}
