/** What every `operate` keeps, and what whole runs of them cannot do: the withdrawal limit stays
    within the supply, and no run at one timestamp gains value from rounding. */
module LiquidityRuns {
  import opened Arith
  import opened Bits
  import opened BigNumber
  import opened Words
  import opened Liquidity
  import opened LiquidityWords

  // ----- what is stored -----

  lemma StoredBigRounds(n: int, up: bool)
    requires StoredBig(n, up).Ok?
    ensures 0 <= n && StoredBig(n, up).value < Pow2(64)
    ensures up ==> n <= FromBig(StoredBig(n, up).value) <= n + Pow2(ExponentOf(n, COEFFICIENT_SIZE))
    ensures !up ==> FromBig(StoredBig(n, up).value) == RoundedDown(n, COEFFICIENT_SIZE) <= n
  {
    hide ToBig, FromBig, RoundedDown, Pow2;
    if up { UpIsAbove(n, COEFFICIENT_SIZE); } else { DownIsRounded(n, COEFFICIENT_SIZE); }
  }

  lemma StoredDecayFits(d: Decay)
    requires StoredDecay(d).Ok?
    ensures StoredDecay(d).value.amount < Pow2(26) && StoredDecay(d).value.checkpoints < Pow2(10)
  {
    hide ToBig, FromBig, RoundedDown;
    Pow2Add(5, 5);
    Pow2Mono(0, 26);
    if d.amount >= SMALLEST_DECAY { DownIsRounded(d.amount, DECAY_COEFFICIENT_SIZE); }
  }

  /** The decaying part as stored, decoded: nothing below ten units, else rounded down. */
  lemma StoredDecayDecodes(d: Decay)
    requires StoredDecay(d).Ok?
    ensures FromBig(StoredDecay(d).value.amount)
         == if d.amount < SMALLEST_DECAY then 0 else RoundedDown(d.amount, DECAY_COEFFICIENT_SIZE)
  {
    if d.amount < SMALLEST_DECAY {
      assert FromBig(0) == 0;
    } else {
      hide ToBig, FromBig, RoundedDown;
      DownIsRounded(d.amount, DECAY_COEFFICIENT_SIZE);
    }
  }

  /** Bits a supply operation leaves alone: mode, expansion, base limit and pause. */
  ghost predicate SupplyKept(word: nat, word': nat) {
    forall k: nat :: k == 0 || 162 <= k < 218 || 254 <= k < 256 ==> Bit(word', k) == Bit(word, k)
  }

  /** Bits a borrow operation leaves alone: mode, expansion, both limits' settings and pause. */
  ghost predicate BorrowKept(word: nat, word': nat) {
    forall k: nat :: k == 0 || 162 <= k < 256 ==> Bit(word', k) == Bit(word, k)
  }

  /** Bits a rewritten configuration keeps: fee, threshold and flags. */
  ghost predicate ConfigKept(cfg: nat, cfg': nat) {
    forall k: nat :: 16 <= k < 30 || 44 <= k < 58 || 249 <= k < 256 ==> Bit(cfg', k) == Bit(cfg, k)
  }

  /** The word a supply operation leaves: amount, limit and decaying part rounded down, its time, and
      every other bit as it was. Each value fits its field, so each reads back as stored. */
  lemma SupplyStored(word: nat, plan: SupplyPlan, ts: nat)
    requires ts < Pow2(CLOCK_BITS) && StoreSupply(word, plan, ts).Ok?
    ensures var w := StoreSupply(word, plan, ts).value.word;
            && 0 <= plan.move.user && StoredDecay(plan.decay).Ok?
            && Amount(w) == RoundedDown(plan.move.user, COEFFICIENT_SIZE)
            && StoredLimit(w) == RoundedDown(plan.after, COEFFICIENT_SIZE)
            && Stamp(w) == ts && (WithInterest(w) <==> WithInterest(word))
            && DecayAmount(w) == FromBig(StoredDecay(plan.decay).value.amount)
            && DecayCheckpoints(w) == StoredDecay(plan.decay).value.checkpoints
            && SupplyKept(word, w)
  {
    hide ToBig, FromBig, RoundedDown, Pow2, Field, WriteBack, Bit;
    var decay := StoredDecay(plan.decay).value;
    var big := StoredBig(plan.move.user, false).value;
    var limit := StoredBig(plan.after, false).value;
    StoredDecayFits(plan.decay);
    StoredBigRounds(plan.move.user, false);
    StoredBigRounds(plan.after, false);
    SupplyWritten(word, big, limit, ts, decay);
  }

  /** What any successful supply or withdrawal writes, and that it writes nothing else. */
  lemma SupplyLegWritten(word: nat, amount: int, price: int, ts: nat)
    requires ts < Pow2(CLOCK_BITS) && SupplyLeg(word, amount, price, ts).Ok?
    ensures PlanSupply(word, amount, price, ts).Ok?
    ensures var w, plan := SupplyLeg(word, amount, price, ts).value.word, PlanSupply(word, amount, price, ts).value;
            && 0 <= plan.move.user
            && Amount(w) == RoundedDown(plan.move.user, COEFFICIENT_SIZE)
            && StoredLimit(w) == RoundedDown(plan.after, COEFFICIENT_SIZE) && Stamp(w) == ts
            && DecayAmount(w) == (if plan.decay.amount < SMALLEST_DECAY then 0
                                  else RoundedDown(plan.decay.amount, DECAY_COEFFICIENT_SIZE))
            && DecayCheckpoints(w) <= TOTAL_DECAY_CHECKPOINTS
            && SupplyKept(word, w)
  {
    hide Field, FromBig, PlanSupply, StoreSupply, StoredDecay, Pow2, RoundedDown, SupplyKept;
    var plan := PlanSupply(word, amount, price, ts).value;
    SupplyStored(word, plan, ts);
    StoredDecayDecodes(plan.decay);
  }

  /** What any successful borrow or payback writes, and that it writes nothing else. */
  lemma BorrowLegWritten(word: nat, amount: int, price: int, ts: nat)
    requires ts < Pow2(CLOCK_BITS) && BorrowLeg(word, amount, price, ts).Ok?
    ensures BorrowMove(word, Amount(word), amount, price).Ok? && BorrowLimitBefore(word, Amount(word), ts).Ok?
    ensures var w, user := BorrowLeg(word, amount, price, ts).value.word,
                           BorrowMove(word, Amount(word), amount, price).value.user;
            && 0 <= user <= Amount(w) <= user + Pow2(ExponentOf(user, COEFFICIENT_SIZE))
            && var after := BorrowLimitAfter(word, user, BorrowLimitBefore(word, Amount(word), ts).value);
            && 0 <= after && StoredLimit(w) == RoundedDown(after, COEFFICIENT_SIZE) && Stamp(w) == ts
            && (WithInterest(w) <==> WithInterest(word)) && BorrowKept(word, w)
  {
    hide Field, FromBig, Pow2, RoundedDown, BorrowMove, BorrowLimitBefore, BorrowLimitAfter, StoredBig, WriteBack, Bit;
    var limit := BorrowLimitBefore(word, Amount(word), ts).value;
    var user := BorrowMove(word, Amount(word), amount, price).value.user;
    var after := BorrowLimitAfter(word, user, limit);
    StoredBigRounds(user, true);
    StoredBigRounds(after, false);
    BorrowWritten(word, StoredBig(user, true).value, StoredBig(after, false).value, ts);
  }

  /** A booked supply moves one total, stored rounded down, and leaves the other three fields alone. */
  lemma SupplyTotalWritten(b: Books, leg: Leg)
    requires BookedSupply(b, leg).Ok?
    ensures var b', i := BookedSupply(b, leg).value, if leg.free == 0 then 0 else 1;
            var total := if leg.free == 0 then b'.rawSupply else b'.freeSupply;
            && 0 <= total && FromBig(Field(b'.word, 64 * i, 64)) == RoundedDown(total, COEFFICIENT_SIZE)
            && (forall k: nat :: k < 256 && !(64 * i <= k < 64 * i + 64) ==> Bit(b'.word, k) == Bit(b.word, k))
  {
    hide Field, FromBig, WriteBack, Bit, Pow2, StoredBig, RoundedDown, MovedTotal;
    var i, total := if leg.free == 0 then 0 else 1,
                    if leg.free == 0 then MovedTotal(b.rawSupply, leg.raw).value
                    else MovedTotal(b.freeSupply, leg.free).value;
    StoredBigRounds(total, false);
    TotalWritten(b.word, i, StoredBig(total, false).value);
  }

  /** A booked borrow moves one total, stored rounded up, and leaves the other three fields alone. */
  lemma BorrowTotalWritten(b: Books, leg: Leg)
    requires BookedBorrow(b, leg).Ok?
    ensures var b', i := BookedBorrow(b, leg).value, if leg.free == 0 then 2 else 3;
            var total := if leg.free == 0 then b'.rawBorrow else b'.freeBorrow;
            && 0 <= total <= FromBig(Field(b'.word, 64 * i, 64)) <= total + Pow2(ExponentOf(total, COEFFICIENT_SIZE))
            && (forall k: nat :: k < 256 && !(64 * i <= k < 64 * i + 64) ==> Bit(b'.word, k) == Bit(b.word, k))
  {
    hide Field, FromBig, WriteBack, Bit, Pow2, StoredBig, RoundedDown, MovedTotal;
    var i, total := if leg.free == 0 then 2 else 3,
                    if leg.free == 0 then MovedTotal(b.rawBorrow, leg.raw).value
                    else MovedTotal(b.freeBorrow, leg.free).value;
    StoredBigRounds(total, true);
    TotalWritten(b.word, i, StoredBig(total, true).value);
  }

  // ----- the withdrawal limit -----

  /** A user's stored withdrawal limit never exceeds the stored supply. */
  ghost predicate LimitWithinSupply(word: nat) {
    StoredLimit(word) <= Amount(word)
  }

  lemma LimitBeforeWithin(word: nat, user: nat, ts: int)
    requires StoredLimit(word) <= user && Stamp(word) <= ts
    requires WithdrawalLimitBefore(word, user, ts).Ok?
    ensures WithdrawalLimitBefore(word, user, ts).value <= user
  {
    hide Field, FromBig;
    if StoredLimit(word) != 0 {
      var most := ExpandPercent(word) * user / FOUR;
      MulMono2(0, ExpandPercent(word), 0, user);
      QuotientBounds(ExpandPercent(word) * user, FOUR);
      MulMono2(0, most, 0, ts - Stamp(word));
      QuotientBounds(most * (ts - Stamp(word)), ExpandDuration(word));
    }
  }

  lemma LimitAfterWithin(word: nat, user: nat, newLimit: nat)
    requires newLimit <= user
    ensures WithdrawalLimitAfter(word, user, newLimit) <= user
  {
    hide Field, FromBig;
    MulMono2(0, user, 0, ExpandPercent(word));
    QuotientBounds(user * ExpandPercent(word), FOUR);
  }

  lemma DepositNotNegative(word: nat, user: nat, amount: int, price: int)
    requires 0 < amount && 0 < price && SupplyMove(word, user, amount, price).Ok?
    ensures user <= SupplyMove(word, user, amount, price).value.user
  {
    hide Field;
    QuotientBounds(amount * PRICE_UNIT, price);
  }

  lemma PlanKeepsLimit(word: nat, amount: int, price: int, ts: nat)
    requires LimitWithinSupply(word) && Stamp(word) <= ts && 0 < price && amount != 0
    requires PlanSupply(word, amount, price, ts).Ok?
    ensures var plan := PlanSupply(word, amount, price, ts).value;
            plan.after <= plan.move.user
  {
    hide Field, FromBig, Decayed, DecayAfter, WithdrawalLimitBefore, SupplyMove, WithdrawalLimitAfter;
    var user := Amount(word);
    LimitBeforeWithin(word, user, ts);
    if amount > 0 { DepositNotNegative(word, user, amount, price); }
    var required := WithdrawalLimitBefore(word, user, ts).value;
    var m := SupplyMove(word, user, amount, price).value;
    var l := AfterWithdrawal(amount, -(m.raw + m.free), required, Decayed(word, ts).value.amount);
    WithdrawnIsPositive(word, user, amount, price);
    LimitAfterWithin(word, m.user, l.required);
  }

  lemma WithdrawnIsPositive(word: nat, user: nat, amount: int, price: int)
    requires amount < 0 ==> 0 < price
    requires SupplyMove(word, user, amount, price).Ok?
    ensures amount < 0 ==> 0 <= -(SupplyMove(word, user, amount, price).value.raw
                                  + SupplyMove(word, user, amount, price).value.free)
  {
    hide Field;
    if amount < 0 && WithInterest(word) { QuotientBounds(-amount * PRICE_UNIT + price - 1, price); }
  }

  /** One supply or withdrawal keeps the limit within the supply: the check, the expansion and the
      decay happen before rounding, and rounding down keeps the order. */
  lemma SupplyLegKeepsLimit(word: nat, amount: int, price: int, ts: nat)
    requires LimitWithinSupply(word) && Stamp(word) <= ts < Pow2(CLOCK_BITS) && 0 < price && amount != 0
    requires SupplyLeg(word, amount, price, ts).Ok?
    ensures LimitWithinSupply(SupplyLeg(word, amount, price, ts).value.word)
    ensures Stamp(SupplyLeg(word, amount, price, ts).value.word) == ts
  {
    hide Field, FromBig, PlanSupply, StoreSupply, Pow2, RoundedDown;
    PlanKeepsLimit(word, amount, price, ts);
    var plan := PlanSupply(word, amount, price, ts).value;
    SupplyStored(word, plan, ts);
    RoundedDownMono(plan.after, plan.move.user, COEFFICIENT_SIZE);
  }

  // ----- value -----

  /** The price of a user's unit, in units of 1e-12 tokens. */
  ghost function UnitPrice(word: nat, price: int): int {
    if WithInterest(word) then price else PRICE_UNIT
  }

  lemma SupplyMoveFavoursLayer(word: nat, user: nat, amount: int, price: int)
    requires 0 < price && SupplyMove(word, user, amount, price).Ok?
    ensures SupplyMove(word, user, amount, price).value.user * UnitPrice(word, price)
         <= user * UnitPrice(word, price) + amount * PRICE_UNIT
  {
    hide Field;
    if WithInterest(word) {
      QuotientBounds(amount * PRICE_UNIT, price);
      QuotientBounds(-amount * PRICE_UNIT + price - 1, price);
    }
  }

  lemma BorrowMoveFavoursLayer(word: nat, user: nat, amount: int, price: int)
    requires 0 < price && BorrowMove(word, user, amount, price).Ok?
    ensures user * UnitPrice(word, price) + amount * PRICE_UNIT
         <= BorrowMove(word, user, amount, price).value.user * UnitPrice(word, price)
  {
    hide Field;
    if WithInterest(word) {
      QuotientBounds(-(amount * PRICE_UNIT), price);
      TruncDivBounds(amount * PRICE_UNIT, price);
      QuotientBounds(-(amount * PRICE_UNIT), price);
    }
  }

  /** The stored supply is worth at most what it was plus what was put in. */
  lemma SupplyLegValue(word: nat, amount: int, price: int, ts: nat)
    requires 0 < price && ts < Pow2(CLOCK_BITS) && SupplyLeg(word, amount, price, ts).Ok?
    ensures var w := SupplyLeg(word, amount, price, ts).value.word;
            && (WithInterest(w) <==> WithInterest(word))
            && Amount(w) * UnitPrice(w, price) <= Amount(word) * UnitPrice(word, price) + amount * PRICE_UNIT
  {
    hide Field, FromBig, StoreSupply, Pow2, RoundedDown, SupplyMove, Decayed, WithdrawalLimitBefore, DecayAfter;
    var plan := PlanSupply(word, amount, price, ts).value;
    SupplyStored(word, plan, ts);
    SupplyMoveFavoursLayer(word, Amount(word), amount, price);
    RoundedDownAtMost(plan.move.user, COEFFICIENT_SIZE);
    MulMono(RoundedDown(plan.move.user, COEFFICIENT_SIZE), plan.move.user, UnitPrice(word, price));
  }

  /** The stored debt is worth at least what it was plus what was taken out. */
  lemma BorrowLegValue(word: nat, amount: int, price: int, ts: nat)
    requires 0 < price && ts < Pow2(CLOCK_BITS) && BorrowLeg(word, amount, price, ts).Ok?
    ensures var w := BorrowLeg(word, amount, price, ts).value.word;
            && (WithInterest(w) <==> WithInterest(word))
            && Amount(word) * UnitPrice(word, price) + amount * PRICE_UNIT <= Amount(w) * UnitPrice(w, price)
  {
    hide Field, FromBig, Pow2, RoundedDown, BorrowMove, BorrowLeg, BorrowLimitBefore, BorrowLimitAfter, BorrowKept;
    BorrowLegWritten(word, amount, price, ts);
    BorrowMoveFavoursLayer(word, Amount(word), amount, price);
    var w := BorrowLeg(word, amount, price, ts).value.word;
    MulMono(BorrowMove(word, Amount(word), amount, price).value.user, Amount(w), UnitPrice(word, price));
  }

  // ----- exchange prices -----

  lemma SharesNonNegative(cfg: nat)
    ensures 0 <= BorrowShare(cfg)
    ensures SupplyRatio(cfg) != 1 ==> 0 <= SupplyShare(cfg)
  {
    hide Field;
    var h := BorrowRatio(cfg) / 2;
    QuotientBounds(h * E27, FOUR + h);
    QuotientAtMost(h * E27, FOUR + h, E27);
    var t := SupplyRatio(cfg);
    if t % 2 == 1 && t != 1 {
      QuotientBounds(E27 * FOUR, t / 2);
      MulMono2(0, Utilization(cfg), 0, E27 + E27 * FOUR / (t / 2));
    } else {
      MulMono2(0, E27 * Utilization(cfg), 0, FOUR + t / 2);
    }
  }

  /** Interest that reaches suppliers, before the layer's fee. */
  ghost function Earned(cfg: nat): int {
    if SupplyRatio(cfg) == 1 || BorrowRatio(cfg) == 1 then 0
    else Rate(cfg) * (FOUR * SupplyShare(cfg) * BorrowShare(cfg) / E54)
  }

  lemma EarnedNonNegative(cfg: nat)
    ensures 0 <= Earned(cfg)
  {
    hide Field, SupplyShare, BorrowShare;
    SharesNonNegative(cfg);
    if SupplyRatio(cfg) != 1 {
      MulMono2(0, FOUR * SupplyShare(cfg), 0, BorrowShare(cfg));
      QuotientBounds(FOUR * SupplyShare(cfg) * BorrowShare(cfg), E54);
      MulMono2(0, Rate(cfg), 0, FOUR * SupplyShare(cfg) * BorrowShare(cfg) / E54);
    }
  }

  /** The fee is at most all of the interest, or there is no interest. */
  ghost predicate FeeWithinInterest(cfg: nat) {
    Fee(cfg) <= FOUR || Earned(cfg) == 0
  }

  lemma SupplyRateNonNegative(cfg: nat)
    requires SupplyRatio(cfg) != 1 && BorrowRatio(cfg) != 1 && FeeWithinInterest(cfg)
    ensures 0 <= SupplyRate(cfg)
  {
    hide Field, SupplyShare, BorrowShare;
    EarnedNonNegative(cfg);
    if Fee(cfg) <= FOUR { MulMono2(0, Earned(cfg), 0, FOUR - Fee(cfg)); }
  }

  lemma QuotientOfMore(a: nat, t: nat, t': nat, d: nat)
    requires t <= t' && 0 < d
    ensures a * t / d <= a * t' / d
  {
    MulMono(t, t', a);
    QuotientMono(a * t, a * t', d);
  }

  /** Exchange prices never fall as time passes. */
  lemma PricesMonotone(cfg: nat, ts: int, ts': int)
    requires ConfigStamp(cfg) <= ts <= ts' && FeeWithinInterest(cfg) && ExchangePrices(cfg, ts).Ok?
    ensures ExchangePrices(cfg, ts').Ok?
    ensures ExchangePrices(cfg, ts).value.supply <= ExchangePrices(cfg, ts').value.supply
    ensures ExchangePrices(cfg, ts).value.borrow <= ExchangePrices(cfg, ts').value.borrow
  {
    hide Field, SupplyRate, FeeWithinInterest;
    var secs, secs' := ts - ConfigStamp(cfg), ts' - ConfigStamp(cfg);
    MulMono2(0, BorrowPrice(cfg), 0, Rate(cfg));
    QuotientOfMore(BorrowPrice(cfg) * Rate(cfg), 0, secs, SECONDS_PER_YEAR * FOUR);
    QuotientOfMore(BorrowPrice(cfg) * Rate(cfg), secs, secs', SECONDS_PER_YEAR * FOUR);
    if SupplyRatio(cfg) != 1 && BorrowRatio(cfg) != 1 {
      SupplyRateNonNegative(cfg);
      MulMono2(0, SupplyPrice(cfg), 0, SupplyRate(cfg));
      QuotientOfMore(SupplyPrice(cfg) * SupplyRate(cfg), 0, secs, SECONDS_PER_YEAR * FOUR * FOUR * FOUR);
      QuotientOfMore(SupplyPrice(cfg) * SupplyRate(cfg), secs, secs', SECONDS_PER_YEAR * FOUR * FOUR * FOUR);
    }
  }

  /** So they are positive and at least the stored ones. */
  lemma PricesGrow(cfg: nat, ts: int)
    requires ConfigStamp(cfg) <= ts && FeeWithinInterest(cfg) && ExchangePrices(cfg, ts).Ok?
    ensures var p := ExchangePrices(cfg, ts).value;
            0 < SupplyPrice(cfg) <= p.supply && 0 < BorrowPrice(cfg) <= p.borrow
  {
    hide Field, SupplyRate, FeeWithinInterest;
    PricesMonotone(cfg, ConfigStamp(cfg), ts);
  }

  /** The supply price never falls, from any time to any later one. */
  ghost predicate SupplyPriceHolds(cfg: nat) {
    forall ts: int, ts': int :: ConfigStamp(cfg) <= ts <= ts' && ExchangePrices(cfg, ts).Ok? ==>
      ExchangePrices(cfg, ts').Ok? && ExchangePrices(cfg, ts).value.supply <= ExchangePrices(cfg, ts').value.supply
  }

  /** That is so exactly when the fee is at most all of the interest or there is none. */
  lemma SupplyPriceCondition(cfg: nat)
    requires 0 < SupplyPrice(cfg) && 0 < BorrowPrice(cfg)
    ensures SupplyPriceHolds(cfg) <==> FeeWithinInterest(cfg)
  {
    hide Field, ExchangePrices, FeeWithinInterest;
    if FeeWithinInterest(cfg) {
      forall ts: int, ts': int | ConfigStamp(cfg) <= ts <= ts' && ExchangePrices(cfg, ts).Ok?
        ensures ExchangePrices(cfg, ts').Ok?
             && ExchangePrices(cfg, ts).value.supply <= ExchangePrices(cfg, ts').value.supply
      {
        PricesMonotone(cfg, ts, ts');
      }
    } else {
      SupplyPriceFalls(cfg);
    }
  }

  /** Otherwise the price falls over as many years as the fee has units. */
  lemma SupplyPriceFalls(cfg: nat)
    requires 0 < SupplyPrice(cfg) && 0 < BorrowPrice(cfg) && !FeeWithinInterest(cfg)
    ensures var ts := ConfigStamp(cfg);
            var ts' := ts + SECONDS_PER_YEAR * FOUR * FOUR * FOUR;
            && ExchangePrices(cfg, ts).Ok? && ExchangePrices(cfg, ts').Ok?
            && ExchangePrices(cfg, ts').value.supply < ExchangePrices(cfg, ts).value.supply
  {
    hide Field, SupplyShare, BorrowShare;
    EarnedNonNegative(cfg);
    var s, earned, excess := SupplyPrice(cfg), Earned(cfg), Fee(cfg) - FOUR;
    assert SupplyRate(cfg) == -(earned * excess);
    MulMono2(1, earned, 1, excess);
    MulMono2(1, s, 1, earned * excess);
    assert s * SupplyRate(cfg) == -(s * (earned * excess));
    var all := SECONDS_PER_YEAR * FOUR * FOUR * FOUR;
    QuotientUnique(s * SupplyRate(cfg) * all, all, s * SupplyRate(cfg));
  }

  ghost predicate NonNegativeBooks(b: Books) {
    0 <= b.rawSupply && 0 <= b.freeSupply && 0 <= b.rawBorrow && 0 <= b.freeBorrow
  }

  lemma RatioFits(free: nat, with: int)
    requires PackedRatio(free, with).Ok?
    ensures PackedRatio(free, with).value <= 2 * FOUR + 1
    ensures 0 <= with ==> 0 <= PackedRatio(free, with).value
  {
    if with > free {
      QuotientBounds(free * FOUR, with);
      QuotientAtMost(free * FOUR, with, FOUR);
    } else if with < free {
      QuotientBounds(with * FOUR, free);
      QuotientAtMost(with * FOUR, free, FOUR);
    }
  }

  lemma FieldWidths()
    ensures X16 < Pow2(16) && X14 < Pow2(14) && X64 < Pow2(64) && 2 * FOUR + 1 < Pow2(15)
  {
    Doublings();
    Powers();
    Pow2Add(14, 1);
  }

  /** The seven fields a rewritten configuration gets. */
  ghost predicate ConfigHolds(w: nat, rate: int, util: int, ts: int, p: Prices, supplyRatio: int, borrowRatio: int) {
    && Rate(w) == rate && Utilization(w) == util && ConfigStamp(w) == ts
    && SupplyPrice(w) == p.supply && BorrowPrice(w) == p.borrow
    && SupplyRatio(w) == supplyRatio && BorrowRatio(w) == borrowRatio
  }

  /** A rewritten configuration reads back what was written and keeps every other bit. */
  lemma ConfigRewritten(cfg: nat, rateData: nat, ts: nat, p: Prices, util: int, supplyRatio: int, borrowRatio: int)
    requires ts < Pow2(CLOCK_BITS) && supplyRatio <= 2 * FOUR + 1 && borrowRatio <= 2 * FOUR + 1
    requires RewrittenConfig(cfg, rateData, ts, p, util, supplyRatio, borrowRatio).Ok?
    ensures BorrowRate(rateData, util).Ok?
    ensures var w := RewrittenConfig(cfg, rateData, ts, p, util, supplyRatio, borrowRatio).value;
            && ConfigHolds(w, BorrowRate(rateData, util).value, util, ts, p, supplyRatio, borrowRatio)
            && Fee(w) == Fee(cfg) && ConfigKept(cfg, w)
  {
    hide Field, BorrowRate, WriteBack, Bit, Pow2;
    FieldWidths();
    ConfigWritten(cfg, BorrowRate(rateData, util).value, util, ts, p, supplyRatio, borrowRatio);
  }

  /** What an operation leaves in the configuration word: the word as it was, or the borrow rate,
      utilization, time, prices and ratios it computed, with every other bit kept. */
  lemma ConfigAfterWritten(cfg: nat, configs2: nat, rateData: nat, b: Books, p: Prices,
                           deposit: bool, borrow: bool, ts: nat)
    requires ts < Pow2(CLOCK_BITS) && NonNegativeBooks(b)
    requires ConfigAfter(cfg, configs2, rateData, b, p, deposit, borrow, ts).Ok?
    ensures LevelsOf(b, p, deposit, borrow).Ok?
    ensures var w, l := ConfigAfter(cfg, configs2, rateData, b, p, deposit, borrow, ts).value,
                        LevelsOf(b, p, deposit, borrow).value;
            var util := UtilizationOf(l);
            || w == cfg
            || (&& BorrowRate(rateData, util).Ok?
                && ConfigHolds(w, BorrowRate(rateData, util).value, util, ts, p, l.supplyRatio, l.borrowRatio)
                && Fee(w) == Fee(cfg) && ConfigKept(cfg, w))
  {
    hide Field, RewrittenConfig, BorrowRate, MustWrite, MaxUtilization, PackedRatio, UtilizationOf, Pow2, ConfigHolds,
         ConfigKept;
    var l := LevelsOf(b, p, deposit, borrow).value;
    RatioFits(b.freeSupply, b.rawSupply * p.supply / PRICE_UNIT);
    RatioFits(b.freeBorrow, b.rawBorrow * p.borrow / PRICE_UNIT);
    if MustWrite(cfg, ts, UtilizationOf(l), l.supplyRatio, l.borrowRatio) {
      ConfigRewritten(cfg, rateData, ts, p, UtilizationOf(l), l.supplyRatio, l.borrowRatio);
    }
  }

  lemma ConfigAfterKeepsPrices(cfg: nat, configs2: nat, rateData: nat, b: Books, p: Prices,
                               deposit: bool, borrow: bool, ts: nat)
    requires ts < Pow2(CLOCK_BITS) && NonNegativeBooks(b)
    requires ExchangePrices(cfg, ts) == Ok(p) && 0 < p.supply && 0 < p.borrow
    requires ConfigAfter(cfg, configs2, rateData, b, p, deposit, borrow, ts).Ok?
    ensures var w := ConfigAfter(cfg, configs2, rateData, b, p, deposit, borrow, ts).value;
            && ExchangePrices(w, ts) == Ok(p) && Fee(w) == Fee(cfg) && (w == cfg || ConfigStamp(w) == ts)
  {
    hide Field, ConfigAfter, LevelsOf, BorrowRate, UtilizationOf, ConfigKept, Pow2, SupplyRate;
    ConfigAfterWritten(cfg, configs2, rateData, b, p, deposit, borrow, ts);
  }

  // ----- one operation -----

  /** Exchange prices at ts, when there are any, are positive. */
  ghost predicate PricesPositive(cfg: nat, ts: int) {
    ExchangePrices(cfg, ts).Ok? ==>
      0 < ExchangePrices(cfg, ts).value.supply && 0 < ExchangePrices(cfg, ts).value.borrow
  }

  /** Value of the user's stored supply less stored debt, in units of 1e-12 tokens. */
  ghost function Value(tok: Token, p: Prices): int {
    Amount(tok.supply) * UnitPrice(tok.supply, p.supply) - Amount(tok.borrow) * UnitPrice(tok.borrow, p.borrow)
  }

  lemma BooksStayNonNegative(b: Books, leg: Leg)
    requires NonNegativeBooks(b)
    ensures BookedSupply(b, leg).Ok? ==> NonNegativeBooks(BookedSupply(b, leg).value)
    ensures BookedBorrow(b, leg).Ok? ==> NonNegativeBooks(BookedBorrow(b, leg).value)
  {
    hide WriteBack, ToBig;
  }

  /** The fee is kept, and the configuration is, or carries the time of the operation. */
  ghost predicate SameFee(tok: Token, tok': Token, ts: int) {
    Fee(tok'.config) == Fee(tok.config) && (tok'.config == tok.config || ConfigStamp(tok'.config) == ts)
  }

  /** If the supply's clock has not passed ts it still has not, and a limit within it stays within. */
  ghost predicate LimitStep(tok: Token, tok': Token, ts: int) {
    Stamp(tok.supply) <= ts ==>
      Stamp(tok'.supply) <= ts && (LimitWithinSupply(tok.supply) ==> LimitWithinSupply(tok'.supply))
  }

  /** What one operation does to the user's words, whatever it does to the rest. */
  lemma OperateEffect(tok: Token, supplyAmount: int, borrowAmount: int, ts: nat, pulled: int)
    requires PricesPositive(tok.config, ts) && ts < Pow2(CLOCK_BITS)
    requires Operate(tok, supplyAmount, borrowAmount, ts, pulled).Ok?
    ensures ExchangePrices(tok.config, ts).Ok?
    ensures var t := Operate(tok, supplyAmount, borrowAmount, ts, pulled).value;
            var p := ExchangePrices(tok.config, ts).value;
            && ExchangePrices(t.config, ts) == Ok(p) && SameFee(tok, t, ts)
            && Value(t, p) <= Value(tok, p) + (supplyAmount - borrowAmount) * PRICE_UNIT
            && LimitStep(tok, t, ts)
            && t.balance == tok.balance + pulled - PaidOut(supplyAmount, borrowAmount) && 0 <= t.balance
  {
    hide Field, FromBig, SupplyLeg, BorrowLeg, BookedSupply, BookedBorrow, ConfigAfter, ExchangePrices, Pow2,
         LimitWithinSupply, UnitPrice, PaidOut;
    var p := ExchangePrices(tok.config, ts).value;
    var e1 := SupplySide(tok, supplyAmount, p.supply, ts).value;
    SupplySideEffect(tok, supplyAmount, p.supply, ts);
    var e := BorrowSide(e1, borrowAmount, p.borrow, ts).value;
    BorrowSideEffect(e1, borrowAmount, p.borrow, ts);
    ConfigAfterKeepsPrices(tok.config, tok.configs2, tok.rateData, e.books, p, supplyAmount > 0, borrowAmount > 0, ts);
  }

  lemma SupplySideEffect(tok: Token, amount: int, price: int, ts: nat)
    requires 0 < price && ts < Pow2(CLOCK_BITS) && SupplySide(tok, amount, price, ts).Ok?
    ensures var e := SupplySide(tok, amount, price, ts).value;
            && e.borrow == tok.borrow && NonNegativeBooks(e.books)
            && Amount(e.supply) * UnitPrice(e.supply, price)
            <= Amount(tok.supply) * UnitPrice(tok.supply, price) + amount * PRICE_UNIT
            && LimitStep(tok, tok.(supply := e.supply), ts)
  {
    hide Field, FromBig, SupplyLeg, BookedSupply, Pow2, LimitWithinSupply, UnitPrice;
    if amount != 0 {
      SupplyLegValue(tok.supply, amount, price, ts);
      BooksStayNonNegative(OpenBooks(tok.totals), SupplyLeg(tok.supply, amount, price, ts).value);
      SupplyLegWritten(tok.supply, amount, price, ts);
      if LimitWithinSupply(tok.supply) && Stamp(tok.supply) <= ts {
        SupplyLegKeepsLimit(tok.supply, amount, price, ts);
      }
    }
  }

  lemma BorrowSideEffect(e: Entries, amount: int, price: int, ts: nat)
    requires 0 < price && ts < Pow2(CLOCK_BITS) && NonNegativeBooks(e.books) && BorrowSide(e, amount, price, ts).Ok?
    ensures var e' := BorrowSide(e, amount, price, ts).value;
            && e'.supply == e.supply && NonNegativeBooks(e'.books)
            && Amount(e.borrow) * UnitPrice(e.borrow, price) + amount * PRICE_UNIT
            <= Amount(e'.borrow) * UnitPrice(e'.borrow, price)
  {
    hide Field, FromBig, BorrowLeg, BookedBorrow, Pow2, UnitPrice;
    if amount != 0 {
      BorrowLegValue(e.borrow, amount, price, ts);
      BooksStayNonNegative(e.books, BorrowLeg(e.borrow, amount, price, ts).value);
    }
  }

  /** Everything one operation writes, for any prices: a side that is not used keeps its word and its
      totals, and what is used keeps every bit beside its fields. */
  lemma OperateWrites(tok: Token, supplyAmount: int, borrowAmount: int, ts: nat, pulled: int)
    requires ts < Pow2(CLOCK_BITS) && Operate(tok, supplyAmount, borrowAmount, ts, pulled).Ok?
    ensures var t := Operate(tok, supplyAmount, borrowAmount, ts, pulled).value;
            && t == tok.(config := t.config, totals := t.totals, supply := t.supply, borrow := t.borrow,
                         balance := t.balance)
            && (if supplyAmount == 0 then t.supply == tok.supply
                else Stamp(t.supply) == ts && SupplyKept(tok.supply, t.supply))
            && (if borrowAmount == 0 then t.borrow == tok.borrow
                else Stamp(t.borrow) == ts && BorrowKept(tok.borrow, t.borrow))
            && (supplyAmount == 0 ==> SameRange(tok.totals, t.totals, 0, 128))
            && (borrowAmount == 0 ==> SameRange(tok.totals, t.totals, 128, 256))
            && (t.config == tok.config || (ConfigStamp(t.config) == ts && ConfigKept(tok.config, t.config)))
  {
    hide Field, FromBig, SupplySide, BorrowSide, ConfigAfter, ExchangePrices, Pow2, SupplyKept, BorrowKept, ConfigKept,
         SameRange, Shr;
    var p := ExchangePrices(tok.config, ts).value;
    var e1 := SupplySide(tok, supplyAmount, p.supply, ts).value;
    SupplySideWrites(tok, supplyAmount, p.supply, ts);
    var e := BorrowSide(e1, borrowAmount, p.borrow, ts).value;
    BorrowSideWrites(e1, borrowAmount, p.borrow, ts);
    ConfigAfterWritten(tok.config, tok.configs2, tok.rateData, e.books, p, supplyAmount > 0, borrowAmount > 0, ts);
  }

  lemma SupplySideWrites(tok: Token, amount: int, price: int, ts: nat)
    requires ts < Pow2(CLOCK_BITS) && SupplySide(tok, amount, price, ts).Ok?
    ensures var e := SupplySide(tok, amount, price, ts).value;
            && e.borrow == tok.borrow && NonNegativeBooks(e.books)
            && (if amount == 0 then e.supply == tok.supply
                else Stamp(e.supply) == ts && SupplyKept(tok.supply, e.supply))
            && (amount == 0 ==> e.books.word == tok.totals) && SameRange(tok.totals, e.books.word, 128, 256)
  {
    hide Field, FromBig, SupplyLeg, BookedSupply, Pow2, SupplyKept, Bit;
    if amount != 0 {
      SupplyLegWritten(tok.supply, amount, price, ts);
      var leg := SupplyLeg(tok.supply, amount, price, ts).value;
      BooksStayNonNegative(OpenBooks(tok.totals), leg);
      SupplyTotalWritten(OpenBooks(tok.totals), leg);
    }
  }

  lemma BorrowSideWrites(e: Entries, amount: int, price: int, ts: nat)
    requires ts < Pow2(CLOCK_BITS) && NonNegativeBooks(e.books) && BorrowSide(e, amount, price, ts).Ok?
    ensures var e' := BorrowSide(e, amount, price, ts).value;
            && e'.supply == e.supply && NonNegativeBooks(e'.books)
            && (if amount == 0 then e'.borrow == e.borrow
                else Stamp(e'.borrow) == ts && BorrowKept(e.borrow, e'.borrow))
            && (amount == 0 ==> e'.books.word == e.books.word) && SameRange(e.books.word, e'.books.word, 0, 128)
  {
    hide Field, FromBig, BorrowLeg, BookedBorrow, Pow2, BorrowKept, Bit;
    if amount != 0 {
      BorrowLegWritten(e.borrow, amount, price, ts);
      var leg := BorrowLeg(e.borrow, amount, price, ts).value;
      BooksStayNonNegative(e.books, leg);
      BorrowTotalWritten(e.books, leg);
    }
  }

  // ----- runs -----

  datatype Call = Call(supplyAmount: int, borrowAmount: int, ts: nat, pulled: int)

  ghost predicate Operates(tok: Token, c: Call, tok': Token) {
    Operate(tok, c.supplyAmount, c.borrowAmount, c.ts, c.pulled) == Ok(tok')
  }

  /** A run of successful operations. */
  datatype Run = Start(token: Token) | Then(before: Run, call: Call, token: Token) {
    ghost predicate Valid() {
      match this
      case Start(_) => true
      case Then(before, call, token) => before.Valid() && Operates(before.token, call, token)
    }

    ghost function First(): Token {
      match this
      case Start(t) => t
      case Then(before, _, _) => before.First()
    }

    /** Timestamps start at or after the supply's clock, never go back and fit their field. */
    ghost predicate ClockRuns() {
      match this
      case Start(_) => true
      case Then(before, call, _) =>
        && before.ClockRuns() && call.ts < Pow2(CLOCK_BITS)
        && (match before
            case Start(t) => Stamp(t.supply) <= call.ts
            case Then(_, earlier, _) => earlier.ts <= call.ts)
    }

    /** Every call finds positive exchange prices. */
    ghost predicate Positive() {
      match this
      case Start(_) => true
      case Then(before, call, _) => before.Positive() && PricesPositive(before.token.config, call.ts)
    }

    ghost predicate From(ts: int) {
      match this
      case Start(_) => true
      case Then(before, call, _) => before.From(ts) && ts <= call.ts
    }

    ghost predicate AllAt(ts: int) {
      match this
      case Start(_) => true
      case Then(before, call, _) => before.AllAt(ts) && call.ts == ts
    }

    /** Everything put in less everything taken out. */
    ghost function NetIn(): int {
      match this
      case Start(_) => 0
      case Then(before, call, _) => before.NetIn() + call.supplyAmount - call.borrowAmount
    }
  }

  lemma OperatesEffect(tok: Token, c: Call, tok': Token)
    requires Operates(tok, c, tok') && PricesPositive(tok.config, c.ts) && c.ts < Pow2(CLOCK_BITS)
    ensures ExchangePrices(tok.config, c.ts).Ok?
    ensures var p := ExchangePrices(tok.config, c.ts).value;
            && ExchangePrices(tok'.config, c.ts) == Ok(p) && SameFee(tok, tok', c.ts)
            && Value(tok', p) <= Value(tok, p) + (c.supplyAmount - c.borrowAmount) * PRICE_UNIT
            && LimitStep(tok, tok', c.ts)
  {
    hide Operate, PricesPositive, ExchangePrices, Value, SameFee, LimitStep, Pow2;
    OperateEffect(tok, c.supplyAmount, c.borrowAmount, c.ts, c.pulled);
  }

  /** Over any run with a clock that does not go back, the stored withdrawal limit never exceeds
      the stored supply. */
  lemma {:induction false} RunKeepsLimit(run: Run)
    requires run.Valid() && run.ClockRuns() && run.Positive() && LimitWithinSupply(run.First().supply)
    ensures LimitWithinSupply(run.token.supply)
    ensures run.Then? ==> Stamp(run.token.supply) <= run.call.ts
  {
    hide Operates, ExchangePrices, PricesPositive, Value, SameFee, LimitWithinSupply, Pow2, Field;
    if run.Then? {
      RunKeepsLimit(run.before);
      OperatesEffect(run.before.token, run.call, run.token);
    }
  }

  /** A fee of at most 100 % at the start makes the prices of every later call positive. */
  lemma {:induction false} RunStaysPositive(run: Run)
    requires run.Valid() && run.ClockRuns() && run.From(ConfigStamp(run.First().config))
    requires Fee(run.First().config) <= FOUR
    ensures run.Positive() && Fee(run.token.config) <= FOUR
    ensures ConfigStamp(run.token.config) <= if run.Then? then run.call.ts else ConfigStamp(run.First().config)
  {
    hide Operates, ExchangePrices, Value, LimitStep, Pow2, Field;
    if run.Then? {
      RunStaysPositive(run.before);
      var cfg, ts := run.before.token.config, run.call.ts;
      if ExchangePrices(cfg, ts).Ok? { PricesGrow(cfg, ts); }
      OperatesEffect(run.before.token, run.call, run.token);
    }
  }

  /** At one timestamp, over any run, exchange prices stay what they were and the user's stored
      position gains no more than the net amount put in. */
  lemma {:induction false} RunGainsNothing(run: Run, ts: nat, p: Prices)
    requires run.Valid() && run.AllAt(ts) && ts < Pow2(CLOCK_BITS)
    requires ExchangePrices(run.First().config, ts) == Ok(p) && 0 < p.supply && 0 < p.borrow
    ensures ExchangePrices(run.token.config, ts) == Ok(p)
    ensures Value(run.token, p) <= Value(run.First(), p) + run.NetIn() * PRICE_UNIT
  {
    hide Operates, ExchangePrices, Value, SameFee, LimitStep, Pow2;
    if run.Then? {
      RunGainsNothing(run.before, ts, p);
      OperatesEffect(run.before.token, run.call, run.token);
    }
  }
}
