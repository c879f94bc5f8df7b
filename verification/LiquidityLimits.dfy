/** What the layer's rates and limits mean: rate lines between their ends, prices and limits that
    move one way with time, and operations that stay within the limits they read. */
module LiquidityLimits {
  import opened Arith
  import opened Bits
  import opened BigNumber
  import opened Words
  import opened Liquidity
  import opened LiquidityWords
  import opened LiquidityRuns

  // ----- rates and ratios -----

  /** Between its two points a rate line stays between their rates, so it is never negative there,
      and it starts exactly at the first. */
  lemma RateLineBetween(util: int, y1: nat, y2: nat, x1: int, x2: int)
    requires x1 <= util <= x2 && x1 < x2
    ensures RateLine(util, y1, y2, x1, x2).Ok?
    ensures Min(y1, y2) <= RateLine(util, y1, y2, x1, x2).value <= Max(y1, y2)
    ensures RateLine(x1, y1, y2, x1, x2) == Ok(y1)
  {
    hide TruncDiv;
    var rise, run, part := (y2 - y1) * TWELVE, x2 - x1, util - x1;
    var slope := TruncDiv(rise, run);
    TruncDivBounds(rise, run);
    SlopeWithin(rise, run, slope, part);
    LineFrom(slope, util, x1, y1);
    LineFrom(slope, x1, x1, y1);
    QuotientAtLeast(y1 * TWELVE + slope * part, TWELVE, Min(y1, y2));
    QuotientAtMost(y1 * TWELVE + slope * part, TWELVE, Max(y1, y2));
  }

  lemma LineFrom(slope: int, util: int, x1: int, y1: int)
    ensures slope * util + (y1 * TWELVE - slope * x1) == y1 * TWELVE + slope * (util - x1)
  {
  }

  /** A slope rounded toward zero rises at most the rise, in its direction. */
  lemma SlopeWithin(rise: int, run: int, slope: int, part: int)
    requires 0 < run && 0 <= part <= run
    requires 0 <= rise ==> slope == rise / run
    requires rise <= 0 ==> slope == -((-rise) / run)
    ensures 0 <= rise ==> 0 <= slope * part <= rise
    ensures rise <= 0 ==> rise <= slope * part <= 0
  {
    if 0 <= rise { PartOfRise(rise, run, part); }
    if rise <= 0 {
      PartOfRise(-rise, run, part);
      assert slope * part == -((-slope) * part);
    }
  }

  lemma PartOfRise(rise: nat, run: int, part: int)
    requires 0 < run && 0 <= part <= run
    ensures 0 <= (rise / run) * part <= rise
  {
    QuotientBounds(rise, run);
    var q := rise / run;
    MulMono2(0, q, 0, part);
    MulMono(part, run, q);
  }

  /** A packed ratio says which total is the smaller and, in units of 1/10000, its share of the
      larger one. */
  lemma PackedRatioDecodes(free: nat, with: nat)
    requires free != with
    ensures PackedRatio(free, with).Ok?
    ensures var r := PackedRatio(free, with).value;
            && (r % 2 == 1 <==> with < free)
            && r / 2 * Max(free, with) <= Min(free, with) * FOUR < (r / 2 + 1) * Max(free, with)
  {
    QuotientBounds(Min(free, with) * FOUR, Max(free, with));
  }

  // ----- time -----

  /** A configuration with a fee of 10001, full utilization, all of it bearing interest at 100 %. */
  ghost function OverFeed(): nat {
    WriteBack(Shl(10_001, 16), CONFIG_MASK, ConfigSlots(FOUR, FOUR, 0, Prices(PRICE_UNIT, PRICE_UNIT), 0, 0))
  }

  lemma OverFeedFields()
    ensures Fee(OverFeed()) == 10_001 && Rate(OverFeed()) == FOUR && Utilization(OverFeed()) == FOUR
    ensures ConfigStamp(OverFeed()) == 0 && SupplyRatio(OverFeed()) == 0 && BorrowRatio(OverFeed()) == 0
    ensures SupplyPrice(OverFeed()) == PRICE_UNIT && BorrowPrice(OverFeed()) == PRICE_UNIT
  {
    hide Field, Bit, Pow2, WriteBack, Shl;
    FieldWidths();
    Powers();
    forall k: nat | k < 14 ensures Bit(Shl(10_001, 16), 16 + k) == Bit(10_001, k) { BitShl(10_001, 16, 16 + k); }
    FieldIs(Shl(10_001, 16), 16, 14, 10_001);
    ConfigWritten(Shl(10_001, 16), FOUR, FOUR, 0, Prices(PRICE_UNIT, PRICE_UNIT), 0, 0);
  }

  /** A fee above 100 % lowers the supply price: here by a ten-thousandth a year. */
  lemma FeeAboveAllLowersPrice()
    ensures ExchangePrices(OverFeed(), 0) == Ok(Prices(PRICE_UNIT, PRICE_UNIT))
    ensures ExchangePrices(OverFeed(), SECONDS_PER_YEAR) == Ok(Prices(999_900_000_000, 2 * PRICE_UNIT))
  {
    hide Field, OverFeed;
    OverFeedFields();
  }

  /** The amount that must stay supplied shrinks as time passes, down to the supply less one full
      expansion, and never below it. */
  lemma WithdrawalLimitExpands(word: nat, user: nat, ts: int, ts': int)
    requires Stamp(word) <= ts <= ts' && 0 < StoredLimit(word)
    requires WithdrawalLimitBefore(word, user, ts).Ok?
    ensures WithdrawalLimitBefore(word, user, ts').Ok?
    ensures user - ExpandPercent(word) * user / FOUR
         <= WithdrawalLimitBefore(word, user, ts').value <= WithdrawalLimitBefore(word, user, ts).value
  {
    hide Field, FromBig;
    MulMono2(0, ExpandPercent(word), 0, user);
    QuotientBounds(ExpandPercent(word) * user, FOUR);
    var most := ExpandPercent(word) * user / FOUR;
    QuotientOfMore(most, ts - Stamp(word), ts' - Stamp(word), ExpandDuration(word));
  }

  /** The borrow limit grows as time passes, within the pool's hard limit once above its base. */
  lemma BorrowLimitExpands(word: nat, user: nat, ts: int, ts': int)
    requires Stamp(word) <= ts <= ts' && BorrowLimitBefore(word, user, ts).Ok?
    ensures BorrowLimitBefore(word, user, ts').Ok?
    ensures BorrowLimitBefore(word, user, ts).value <= BorrowLimitBefore(word, user, ts').value
         <= Max(BaseLimit(word), MaxLimit(word))
  {
    hide Field, FromBig;
    var expansion := user * ExpandPercent(word) / FOUR;
    MulMono2(0, user, 0, ExpandPercent(word));
    QuotientBounds(user * ExpandPercent(word), FOUR);
    if BaseLimit(word) <= user + expansion {
      QuotientOfMore(expansion, ts - Stamp(word), ts' - Stamp(word), ExpandDuration(word));
    }
  }

  // ----- operations within their limits -----

  /** A withdrawal leaves at least the amount that had to stay, so once a limit is stored no single
      withdrawal takes more than one full expansion of the supply. */
  lemma WithdrawalRespectsLimit(word: nat, amount: int, price: int, ts: nat)
    requires amount < 0 && Stamp(word) <= ts && PlanSupply(word, amount, price, ts).Ok?
    ensures WithdrawalLimitBefore(word, Amount(word), ts).Ok?
    ensures WithdrawalLimitBefore(word, Amount(word), ts).value <= PlanSupply(word, amount, price, ts).value.move.user
    ensures 0 < StoredLimit(word) ==>
              Amount(word) - PlanSupply(word, amount, price, ts).value.move.user
              <= ExpandPercent(word) * Amount(word) / FOUR
  {
    hide Field, FromBig, Decayed, DecayAfter, WithdrawalLimitBefore, SupplyMove, WithdrawalLimitAfter;
    if 0 < StoredLimit(word) { WithdrawalLimitExpands(word, Amount(word), ts, ts); }
  }

  /** A borrow leaves a debt, before rounding, within the limit and so within the larger of the base
      and the hard limit. */
  lemma BorrowRespectsLimit(word: nat, amount: int, price: int, ts: nat)
    requires 0 < amount && Stamp(word) <= ts && BorrowLeg(word, amount, price, ts).Ok?
    ensures BorrowMove(word, Amount(word), amount, price).Ok?
    ensures BorrowMove(word, Amount(word), amount, price).value.user <= Max(BaseLimit(word), MaxLimit(word))
  {
    hide Field, FromBig, BorrowLimitBefore, BorrowLimitAfter, BorrowMove, StoredBig, WriteBack;
    BorrowLimitExpands(word, Amount(word), ts, ts);
  }

  /** A decaying part never grows by decaying, and keeps at most its checkpoints. */
  lemma DecayShrinks(word: nat, ts: nat)
    requires Stamp(word) <= ts && Decayed(word, ts).Ok?
    ensures Decayed(word, ts).value.amount <= DecayAmount(word)
    ensures Decayed(word, ts).value.checkpoints <= DecayCheckpoints(word)
  {
    hide Field, FromBig;
    var amount, left := DecayAmount(word), DecayCheckpoints(word);
    var passed := ts * 10 / DECAY_CHECKPOINT_TENTHS - Stamp(word) * 10 / DECAY_CHECKPOINT_TENTHS;
    if amount != 0 && passed < left {
      MulMono2(0, amount, 0, passed);
      QuotientBounds(amount * passed, left);
    }
  }

  // ----- no negative intermediate -----

  lemma BorrowLimitsNonNegative(word: nat, user: nat, ts: int)
    requires Stamp(word) <= ts && BorrowLimitBefore(word, user, ts).Ok?
    ensures 0 <= BorrowLimitBefore(word, user, ts).value
  {
    hide Field, FromBig;
    var expansion := user * ExpandPercent(word) / FOUR;
    MulMono2(0, user, 0, ExpandPercent(word));
    QuotientBounds(user * ExpandPercent(word), FOUR);
    if BaseLimit(word) <= user + expansion {
      MulMono2(0, expansion, 0, ts - Stamp(word));
      QuotientBounds(expansion * (ts - Stamp(word)), ExpandDuration(word));
    }
  }

  lemma BorrowLimitAfterNonNegative(word: nat, user: nat, limit: nat)
    ensures 0 <= BorrowLimitAfter(word, user, limit)
  {
    hide Field, FromBig;
    MulMono2(0, user, 0, ExpandPercent(word));
    QuotientBounds(user * ExpandPercent(word), FOUR);
  }

  lemma SupplyMoveNonNegative(word: nat, user: nat, amount: int, price: int)
    requires 0 < price && SupplyMove(word, user, amount, price).Ok?
    ensures 0 <= SupplyMove(word, user, amount, price).value.user
  {
    hide Field;
    QuotientBounds(amount * PRICE_UNIT, price);
  }

  lemma BorrowMoveNonNegative(word: nat, user: nat, amount: int, price: int)
    requires 0 < price && BorrowMove(word, user, amount, price).Ok?
    ensures 0 <= BorrowMove(word, user, amount, price).value.user
  {
    hide Field, TruncDiv;
    if 0 < amount { QuotientAtMost(-(amount * PRICE_UNIT), price, 0); }
  }

  lemma StoredNeverUnderflows(n: nat, up: bool)
    ensures StoredBig(n, up) != Err(Underflow)
  {
    hide Pow2, BitLength, Shr, Shl;
  }

  lemma StoreSupplyNeverUnderflows(word: nat, plan: SupplyPlan, ts: nat)
    requires 0 <= plan.move.user
    ensures StoreSupply(word, plan, ts) != Err(Underflow)
  {
    hide Field, Pow2, BitLength, Shr, Shl, WriteBack;
  }

  lemma PlanNeverUnderflows(word: nat, amount: int, price: int, ts: nat)
    requires 0 < price
    ensures PlanSupply(word, amount, price, ts) != Err(Underflow)
    ensures PlanSupply(word, amount, price, ts).Ok? ==> 0 <= PlanSupply(word, amount, price, ts).value.move.user
  {
    hide Field, FromBig, WithdrawalLimitAfter, DecayAfter;
    if SupplyMove(word, Amount(word), amount, price).Ok? {
      SupplyMoveNonNegative(word, Amount(word), amount, price);
    }
  }

  lemma BookedNeverUnderflows(b: Books, leg: Leg)
    requires NonNegativeBooks(b)
    ensures BookedSupply(b, leg) != Err(Underflow) && BookedBorrow(b, leg) != Err(Underflow)
  {
    hide Pow2, BitLength, Shr, Shl, WriteBack;
  }

  lemma SupplySideNeverUnderflows(tok: Token, amount: int, price: int, ts: nat)
    requires 0 < price
    ensures SupplySide(tok, amount, price, ts) != Err(Underflow)
  {
    hide Field, FromBig, PlanSupply, StoreSupply, BookedSupply;
    PlanNeverUnderflows(tok.supply, amount, price, ts);
    var plan := PlanSupply(tok.supply, amount, price, ts);
    if plan.Ok? {
      StoreSupplyNeverUnderflows(tok.supply, plan.value, ts);
      var leg := StoreSupply(tok.supply, plan.value, ts);
      if leg.Ok? { BookedNeverUnderflows(OpenBooks(tok.totals), leg.value); }
    }
  }

  lemma BorrowLegNeverUnderflows(word: nat, amount: int, price: int, ts: nat)
    requires 0 < price && Stamp(word) <= ts
    ensures BorrowLeg(word, amount, price, ts) != Err(Underflow)
  {
    hide Field, FromBig, StoredBig, WriteBack, BorrowLimitAfter;
    var user := Amount(word);
    var limit, m := BorrowLimitBefore(word, user, ts), BorrowMove(word, user, amount, price);
    if limit.Ok? && m.Ok? {
      BorrowLimitsNonNegative(word, user, ts);
      BorrowMoveNonNegative(word, user, amount, price);
      BorrowLimitAfterNonNegative(word, m.value.user, limit.value);
      StoredNeverUnderflows(m.value.user, true);
      StoredNeverUnderflows(BorrowLimitAfter(word, m.value.user, limit.value), false);
    }
  }

  lemma BorrowSideNeverUnderflows(e: Entries, amount: int, price: int, ts: nat)
    requires 0 < price && Stamp(e.borrow) <= ts && NonNegativeBooks(e.books)
    ensures BorrowSide(e, amount, price, ts) != Err(Underflow)
  {
    hide Field, FromBig, BorrowLeg, BookedBorrow;
    BorrowLegNeverUnderflows(e.borrow, amount, price, ts);
    var leg := BorrowLeg(e.borrow, amount, price, ts);
    if leg.Ok? { BookedNeverUnderflows(e.books, leg.value); }
  }

  lemma LevelsNonNegative(b: Books, p: Prices, deposit: bool, borrow: bool)
    requires NonNegativeBooks(b) && 0 < p.supply && 0 < p.borrow
    ensures LevelsOf(b, p, deposit, borrow) != Err(Underflow)
    ensures LevelsOf(b, p, deposit, borrow).Ok? ==>
              var l := LevelsOf(b, p, deposit, borrow).value;
              0 <= l.supply && 0 <= l.borrow && 0 <= l.supplyRatio && 0 <= l.borrowRatio && 0 <= UtilizationOf(l)
  {
    hide PackedRatio;
    MulMono2(0, b.rawSupply, 0, p.supply);
    MulMono2(0, b.rawBorrow, 0, p.borrow);
    var supplyWith, borrowWith := b.rawSupply * p.supply / PRICE_UNIT, b.rawBorrow * p.borrow / PRICE_UNIT;
    PackedRatioNonNegative(b.freeSupply, supplyWith);
    PackedRatioNonNegative(b.freeBorrow, borrowWith);
    var supply, debt := b.freeSupply + supplyWith, b.freeBorrow + borrowWith;
    if 0 < supply { QuotientBounds(debt * FOUR, supply); }
  }

  lemma PackedRatioNonNegative(free: nat, with: nat)
    ensures PackedRatio(free, with).Ok? && 0 <= PackedRatio(free, with).value
  {
    RatioFits(free, with);
  }

  lemma BorrowRateNeverUnderflows(rateData: nat, util: int)
    ensures BorrowRate(rateData, util) != Err(Underflow)
  {
    hide Field, TruncDiv;
  }

  lemma ConfigNeverUnderflows(cfg: nat, configs2: nat, rateData: nat, b: Books, p: Prices,
                              deposit: bool, borrow: bool, ts: nat)
    requires NonNegativeBooks(b) && 0 < p.supply && 0 < p.borrow
    ensures ConfigAfter(cfg, configs2, rateData, b, p, deposit, borrow, ts) != Err(Underflow)
  {
    hide Field, WriteBack, BorrowRate, LevelsOf, UtilizationOf, MustWrite, MaxUtilization;
    LevelsNonNegative(b, p, deposit, borrow);
    var l := LevelsOf(b, p, deposit, borrow);
    if l.Ok? { BorrowRateNeverUnderflows(rateData, UtilizationOf(l.value)); }
  }

  /** With positive prices and recorded times not in the future no amount, limit, total, ratio or
      price an operation computes is negative: the model's guard against one never fires. */
  lemma OperateNeverUnderflows(tok: Token, supplyAmount: int, borrowAmount: int, ts: nat, pulled: int)
    requires PricesPositive(tok.config, ts) && Stamp(tok.borrow) <= ts
    ensures Operate(tok, supplyAmount, borrowAmount, ts, pulled) != Err(Underflow)
  {
    hide Field, Shr, SupplySide, BorrowSide, ConfigAfter, SupplyRate;
    var p := ExchangePrices(tok.config, ts);
    if p.Ok? {
      SupplySideNeverUnderflows(tok, supplyAmount, p.value.supply, ts);
      var e1 := SupplySide(tok, supplyAmount, p.value.supply, ts);
      if e1.Ok? {
        EntriesNonNegative(tok, supplyAmount, p.value.supply, ts);
        BorrowSideNeverUnderflows(e1.value, borrowAmount, p.value.borrow, ts);
        var e := BorrowSide(e1.value, borrowAmount, p.value.borrow, ts);
        if e.Ok? {
          BorrowEntriesNonNegative(e1.value, borrowAmount, p.value.borrow, ts);
          ConfigNeverUnderflows(tok.config, tok.configs2, tok.rateData, e.value.books, p.value,
                                supplyAmount > 0, borrowAmount > 0, ts);
        }
      }
    }
  }

  lemma EntriesNonNegative(tok: Token, amount: int, price: int, ts: nat)
    requires SupplySide(tok, amount, price, ts).Ok?
    ensures NonNegativeBooks(SupplySide(tok, amount, price, ts).value.books)
    ensures SupplySide(tok, amount, price, ts).value.borrow == tok.borrow
  {
    hide Field, FromBig, SupplyLeg, BookedSupply;
    if amount != 0 {
      BooksStayNonNegative(OpenBooks(tok.totals), SupplyLeg(tok.supply, amount, price, ts).value);
    }
  }

  lemma BorrowEntriesNonNegative(e: Entries, amount: int, price: int, ts: nat)
    requires NonNegativeBooks(e.books) && BorrowSide(e, amount, price, ts).Ok?
    ensures NonNegativeBooks(BorrowSide(e, amount, price, ts).value.books)
  {
    hide Field, FromBig, BorrowLeg, BookedBorrow;
    if amount != 0 { BooksStayNonNegative(e.books, BorrowLeg(e.borrow, amount, price, ts).value); }
  }
}
