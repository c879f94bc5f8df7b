/** Whole swaps and runs of swaps of a Fluid pool. */
module FluidRuns {
  import opened Arith
  import opened Bits
  import opened BigNumber
  import opened Liquidity
  import opened LiquidityWords
  import Operations = LiquidityRuns
  import opened FluidPool
  import opened FluidQuotes
  import opened FluidWords

  // ----- one swap: the product on each leg -----

  lemma FeeFits(vars2: nat)
    ensures FeeWord(vars2) < SIX / 2 && CutPercent(vars2) * FeeWord(vars2) <= EIGHT / 2
  {
    hide Field, Pow2;
    FieldBound(vars2, 2, 17);
    FieldBound(vars2, 19, 7);
    FeeWidths();
    MulMono2(0, CutPercent(vars2), 0, FeeWord(vars2));
    MulMono2(CutPercent(vars2), 127, FeeWord(vars2), 131_071);
  }

  lemma FeeWidths()
    ensures Pow2(7) == 128 && Pow2(17) == 131_072
  {
    Pow2Add(14, 3);
    Pow2Add(7, 7);
    assert Pow2(3) == 8;
    assert Pow2(7) == 128;
  }

  /** Which side a pool uses, both of its switches being off only when it is not initialized. */
  lemma SomeSide(vars2: nat)
    requires Field(vars2, 0, 2) != 0
    ensures SmartCol(vars2) || SmartDebt(vars2)
  {
    hide Field, Bit, Pow2;
    Sided(vars2);
    if !SmartCol(vars2) && !SmartDebt(vars2) {
      forall k: nat | k < 2 ensures Bit(vars2, 0 + k) == Bit(0, k) { BitZero(k); }
      FieldIs(vars2, 0, 2, 0);
    }
  }

  lemma Sided(vars2: nat)
    ensures SmartCol(vars2) == Bit(vars2, 0) && SmartDebt(vars2) == Bit(vars2, 1)
  {
    hide Field, Pow2;
    BitField(vars2, 0, 1, 0);
    BitField(vars2, 1, 1, 0);
    OneBit(vars2, 0);
    OneBit(vars2, 1);
  }

  lemma OneBit(v: nat, lo: nat)
    ensures Field(v, lo, 1) < 2 && Bit(Field(v, lo, 1), 0) == (Field(v, lo, 1) == 1)
  {
    FieldBound(v, lo, 1);
    assert Pow2(1) == 2;
  }

  /** Both tokens' exchange prices at ts are positive. */
  ghost predicate PositivePool(pool: Pool, ts: int) {
    Operations.PricesPositive(pool.token0.config, ts) && Operations.PricesPositive(pool.token1.config, ts)
  }

  /** The parts of a priced swap: sides with no negative reserve, and a split that adds up. */
  lemma PricedSides(pool: Pool, zeroForOne: bool, amountIn: int, ts: nat)
    requires SaneRange(pool.vars2) && PositivePool(pool, ts)
    requires Price(pool, zeroForOne, amountIn, ts).Ok?
    ensures var r := Price(pool, zeroForOne, amountIn, ts).value;
            && NonNegativeSide(r.sides.col) && NonNegativeSide(r.sides.debt)
            && AdmittedAmount(pool, zeroForOne, amountIn).Ok?
            && 0 <= r.split.col && 0 <= r.split.debt
            && r.split.col + r.split.debt == AdmittedAmount(pool, zeroForOne, amountIn).value
            && (0 < r.split.col ==> 0 < r.sides.col.imagIn)
            && (0 < r.split.debt ==> 0 < r.sides.debt.imagIn)
            && (SmartCol(pool.vars2) && SmartDebt(pool.vars2) ==>
                  (0 < r.split.col ==> 0 < r.sides.col.imagOut) && (0 < r.split.debt ==> 0 < r.sides.debt.imagOut))
            && (!(SmartCol(pool.vars2) && SmartDebt(pool.vars2)) ==> r.split.col == 0 || r.split.debt == 0)
  {
    hide Field, FromBig, RangesOf, ExchangePrices, SidesOf, SplitOf, LegOut, PriceAfter, AfterCut, Shr,
         ProperRange, HasWidth, NonNegativeSide;
    var g := RangesOf(pool, ts).value;
    var p0, p1 := ExchangePrices(pool.token0.config, ts).value, ExchangePrices(pool.token1.config, ts).value;
    RangesOrdered(pool, ts);
    SidesNonNegative(pool, g, p0, p1, zeroForOne);
    EmptySides(pool, g, p0, p1, zeroForOne);
    var s := SidesOf(pool, g, p0, p1, zeroForOne).value;
    SomeSide(pool.vars2);
    SplitUsesReserves(pool.vars2, s, AdmittedAmount(pool, zeroForOne, amountIn).value);
  }

  lemma EmptySides(pool: Pool, g: Ranges, p0: Prices, p1: Prices, zeroForOne: bool)
    requires SidesOf(pool, g, p0, p1, zeroForOne).Ok?
    ensures var s := SidesOf(pool, g, p0, p1, zeroForOne).value;
            && (!SmartCol(pool.vars2) ==> s.col == Side(0, 0, 0, 0))
            && (!SmartDebt(pool.vars2) ==> s.debt == Side(0, 0, 0, 0))
  {
    hide Field, ColReserves, DebtReserves;
  }

  lemma SplitUsesReserves(vars2: nat, s: Sides, amount: nat)
    requires 0 < amount && NonNegativeSide(s.col) && NonNegativeSide(s.debt) && SplitOf(vars2, s, amount).Ok?
    requires SmartCol(vars2) || SmartDebt(vars2)
    requires !SmartCol(vars2) ==> s.col == Side(0, 0, 0, 0)
    requires !SmartDebt(vars2) ==> s.debt == Side(0, 0, 0, 0)
    ensures var r := SplitOf(vars2, s, amount).value;
            && 0 <= r.col && 0 <= r.debt && r.col + r.debt == amount
            && (0 < r.col ==> 0 < s.col.imagIn) && (0 < r.debt ==> 0 < s.debt.imagIn)
            && (SmartCol(vars2) && SmartDebt(vars2) ==>
                  (0 < r.col ==> 0 < s.col.imagOut) && (0 < r.debt ==> 0 < s.debt.imagOut))
            && (!(SmartCol(vars2) && SmartDebt(vars2)) ==> r.col == 0 || r.debt == 0)
  {
    hide Field, SwapRouting;
    if SmartCol(vars2) && SmartDebt(vars2) {
      RoutedLegsPositive(amount, s.col.imagOut, s.col.imagIn, s.debt.imagOut, s.debt.imagIn);
    }
  }

  lemma LegOutNonNegative(s: Side, amount: nat, feeWord: nat, center: nat, zeroForOne: bool)
    requires feeWord <= SIX && NonNegativeSide(s) && LegOut(s, amount, feeWord, center, zeroForOne).Ok?
    requires 0 < amount ==> 0 < s.imagIn
    ensures 0 <= LegOut(s, amount, feeWord, center, zeroForOne).value
  {
    hide AfterFee, AmountOut;
    if 0 < amount {
      CreditCoversPriced(amount, feeWord, 0);
      var a := AfterFee(amount, feeWord);
      OutKeepsProduct(a, a, s.imagIn, s.imagOut);
    }
  }

  lemma AfterCutNonNegative(amount: nat, feeWord: nat, cut: nat)
    requires cut * feeWord <= EIGHT
    ensures 0 <= AfterCut(amount, feeWord, cut)
  {
    MulMono2(0, amount, 0, EIGHT - cut * feeWord);
    QuotientBounds(amount * (EIGHT - cut * feeWord), EIGHT);
  }

  /** Nothing a swap credits or pays out is negative. */
  lemma PricedNonNegative(pool: Pool, zeroForOne: bool, amountIn: int, ts: nat)
    requires SaneRange(pool.vars2) && PositivePool(pool, ts)
    requires Price(pool, zeroForOne, amountIn, ts).Ok?
    ensures var r := Price(pool, zeroForOne, amountIn, ts).value;
            0 <= r.outs.col && 0 <= r.outs.debt && 0 <= r.credited.col && 0 <= r.credited.debt
  {
    hide Field, FromBig, RangesOf, ExchangePrices, SidesOf, SplitOf, LegOut, PriceAfter, AfterCut, Shr,
         SaneRange, PositivePool, NonNegativeSide, AdmittedAmount, SmartCol, SmartDebt;
    PricedSides(pool, zeroForOne, amountIn, ts);
    FeeFits(pool.vars2);
    var r := Price(pool, zeroForOne, amountIn, ts).value;
    LegOutNonNegative(r.sides.col, r.split.col, FeeWord(pool.vars2), r.center, zeroForOne);
    LegOutNonNegative(r.sides.debt, r.split.debt, FeeWord(pool.vars2), r.center, zeroForOne);
    AfterCutNonNegative(r.split.col, FeeWord(pool.vars2), CutPercent(pool.vars2));
    AfterCutNonNegative(r.split.debt, FeeWord(pool.vars2), CutPercent(pool.vars2));
  }

  /** The side that sets the price after a swap has something left to pay out. */
  lemma PositivePrice(s: Side, credited: int, out: int, zeroForOne: bool)
    requires PriceAfter(s, credited, out, zeroForOne).Ok? && 0 < PriceAfter(s, credited, out, zeroForOne).value
    requires 0 < s.imagIn && 0 <= credited
    ensures s.imagOut - out != 0
  {
  }

  /** On each leg a successful swap uses, the product of the imaginary reserves does not fall, and
      the output is below the imaginary reserve and within the real one. */
  lemma SwapKeepsProducts(pool: Pool, zeroForOne: bool, amountIn: int, ts: nat)
    requires SaneRange(pool.vars2) && CutWithinFee(FeeWord(pool.vars2), CutPercent(pool.vars2))
    requires PositivePool(pool, ts) && SwapIn(pool, zeroForOne, amountIn, ts).Ok?
    ensures Price(pool, zeroForOne, amountIn, ts).Ok?
    ensures var r := Price(pool, zeroForOne, amountIn, ts).value;
            && (0 < r.split.col ==> LegKeepsProduct(r.sides.col, r.credited.col, r.outs.col))
            && (0 < r.split.debt ==> LegKeepsProduct(r.sides.debt, r.credited.debt, r.outs.debt))
            && (0 < r.split.col || 0 < r.split.debt)
  {
    hide Field, FromBig, RangesOf, ExchangePrices, SidesOf, SplitOf, LegOut, PriceAfter, AfterCut, Shr, Units, Settle,
         SaneRange, PositivePool, NonNegativeSide, LegKeepsProduct, SmartCol, SmartDebt, Recorded;
    PricedSides(pool, zeroForOne, amountIn, ts);
    PricedNonNegative(pool, zeroForOne, amountIn, ts);
    FeeFits(pool.vars2);
    var fee, cut := FeeWord(pool.vars2), CutPercent(pool.vars2);
    var r := Price(pool, zeroForOne, amountIn, ts).value;
    UsedOutputs(pool, zeroForOne, amountIn, ts);
    if 0 < r.split.col { LegWithin(r.sides.col, r.split.col, fee, cut, r.center, zeroForOne); }
    if 0 < r.split.debt { LegWithin(r.sides.debt, r.split.debt, fee, cut, r.center, zeroForOne); }
  }

  lemma RecordedPositive(vars: nat, center: nat, price: int, ts: nat)
    requires Recorded(vars, center, price, ts).Ok?
    ensures 0 < price
  {
    hide Field, FromBig, ToBig, Words.WriteBack;
  }

  /** The output reserve of every leg used is positive: of a single leg because its price is. */
  lemma UsedOutputs(pool: Pool, zeroForOne: bool, amountIn: int, ts: nat)
    requires SaneRange(pool.vars2) && PositivePool(pool, ts)
    requires SwapIn(pool, zeroForOne, amountIn, ts).Ok?
    ensures var r := Price(pool, zeroForOne, amountIn, ts).value;
            (0 < r.split.col ==> 0 < r.sides.col.imagOut) && (0 < r.split.debt ==> 0 < r.sides.debt.imagOut)
  {
    hide Field, FromBig, RangesOf, ExchangePrices, SidesOf, SplitOf, LegOut, PriceAfter, AfterCut, Shr, Units, Settle,
         SaneRange, PositivePool, SmartCol, SmartDebt, Recorded, AdmittedAmount;
    PricedSides(pool, zeroForOne, amountIn, ts);
    PricedNonNegative(pool, zeroForOne, amountIn, ts);
    FeeFits(pool.vars2);
    var fee, cut := FeeWord(pool.vars2), CutPercent(pool.vars2);
    var r := Price(pool, zeroForOne, amountIn, ts).value;
    RecordedPositive(pool.vars, r.center, r.price, ts);
    AdmittedBounds(pool, zeroForOne, amountIn);
    if !(SmartCol(pool.vars2) && SmartDebt(pool.vars2)) {
      if r.split.debt == 0 {
        CutOfNothing(r.split.debt, fee, cut);
        CreditPositive(r.split.col, fee, cut);
        PositivePrice(r.sides.col, r.credited.col, r.outs.col, zeroForOne);
        NothingFromNothing(r.sides.col, r.split.col, fee, r.center, zeroForOne);
      } else {
        CutOfNothing(r.split.col, fee, cut);
        PositivePrice(r.sides.debt, r.credited.debt, r.outs.debt, zeroForOne);
        NothingFromNothing(r.sides.debt, r.split.debt, fee, r.center, zeroForOne);
      }
    }
  }

  lemma AdmittedBounds(pool: Pool, zeroForOne: bool, amountIn: int)
    requires AdmittedAmount(pool, zeroForOne, amountIn).Ok?
    ensures SIX <= AdmittedAmount(pool, zeroForOne, amountIn).value && 0 < amountIn
  {
    hide Field, Shr;
  }

  lemma CutOfNothing(amount: int, fee: nat, cut: nat)
    requires amount == 0
    ensures AfterCut(amount, fee, cut) == 0
  {
    assert 0 * (EIGHT - cut * fee) == 0;
  }

  lemma CreditPositive(amount: nat, fee: nat, cut: nat)
    requires SIX <= amount && cut * fee <= EIGHT / 2
    ensures 0 < AfterCut(amount, fee, cut)
  {
    MulMono2(SIX, amount, EIGHT / 2, EIGHT - cut * fee);
    QuotientAtLeast(amount * (EIGHT - cut * fee), EIGHT, 1);
  }

  /** An empty reserve pays nothing. */
  lemma NothingFromNothing(s: Side, amount: nat, fee: nat, center: nat, zeroForOne: bool)
    requires fee <= SIX && 0 < s.imagIn && LegOut(s, amount, fee, center, zeroForOne).Ok?
    ensures s.imagOut == 0 ==> LegOut(s, amount, fee, center, zeroForOne).value == 0
  {
    hide AfterFee, Checked;
    if 0 < amount {
      CreditCoversPriced(amount, fee, 0);
      var a := AfterFee(amount, fee);
      if s.imagOut == 0 {
        assert a * s.imagOut == 0;
        QuotientUnique(0, s.imagIn + a, 0);
      }
    }
  }

  // ----- one swap: settlement -----

  /** The layer's cash for a token beyond what the pool's stored position is worth. */
  ghost function Surplus(tok: Token, p: Prices): int {
    tok.balance * PRICE_UNIT - Operations.Value(tok, p)
  }

  /** One token across a swap: prices hold, cash moves by exactly the given amount, the surplus does
      not fall, and a withdrawal limit within the supply stays within it. */
  ghost predicate TokenKept(tok: Token, tok': Token, ts: nat, cash: int) {
    && ExchangePrices(tok.config, ts).Ok?
    && ExchangePrices(tok'.config, ts) == ExchangePrices(tok.config, ts)
    && tok'.balance == tok.balance + cash
    && Surplus(tok, ExchangePrices(tok.config, ts).value) <= Surplus(tok', ExchangePrices(tok.config, ts).value)
    && Operations.LimitStep(tok, tok', ts) && Operations.SameFee(tok, tok', ts)
  }

  lemma DepositKept(tok: Token, col: int, debt: int, pulled: int, ts: nat)
    requires Operations.PricesPositive(tok.config, ts) && ts < Pow2(CLOCK_BITS)
    requires 0 <= col && 0 <= debt && col + debt <= pulled
    requires Operate(tok, col, -debt, ts, pulled).Ok?
    ensures TokenKept(tok, Operate(tok, col, -debt, ts, pulled).value, ts, pulled)
  {
    hide Operate, Operations.PricesPositive, Operations.Value, Operations.LimitStep, Operations.SameFee,
         ExchangePrices, Pow2;
    Operations.OperateEffect(tok, col, -debt, ts, pulled);
  }

  lemma PayoutKept(tok: Token, col: int, debt: int, ts: nat)
    requires 0 <= col && 0 <= debt && Operations.PricesPositive(tok.config, ts) && ts < Pow2(CLOCK_BITS)
    requires Operate(tok, -col, debt, ts, 0).Ok?
    ensures TokenKept(tok, Operate(tok, -col, debt, ts, 0).value, ts, -(col + debt))
    ensures col + debt <= tok.balance
  {
    hide Operate, Operations.PricesPositive, Operations.Value, Operations.LimitStep, Operations.SameFee,
         ExchangePrices, Pow2;
    Operations.OperateEffect(tok, -col, debt, ts, 0);
  }

  lemma ScaledNonNegative(s: Split, den: nat, num: nat)
    requires 0 <= s.col && 0 <= s.debt && Scaled(s, den, num).Ok?
    ensures 0 <= Scaled(s, den, num).value.col && 0 <= Scaled(s, den, num).value.debt
  {
    MulMono2(0, s.col, 0, den);
    MulMono2(0, s.debt, 0, den);
    QuotientBounds(s.col * den, num);
    QuotientBounds(s.debt * den, num);
  }

  datatype Call = Call(zeroForOne: bool, amountIn: int, ts: nat)

  ghost predicate Swaps(pool: Pool, c: Call, out: int, pool': Pool) {
    SwapIn(pool, c.zeroForOne, c.amountIn, c.ts) == Ok(Swapped(out, pool'))
  }

  /** The layer takes in exactly the amount given and pays exactly the output, and on neither token
      does the pool's position gain more than the layer's cash. */
  lemma SwapKeepsSurplus(pool: Pool, c: Call, out: int, pool': Pool)
    requires Swaps(pool, c, out, pool') && SaneRange(pool.vars2) && PositivePool(pool, c.ts)
    requires c.ts < Pow2(CLOCK_BITS)
    ensures 0 <= out
    ensures TokenKept(pool.token0, pool'.token0, c.ts, if c.zeroForOne then c.amountIn else -out)
    ensures TokenKept(pool.token1, pool'.token1, c.ts, if c.zeroForOne then -out else c.amountIn)
    ensures pool'.vars2 == pool.vars2
  {
    hide Price, Units, Recorded, Operate, SaneRange, Operations.PricesPositive, TokenKept, Pow2, Field, Utilization;
    var r := Price(pool, c.zeroForOne, c.amountIn, c.ts).value;
    PricedNonNegative(pool, c.zeroForOne, c.amountIn, c.ts);
    UnitsNonNegative(pool, r, c.zeroForOne);
    var (credit, o) := Units(pool, r, c.zeroForOne).value;
    var (tokenIn, tokenOut) := if c.zeroForOne then (pool.token0, pool.token1) else (pool.token1, pool.token0);
    DepositKept(tokenIn, credit.col, credit.debt, c.amountIn, c.ts);
    PayoutKept(tokenOut, o.col, o.debt, c.ts);
  }

  lemma UnitsNonNegative(pool: Pool, r: Priced, zeroForOne: bool)
    requires Units(pool, r, zeroForOne).Ok?
    requires 0 <= r.outs.col && 0 <= r.outs.debt && 0 <= r.credited.col && 0 <= r.credited.debt
    ensures var (c, o) := Units(pool, r, zeroForOne).value; 0 <= c.col && 0 <= c.debt && 0 <= o.col && 0 <= o.debt
  {
    hide Scaled;
    if zeroForOne {
      ScaledNonNegative(r.credited, pool.den0, pool.num0);
      ScaledNonNegative(r.outs, pool.den1, pool.num1);
    } else {
      ScaledNonNegative(r.credited, pool.den1, pool.num1);
      ScaledNonNegative(r.outs, pool.den0, pool.num0);
    }
  }

  /** The layer is given between the credited amount and one per cent more, the output token stays
      within its utilization cap, and the layer held what it paid. */
  lemma SettledWithinCaps(pool: Pool, zeroForOne: bool, amountIn: int, c: Split, o: Split, ts: nat)
    requires 0 <= o.col && 0 <= o.debt && Settle(pool, zeroForOne, amountIn, c, o, ts).Ok?
    ensures var s := Settle(pool, zeroForOne, amountIn, c, o, ts).value;
            var limit := UtilizationLimit(pool.vars2, zeroForOne);
            && c.col + c.debt <= amountIn && 100 * amountIn <= 101 * (c.col + c.debt)
            && (limit < THREE ==> Utilization(s.tokenOut.config) <= 10 * limit)
            && o.col + o.debt <= (if zeroForOne then pool.token1 else pool.token0).balance
  {
    hide Operate, Field;
    QuotientBounds((c.col + c.debt) * (FOUR + INPUT_EXCESS), FOUR);
    PaidWithinBalance(if zeroForOne then pool.token1 else pool.token0, o.col, o.debt, ts);
  }

  lemma PaidWithinBalance(tok: Token, col: int, debt: int, ts: nat)
    requires 0 <= col && 0 <= debt && Operate(tok, -col, debt, ts, 0).Ok?
    ensures col + debt <= tok.balance
  {
    hide Field, Shr, ExchangePrices, SupplySide, BorrowSide, ConfigAfter;
  }

  /** What a swap records. */
  lemma SwapRecords(pool: Pool, c: Call, out: int, pool': Pool)
    requires Swaps(pool, c, out, pool') && c.ts < Pow2(CLOCK_BITS)
    ensures Price(pool, c.zeroForOne, c.amountIn, c.ts).Ok?
    ensures var r := Price(pool, c.zeroForOne, c.amountIn, c.ts).value;
            && SwapStamp(pool'.vars) == c.ts && InBand(OlderPrice(pool'.vars), r.price)
            && RecordedFrame(pool.vars, pool'.vars, c.ts)
            && LastPrice(pool'.vars) == RoundedDown(r.price, PRICE_COEFFICIENT_SIZE)
            && (SwapStamp(pool.vars) == c.ts ==>
                  && OlderPrice(pool'.vars) == OlderPrice(pool.vars)
                  && StoredCenter(pool'.vars) == StoredCenter(pool.vars))
            && (SwapStamp(pool.vars) != c.ts ==>
                  && OlderPrice(pool'.vars) == LastPrice(pool.vars)
                  && StoredCenter(pool'.vars) == RoundedDown(r.center, PRICE_COEFFICIENT_SIZE))
  {
    hide Price, Units, Recorded, Settle, Field, FromBig, Pow2, RoundedDown, InBand, RecordedFrame;
    var r := Price(pool, c.zeroForOne, c.amountIn, c.ts).value;
    RecordedWritten(pool.vars, r.center, r.price, c.ts);
  }

  // ----- runs -----

  /** A run of successful swaps. */
  datatype Run = Start(pool: Pool) | Then(before: Run, call: Call, out: int, pool: Pool) {
    ghost predicate Valid() {
      match this
      case Start(_) => true
      case Then(before, call, out, pool) => before.Valid() && Swaps(before.pool, call, out, pool)
    }

    ghost function First(): Pool {
      match this
      case Start(p) => p
      case Then(before, _, _, _) => before.First()
    }

    /** The pool after the run's first swap. */
    ghost function AfterOne(): Pool {
      match this
      case Start(p) => p
      case Then(before, _, _, p) => if before.Start? then p else before.AfterOne()
    }

    ghost predicate AllAt(ts: int) {
      match this
      case Start(_) => true
      case Then(before, call, _, _) => before.AllAt(ts) && call.ts == ts
    }

    /** Timestamps start at or after both supplies' clocks, never go back and fit their field. */
    ghost predicate ClockRuns() {
      match this
      case Start(_) => true
      case Then(before, call, _, _) =>
        && before.ClockRuns() && call.ts < Pow2(CLOCK_BITS)
        && (match before
            case Start(p) => Stamp(p.token0.supply) <= call.ts && Stamp(p.token1.supply) <= call.ts
            case Then(_, earlier, _, _) => earlier.ts <= call.ts)
    }

    /** Every swap finds positive exchange prices. */
    ghost predicate Positive() {
      match this
      case Start(_) => true
      case Then(before, call, _, _) => before.Positive() && PositivePool(before.pool, call.ts)
    }

    ghost predicate From(ts: int) {
      match this
      case Start(_) => true
      case Then(before, call, _, _) => before.From(ts) && ts <= call.ts
    }

    /** Everything paid in less everything paid out, of one token. */
    ghost function NetIn(token0: bool): int {
      match this
      case Start(_) => 0
      case Then(before, call, out, _) =>
        before.NetIn(token0) + (if call.zeroForOne == token0 then call.amountIn else -out)
    }
  }

  /** In one block the reference price and the stored center stay where the first swap left them,
      and every swap's price is within five per cent of that one reference. */
  lemma {:induction false} RunKeepsReference(run: Run, ts: nat)
    requires run.Valid() && run.AllAt(ts) && ts < Pow2(CLOCK_BITS) && run.Then?
    ensures SwapStamp(run.pool.vars) == ts
    ensures OlderPrice(run.pool.vars) == OlderPrice(run.AfterOne().vars)
    ensures StoredCenter(run.pool.vars) == StoredCenter(run.AfterOne().vars)
    ensures Price(run.before.pool, run.call.zeroForOne, run.call.amountIn, ts).Ok?
    ensures InBand(OlderPrice(run.AfterOne().vars),
                   Price(run.before.pool, run.call.zeroForOne, run.call.amountIn, ts).value.price)
  {
    hide Swaps, Price, Field, FromBig, Pow2, InBand, RecordedFrame;
    SwapRecords(run.before.pool, run.call, run.out, run.pool);
    if run.before.Then? { RunKeepsReference(run.before, ts); }
  }

  /** At one timestamp, over any run of swaps, each token's cash in the layer moves by exactly what
      was paid in and out, and the layer's surplus over the pool's position never falls. */
  lemma {:induction false} RunKeepsSurplus(run: Run, ts: nat, p0: Prices, p1: Prices)
    requires run.Valid() && run.AllAt(ts) && ts < Pow2(CLOCK_BITS)
    requires SaneRange(run.First().vars2) && 0 < p0.supply && 0 < p0.borrow && 0 < p1.supply && 0 < p1.borrow
    requires ExchangePrices(run.First().token0.config, ts) == Ok(p0)
    requires ExchangePrices(run.First().token1.config, ts) == Ok(p1)
    ensures run.pool.vars2 == run.First().vars2
    ensures ExchangePrices(run.pool.token0.config, ts) == Ok(p0)
    ensures ExchangePrices(run.pool.token1.config, ts) == Ok(p1)
    ensures run.pool.token0.balance == run.First().token0.balance + run.NetIn(true)
    ensures run.pool.token1.balance == run.First().token1.balance + run.NetIn(false)
    ensures Surplus(run.First().token0, p0) <= Surplus(run.pool.token0, p0)
    ensures Surplus(run.First().token1, p1) <= Surplus(run.pool.token1, p1)
  {
    hide Swaps, ExchangePrices, Surplus, SaneRange, Operations.LimitStep, Operations.SameFee, Pow2;
    if run.Then? {
      RunKeepsSurplus(run.before, ts, p0, p1);
      SwapKeepsSurplus(run.before.pool, run.call, run.out, run.pool);
    }
  }

  /** Over any run whose clock does not go back, neither token's stored withdrawal limit exceeds the
      pool's stored supply. */
  lemma {:induction false} RunKeepsLimits(run: Run)
    requires run.Valid() && run.ClockRuns() && run.Positive() && SaneRange(run.First().vars2)
    requires Operations.LimitWithinSupply(run.First().token0.supply)
    requires Operations.LimitWithinSupply(run.First().token1.supply)
    ensures run.pool.vars2 == run.First().vars2
    ensures run.Then? ==> Stamp(run.pool.token0.supply) <= run.call.ts && Stamp(run.pool.token1.supply) <= run.call.ts
    ensures Operations.LimitWithinSupply(run.pool.token0.supply)
    ensures Operations.LimitWithinSupply(run.pool.token1.supply)
  {
    hide Swaps, ExchangePrices, Surplus, SaneRange, PositivePool, Operations.LimitWithinSupply, Operations.SameFee,
         Pow2, Field;
    if run.Then? {
      RunKeepsLimits(run.before);
      SwapKeepsSurplus(run.before.pool, run.call, run.out, run.pool);
    }
  }

  /** A token whose configuration is not from the future and whose fee is at most 100 %. */
  ghost predicate FeeBounded(tok: Token, ts: int) {
    ConfigStamp(tok.config) <= ts && Fee(tok.config) <= FOUR
  }

  lemma FeeBoundedPositive(tok: Token, ts: int, later: int)
    requires FeeBounded(tok, ts) && ts <= later
    ensures Operations.PricesPositive(tok.config, later)
  {
    hide Field, ExchangePrices, Operations.Earned;
    if ExchangePrices(tok.config, later).Ok? { Operations.PricesGrow(tok.config, later); }
  }

  /** Fees of at most 100 % at the start make the prices of every later swap positive. */
  lemma {:induction false} RunStaysPositive(run: Run, ts: int)
    requires run.Valid() && run.ClockRuns() && run.From(ts) && SaneRange(run.First().vars2)
    requires FeeBounded(run.First().token0, ts) && FeeBounded(run.First().token1, ts)
    ensures run.Positive() && run.pool.vars2 == run.First().vars2
    ensures var now := if run.Then? then run.call.ts else ts;
            FeeBounded(run.pool.token0, now) && FeeBounded(run.pool.token1, now)
  {
    hide Swaps, ExchangePrices, Surplus, SaneRange, Operations.PricesPositive, Operations.LimitStep, Pow2, Field;
    if run.Then? {
      RunStaysPositive(run.before, ts);
      var now := if run.before.Then? then run.before.call.ts else ts;
      FeeBoundedPositive(run.before.pool.token0, now, run.call.ts);
      FeeBoundedPositive(run.before.pool.token1, now, run.call.ts);
      SwapKeepsSurplus(run.before.pool, run.call, run.out, run.pool);
    }
  }
}
