/** The price range and the swap as the pool computes them, step by step on local variables, proved
    equal to the functions whose properties are shown elsewhere. */
module FluidSteps {
  import opened Arith
  import opened Bits
  import opened BigNumber
  import opened Liquidity
  import opened LiquiditySteps
  import opened FluidPool

  /** The range is recomputed only when a shift or a clamp has moved the center. */
  method RangeSteps(pool: Pool, ts: int) returns (r: Result<Ranges>)
    ensures r == RangesOf(pool, ts)
  {
    hide Field, FromBig, MeanOf, UpperOf, LowerOf, MovedUp, MovedDown;
    var v2 := pool.vars2;
    if Field(v2, 248, 1) == 1 { return Err(Revert("center price shift active (not followed)")); }
    if Field(v2, 26, 1) == 1 { return Err(Revert("range shift active (not followed)")); }
    var center: int :- CenterBefore(pool);
    var upper :- UpperOf(center, v2);
    var lower := LowerOf(center, v2);
    var changed := false;
    if Field(v2, 68, 20) > 0 {
      if Field(v2, 67, 1) == 1 { return Err(Revert("threshold shift active (not followed)")); }
      var last, elapsed, time := LastPrice(pool.vars), ts - SwapStamp(pool.vars), Field(v2, 88, 24);
      if last > center + (upper - center) * (THREE - Field(v2, 68, 10)) / THREE {
        center :- MovedUp(center, upper, elapsed, time);
        changed := true;
      } else if last < center - (center - lower) * (THREE - Field(v2, 78, 10)) / THREE {
        center :- MovedDown(center, lower, elapsed, time);
        changed := true;
      }
    }
    if center > MaxCenter(v2) {
      center := MaxCenter(v2);
      changed := true;
    } else if center < MinCenter(v2) {
      center := MinCenter(v2);
      changed := true;
    }
    if changed {
      upper :- UpperOf(center, v2);
      lower := LowerOf(center, v2);
    }
    var mean :- MeanOf(upper, lower);
    return Ok(Ranges(center, upper, lower, mean));
  }

  /** Both sides, the split and the two legs, up to the price the swap leaves. */
  method PriceSteps(pool: Pool, zeroForOne: bool, amountIn: int, ts: nat) returns (r: Result<Priced>)
    ensures r == Price(pool, zeroForOne, amountIn, ts)
  {
    hide Field, FromBig, AdmittedAmount, RangesOf, ExchangePrices, ColReserves, DebtReserves, SwapRouting, LegOut,
         PriceAfter, AfterCut;
    var amount :- AdmittedAmount(pool, zeroForOne, amountIn);
    var g := RangeSteps(pool, ts);
    if g.Err? { return Err(g.error); }
    var p0 :- ExchangePrices(pool.token0.config, ts);
    var p1 :- ExchangePrices(pool.token1.config, ts);
    var smartCol, smartDebt := SmartCol(pool.vars2), SmartDebt(pool.vars2);
    var fee, cut := FeeWord(pool.vars2), CutPercent(pool.vars2);
    var col, debt := Side(0, 0, 0, 0), Side(0, 0, 0, 0);
    if smartCol {
      var c :- ColReserves(pool, g.value, p0.supply, p1.supply);
      col := Facing(c, zeroForOne);
    }
    if smartDebt {
      var d :- DebtReserves(pool, g.value, p0.borrow, p1.borrow);
      debt := Facing(d, zeroForOne);
    }
    if amount > (col.imagIn + debt.imagIn) / 2 { return Err(Revert("swap in limiting amounts")); }
    var routing := 0;
    if smartCol && smartDebt {
      routing :- SwapRouting(amount, col.imagOut, col.imagIn, debt.imagOut, debt.imagIn);
    }
    var toCol, toDebt := 0, 0;
    if amount > routing && routing > 0 {
      toCol, toDebt := routing, amount - routing;
    } else if (smartCol && !smartDebt) || routing >= amount {
      toCol, toDebt := amount, 0;
    } else {
      toCol, toDebt := 0, amount;
    }
    var outCol :- LegOut(col, toCol, fee, g.value.center, zeroForOne);
    var outDebt :- LegOut(debt, toDebt, fee, g.value.center, zeroForOne);
    var split := Split(toCol, toDebt);
    toCol := AfterCut(toCol, fee, cut);
    toDebt := AfterCut(toDebt, fee, cut);
    var price := 0;
    if toCol > toDebt {
      price :- PriceAfter(col, toCol, outCol, zeroForOne);
    } else {
      price :- PriceAfter(debt, toDebt, outDebt, zeroForOne);
    }
    return Ok(Priced(g.value.center, Sides(col, debt), split, Split(outCol, outDebt), Split(toCol, toDebt), price));
  }

  method SettleSteps(pool: Pool, zeroForOne: bool, amountIn: int, c: Split, o: Split, ts: nat)
    returns (r: Result<Settled>)
    ensures r == Settle(pool, zeroForOne, amountIn, c, o, ts)
  {
    hide Field, Operate;
    if Field(pool.vars2, 142, 30) != 0 { return Err(Revert("pool hook (not followed)")); }
    var credited := c.col + c.debt;
    if amountIn < credited || amountIn > credited * (FOUR + INPUT_EXCESS) / FOUR {
      return Err(Revert("transfer amount out of bounds"));
    }
    var tokens := [pool.token0, pool.token1];
    var i, j := if zeroForOne then 0 else 1, if zeroForOne then 1 else 0;
    var t := OperateSteps(tokens[i], c.col, -c.debt, ts, amountIn);
    if t.Err? { return Err(t.error); }
    tokens := tokens[i := t.value];
    t := OperateSteps(tokens[j], -o.col, o.debt, ts, 0);
    if t.Err? { return Err(t.error); }
    tokens := tokens[j := t.value];
    var limit := UtilizationLimit(pool.vars2, zeroForOne);
    if limit < THREE {
      if Utilization(tokens[j].config) > limit * 10 {
        return Err(Revert("liquidity layer token utilization cap reached"));
      }
    }
    return Ok(Settled(tokens[i], tokens[j]));
  }

  method SwapSteps(pool: Pool, zeroForOne: bool, amountIn: int, ts: nat) returns (r: Result<Swapped>)
    ensures r == SwapIn(pool, zeroForOne, amountIn, ts)
  {
    hide Price, Settle, Recorded, Units;
    var priced := PriceSteps(pool, zeroForOne, amountIn, ts);
    if priced.Err? { return Err(priced.error); }
    var units :- Units(pool, priced.value, zeroForOne);
    var (credited, outs) := units;
    var s := SettleSteps(pool, zeroForOne, amountIn, credited, outs, ts);
    if s.Err? { return Err(s.error); }
    var after := pool;
    if zeroForOne {
      after := after.(token0 := s.value.tokenIn, token1 := s.value.tokenOut);
    } else {
      after := after.(token0 := s.value.tokenOut, token1 := s.value.tokenIn);
    }
    var vars :- Recorded(pool.vars, priced.value.center, priced.value.price, ts);
    after := after.(vars := vars);
    return Ok(Swapped(outs.col + outs.debt, after));
  }
}
