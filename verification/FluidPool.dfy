/** A Fluid DEX pool: price ranges, collateral and debt reserves, routing between the two, and the
    swap that settles both sides with the Liquidity layer and records its price. */
module FluidPool {
  import opened Arith
  import opened Bits
  import opened BigNumber
  import opened Words
  import opened Liquidity

  const THREE: nat := 1_000
  const SIX: nat := 1_000_000
  const EIGHT: nat := 100_000_000
  const E18: nat := 1_000_000_000_000_000_000
  const E25: nat := 10_000_000_000_000_000_000_000_000
  const E38: nat := 100_000_000_000_000_000_000_000_000_000_000_000_000
  const E50: nat := E25 * E25
  const ORACLE_PRECISION: nat := E18
  const ORACLE_LIMIT: nat := 50_000_000_000_000_000
  const MINIMUM_LIQUIDITY: nat := 10_000
  const INPUT_EXCESS: nat := 100
  const X22: nat := 0x3fffff
  const X96: nat := 0xffffffff_ffffffff_ffffffff
  const X128: nat := 0xffffffff_ffffffff_ffffffff_ffffffff

  datatype Option<T> = None | Some(value: T)

  /** Everything a swap reads: unit conversions, the two packed words, the price hook's answer and
      the two tokens in the Liquidity layer. */
  datatype Pool = Pool(num0: nat, den0: nat, num1: nat, den1: nat, vars: nat, vars2: nat, hookCenter: Option<nat>,
                       token0: Token, token1: Token)

  // ----- fields of the two pool words -----

  /** The price of the previous block, against which the oracle limit is measured. */
  function OlderPrice(vars: nat): nat {
    FromBig(Field(vars, 1, 40))
  }

  function LastPrice(vars: nat): nat {
    FromBig(Field(vars, 41, 40))
  }

  function StoredCenter(vars: nat): nat {
    FromBig(Field(vars, 81, 40))
  }

  function SwapStamp(vars: nat): nat {
    Field(vars, 121, 33)
  }

  predicate SmartCol(vars2: nat) {
    Field(vars2, 0, 1) == 1
  }

  predicate SmartDebt(vars2: nat) {
    Field(vars2, 1, 1) == 1
  }

  function FeeWord(vars2: nat): nat {
    Field(vars2, 2, 17)
  }

  /** The share of the fee kept as revenue, in per cent. */
  function CutPercent(vars2: nat): nat {
    Field(vars2, 19, 7)
  }

  function UpperPercent(vars2: nat): nat {
    Field(vars2, 27, 20)
  }

  function LowerPercent(vars2: nat): nat {
    Field(vars2, 47, 20)
  }

  function MaxCenter(vars2: nat): nat {
    FromBig(Field(vars2, 172, 28))
  }

  function MinCenter(vars2: nat): nat {
    FromBig(Field(vars2, 200, 28))
  }

  // ----- partial operations -----

  function Rooted(n: int): Result<nat> {
    if n < 0 then Err(Underflow) else Ok(Isqrt(n))
  }

  function Checked(v: int): Result<nat> {
    if v < 0 || v >= UINT256 then Err(Revert("arithmetic over/underflow")) else Ok(v)
  }

  // ----- prices and ranges -----

  function CenterBefore(pool: Pool): Result<nat> {
    if Field(pool.vars2, 112, 30) == 0 then Ok(StoredCenter(pool.vars))
    else match pool.hookCenter
      case None => Err(Revert("center price hook unread"))
      case Some(c) => Ok(c)
  }

  function UpperOf(center: int, vars2: nat): Result<int> {
    Divided(center * SIX, SIX - UpperPercent(vars2))
  }

  function LowerOf(center: int, vars2: nat): int {
    center * (SIX - LowerPercent(vars2)) / SIX
  }

  /** The center moved toward an edge of its range, in proportion to the time since the last swap. */
  function MovedUp(center: int, upper: int, elapsed: int, time: nat): Result<int> {
    if elapsed < time then
      if time == 0 then Err(DivisionByZero) else Ok(center + (upper - center) * elapsed / time)
    else Ok(upper)
  }

  function MovedDown(center: int, lower: int, elapsed: int, time: nat): Result<int> {
    if elapsed < time then
      if time == 0 then Err(DivisionByZero) else Ok(center - (center - lower) * elapsed / time)
    else Ok(lower)
  }

  /** The center after the price has stayed past a threshold. */
  function Shifted(pool: Pool, center: int, upper: int, lower: int, ts: int): Result<int> {
    var v2 := pool.vars2;
    if Field(v2, 68, 20) == 0 then Ok(center)
    else if Field(v2, 67, 1) == 1 then Err(Revert("threshold shift active (not followed)"))
    else
      var last, elapsed, time := LastPrice(pool.vars), ts - SwapStamp(pool.vars), Field(v2, 88, 24);
      if last > center + (upper - center) * (THREE - Field(v2, 68, 10)) / THREE then
        MovedUp(center, upper, elapsed, time)
      else if last < center - (center - lower) * (THREE - Field(v2, 78, 10)) / THREE then
        MovedDown(center, lower, elapsed, time)
      else Ok(center)
  }

  function Clamped(center: int, lowest: nat, highest: nat): nat {
    if center > highest then highest else if center < lowest then lowest else center
  }

  function MeanOf(upper: int, lower: int): Result<nat> {
    if upper < E38 then Rooted(upper * lower)
    else
      var m :- Rooted((upper / E18) * (lower / E18));
      Ok(m * E18)
  }

  datatype Ranges = Ranges(center: nat, upper: int, lower: int, mean: nat)

  /** Recomputing an unchanged center's range gives the range it had, so the range is always the
      one of the final center. */
  function RangesOf(pool: Pool, ts: int): Result<Ranges> {
    var v2 := pool.vars2;
    if Field(v2, 248, 1) == 1 then Err(Revert("center price shift active (not followed)"))
    else if Field(v2, 26, 1) == 1 then Err(Revert("range shift active (not followed)"))
    else
      var before :- CenterBefore(pool);
      var upper0 :- UpperOf(before, v2);
      var shifted :- Shifted(pool, before, upper0, LowerOf(before, v2), ts);
      var center := Clamped(shifted, MinCenter(v2), MaxCenter(v2));
      var upper :- UpperOf(center, v2);
      var lower := LowerOf(center, v2);
      var mean :- MeanOf(upper, lower);
      Ok(Ranges(center, upper, lower, mean))
  }

  // ----- reserves -----

  datatype Pair = Pair(x: int, y: int)

  /** The term under the root, in the order of operations that keeps it within 256 bits. */
  function ScaledProduct(product: int, divisor: int): Result<int> {
    if product < E50 then Divided(product * E27, divisor)
    else
      var q :- Divided(product, divisor);
      Ok(q * E27)
  }

  function LinearTerm(gp: int, divisor: int, rx: int, ry: int): Result<int> {
    Divided(gp * rx + ry * E27, 2 * divisor)
  }

  function RangeRoot(gp: int, pa: int, rx: int, ry: int): Result<int> {
    var p :- LinearTerm(gp, pa - gp, rx, ry);
    var q :- ScaledProduct(rx * ry, pa - gp);
    var root :- Rooted(q + p * p);
    Ok(p + root)
  }

  function OutsideRange(gp: int, pa: int, rx: int, ry: int): Result<Pair> {
    var x :- RangeRoot(gp, pa, rx, ry);
    Ok(Pair(x, x * gp / E27))
  }

  /** Real and imaginary reserves of one side of a pool, by token. */
  datatype Reserves = Reserves(r0: int, r1: int, i0: int, i1: int)

  /** A user word's amount at current prices, in the pool's internal units. */
  function Held(word: nat, price: int, num: nat, den: nat): Result<int> {
    var amount := Amount(word);
    Divided((if WithInterest(word) then amount * price / PRICE_UNIT else amount) * num, den)
  }

  function ColReserves(pool: Pool, g: Ranges, price0: int, price1: int): Result<Reserves> {
    var s0 :- Held(pool.token0.supply, price0, pool.num0, pool.den0);
    var s1 :- Held(pool.token1.supply, price1, pool.num1, pool.den1);
    if g.mean < E27 then
      var p :- OutsideRange(g.mean, g.upper, s0, s1);
      Ok(Reserves(s0, s1, p.x + s0, p.y + s1))
    else
      var edge :- Divided(E54, g.lower);
      var p :- OutsideRange(E54 / g.mean, edge, s1, s0);
      Ok(Reserves(s0, s1, p.y + s0, p.x + s1))
  }

  function DebtProduct(product: int, pb: int): int {
    if product < E50 then product * pb / E27 else product / E27 * pb
  }

  /** Real and imaginary reserves of the debt of two tokens. */
  function DebtSolved(gp: int, pb: int, dx: int, dy: int): Result<Reserves> {
    var p1 := TruncDiv(dx * gp - dy * E27, 2 * E27);
    var root :- Rooted(DebtProduct(dx * dy, pb) + p1 * p1);
    var ry := p1 + root;
    if ry < 0 then Err(Revert("negative"))
    else
      var edge := ry * E27 - dx * pb;
      if edge < SIX then Err(Revert("debt reserves too low"))
      else
        var iry :- if ry < E25 then Divided(ry * ry * E27, edge) else Divided(ry * ry, edge / E27);
        var share :- Divided(iry * dx, ry);
        var irx := share - dx;
        var rx :- Divided(irx * dy, iry + dy);
        Ok(Reserves(rx, ry, irx, iry))
  }

  function DebtReserves(pool: Pool, g: Ranges, price0: int, price1: int): Result<Reserves> {
    var d0 :- Held(pool.token0.borrow, price0, pool.num0, pool.den0);
    var d1 :- Held(pool.token1.borrow, price1, pool.num1, pool.den1);
    if g.mean < E27 then DebtSolved(g.mean, g.lower, d0, d1)
    else
      var edge :- Divided(E54, g.upper);
      var r :- DebtSolved(E54 / g.mean, edge, d1, d0);
      Ok(Reserves(r.r1, r.r0, r.i1, r.i0))
  }

  // ----- routing -----

  function SwapRouting(t: int, x: int, y: int, x2: int, y2: int): Result<int> {
    var p :- Rooted(x * y * E18);
    var q :- Rooted(x2 * y2 * E18);
    if p + q == 0 then Err(DivisionByZero) else Ok(TruncDiv(y2 * p + t * p - y * q, p + q))
  }

  datatype Split = Split(col: int, debt: int)

  function Route(amount: int, smartCol: bool, smartDebt: bool, routing: int): Result<Split> {
    if amount > routing && routing > 0 then Ok(Split(routing, amount - routing))
    else if (smartCol && !smartDebt) || routing >= amount then Ok(Split(amount, 0))
    else if (!smartCol && smartDebt) || routing <= 0 then Ok(Split(0, amount))
    else Err(Revert("no swap route"))
  }

  // ----- pricing -----

  /** One side of the pool, seen from the input token. */
  datatype Side = Side(realIn: int, realOut: int, imagIn: int, imagOut: int)

  function Facing(r: Reserves, zeroForOne: bool): Side {
    if zeroForOne then Side(r.r0, r.r1, r.i0, r.i1) else Side(r.r1, r.r0, r.i1, r.i0)
  }

  function AmountOut(amount: int, imagIn: int, imagOut: int): Result<int> {
    Divided(amount * imagOut, imagIn + amount)
  }

  /** Real reserves after the swap must not be too lopsided around the center price. */
  function ReservesHold(s: Side, add: int, take: int, center: nat, zeroForOne: bool): Result<bool> {
    var left :- Checked(s.realOut - take);
    var floor :- if zeroForOne then Ok((s.realIn + add) * center / (E27 * MINIMUM_LIQUIDITY))
                 else Divided((s.realIn + add) * E27, center * MINIMUM_LIQUIDITY);
    if left < floor then Err(Revert("token reserves too low")) else Ok(true)
  }

  function AfterFee(amount: int, feeWord: nat): int {
    amount * (SIX - feeWord) / SIX
  }

  function AfterCut(amount: int, feeWord: nat, cut: nat): int {
    amount * (EIGHT - cut * feeWord) / EIGHT
  }

  function LegOut(s: Side, amount: int, feeWord: nat, center: nat, zeroForOne: bool): Result<int> {
    if amount <= 0 then Ok(0)
    else
      var out :- AmountOut(AfterFee(amount, feeWord), s.imagIn, s.imagOut);
      var _ :- ReservesHold(s, amount, out, center, zeroForOne);
      Ok(out)
  }

  /** Price of token 0 in token 1 on one side after the swap. */
  function PriceAfter(s: Side, credited: int, out: int, zeroForOne: bool): Result<int> {
    if zeroForOne then Divided((s.imagOut - out) * E27, s.imagIn + credited)
    else Divided((s.imagIn + credited) * E27, s.imagOut - out)
  }

  function AdmittedAmount(pool: Pool, zeroForOne: bool, amountIn: int): Result<int> {
    if Shr(pool.vars2, 255) == 1 then Err(Revert("swap and arbitrage paused"))
    else if Field(pool.vars, 0, 1) == 1 then Err(Revert("already entered"))
    else if Field(pool.vars2, 0, 2) == 0 then Err(Revert("pool not initialized"))
    else
      var adjusted :- if zeroForOne then Divided(amountIn * pool.num0, pool.den0)
                      else Divided(amountIn * pool.num1, pool.den1);
      if adjusted < SIX || adjusted > X96 || amountIn < 100 || amountIn > X128
      then Err(Revert("limiting amounts swap and non perfect actions"))
      else Ok(adjusted)
  }

  /** Both sides as the swap sees them; a side the pool does not use is empty. */
  datatype Sides = Sides(col: Side, debt: Side)

  function SidesOf(pool: Pool, g: Ranges, p0: Prices, p1: Prices, zeroForOne: bool): Result<Sides> {
    var none := Reserves(0, 0, 0, 0);
    var col :- if SmartCol(pool.vars2) then ColReserves(pool, g, p0.supply, p1.supply) else Ok(none);
    var debt :- if SmartDebt(pool.vars2) then DebtReserves(pool, g, p0.borrow, p1.borrow) else Ok(none);
    Ok(Sides(Facing(col, zeroForOne), Facing(debt, zeroForOne)))
  }

  function SplitOf(vars2: nat, s: Sides, amount: int): Result<Split> {
    if amount > (s.col.imagIn + s.debt.imagIn) / 2 then Err(Revert("swap in limiting amounts"))
    else
      var routing :- if SmartCol(vars2) && SmartDebt(vars2)
                     then SwapRouting(amount, s.col.imagOut, s.col.imagIn, s.debt.imagOut, s.debt.imagIn) else Ok(0);
      Route(amount, SmartCol(vars2), SmartDebt(vars2), routing)
  }

  /** A swap as priced, in internal units, before it is settled. */
  datatype Priced = Priced(center: nat, sides: Sides, split: Split, outs: Split, credited: Split, price: int)

  function Price(pool: Pool, zeroForOne: bool, amountIn: int, ts: nat): Result<Priced> {
    var amount :- AdmittedAmount(pool, zeroForOne, amountIn);
    var g :- RangesOf(pool, ts);
    var p0 :- ExchangePrices(pool.token0.config, ts);
    var p1 :- ExchangePrices(pool.token1.config, ts);
    var s :- SidesOf(pool, g, p0, p1, zeroForOne);
    var split :- SplitOf(pool.vars2, s, amount);
    var fee, cut := FeeWord(pool.vars2), CutPercent(pool.vars2);
    var outCol :- LegOut(s.col, split.col, fee, g.center, zeroForOne);
    var outDebt :- LegOut(s.debt, split.debt, fee, g.center, zeroForOne);
    var c := Split(AfterCut(split.col, fee, cut), AfterCut(split.debt, fee, cut));
    var price :- if c.col > c.debt then PriceAfter(s.col, c.col, outCol, zeroForOne)
                 else PriceAfter(s.debt, c.debt, outDebt, zeroForOne);
    Ok(Priced(g.center, s, split, Split(outCol, outDebt), c, price))
  }

  // ----- settlement -----

  function Scaled(s: Split, den: nat, num: nat): Result<Split> {
    var col :- Divided(s.col * den, num);
    var debt :- Divided(s.debt * den, num);
    Ok(Split(col, debt))
  }

  /** What the layer may be given for a credited amount: up to one per cent more. */
  predicate WithinBand(pulled: int, credited: int) {
    credited <= pulled <= credited * (FOUR + INPUT_EXCESS) / FOUR
  }

  function UtilizationLimit(vars2: nat, zeroForOne: bool): nat {
    if zeroForOne then Field(vars2, 238, 10) else Field(vars2, 228, 10)
  }

  /** Input and output token after the two operations on the Liquidity layer. */
  datatype Settled = Settled(tokenIn: Token, tokenOut: Token)

  function Settle(pool: Pool, zeroForOne: bool, amountIn: int, c: Split, o: Split, ts: nat): Result<Settled> {
    if Field(pool.vars2, 142, 30) != 0 then Err(Revert("pool hook (not followed)"))
    else if !WithinBand(amountIn, c.col + c.debt) then Err(Revert("transfer amount out of bounds"))
    else
      var (tokenIn, tokenOut) := if zeroForOne then (pool.token0, pool.token1) else (pool.token1, pool.token0);
      var tokenIn' :- Operate(tokenIn, c.col, -c.debt, ts, amountIn);
      var tokenOut' :- Operate(tokenOut, -o.col, o.debt, ts, 0);
      var limit := UtilizationLimit(pool.vars2, zeroForOne);
      if limit < THREE && Utilization(tokenOut'.config) > limit * 10
      then Err(Revert("liquidity layer token utilization cap reached"))
      else Ok(Settled(tokenIn', tokenOut'))
  }

  // ----- the oracle -----

  /** A price is accepted only within five per cent of its reference, so it is positive. */
  function Accepted(reference: nat, price: int): (r: Result<nat>)
    ensures r.Ok? ==> r.value == price && 0 < price
    ensures r.Ok? ==> ORACLE_PRECISION - ORACLE_LIMIT <= reference * ORACLE_PRECISION / price
                   <= ORACLE_PRECISION + ORACLE_LIMIT
  {
    if price == 0 then Err(DivisionByZero)
    else
      var d := ORACLE_PRECISION - FloorDiv(reference * ORACLE_PRECISION, price);
      if Abs(d) > ORACLE_LIMIT then Err(Revert("oracle update huge swap diff"))
      else
        assert 0 < price by { if price < 0 { QuotientAtMost(-(reference * ORACLE_PRECISION), -price, 0); } }
        Ok(price)
  }

  function PriceSlots(price: nat): seq<Slot> {
    [Slot(41, 40, price)]
  }

  function BlockSlots(vars: nat, price: nat, center: nat, ts: nat): seq<Slot> {
    [Slot(1, 40, Field(vars, 41, 40)), Slot(41, 40, price), Slot(81, 40, center), Slot(121, 33, ts)]
  }

  function OracleSlots(vars: nat, price: nat, center: nat, ts: nat, elapsed: nat): seq<Slot> {
    [Slot(1, 40, Field(vars, 41, 40)), Slot(41, 40, price), Slot(81, 40, center), Slot(121, 33, ts),
     Slot(154, 22, elapsed), Slot(176, 3, Field(vars, 176, 3)), Slot(179, 16, Field(vars, 179, 16))]
  }

  /** A second swap in a block replaces the last price only. */
  function SameBlock(vars: nat, center: nat, price: int): Result<nat> {
    var stored := StoredCenter(vars);
    if center < (EIGHT - 1) * stored / EIGHT || center > (EIGHT + 1) * stored / EIGHT
    then Err(Revert("center price out of range"))
    else
      var p :- Accepted(OlderPrice(vars), price);
      var big :- ToBig(p, PRICE_COEFFICIENT_SIZE, false);
      Ok(WriteBack(vars, LAST_PRICE_MASK, PriceSlots(big)))
  }

  /** The first swap in a block turns the last price into the reference for the block. */
  function NewBlock(vars: nat, center: nat, price: int, ts: nat): Result<nat> {
    var p :- Accepted(LastPrice(vars), price);
    var big :- ToBig(p, PRICE_COEFFICIENT_SIZE, false);
    var bigCenter :- ToBig(center, PRICE_COEFFICIENT_SIZE, false);
    if Field(vars, 195, 1) == 0 then Ok(WriteBack(vars, PRICES_MASK, BlockSlots(vars, big, bigCenter, ts)))
    else
      var elapsed := Min(ts - SwapStamp(vars), X22);
      if elapsed < 0 then Err(Underflow)
      else Ok(WriteBack(vars, ORACLE_MASK, OracleSlots(vars, big, bigCenter, ts, elapsed)))
  }

  function Recorded(vars: nat, center: nat, price: int, ts: nat): Result<nat> {
    if ts == SwapStamp(vars) then SameBlock(vars, center, price) else NewBlock(vars, center, price, ts)
  }

  // ----- the swap -----

  datatype Swapped = Swapped(out: int, pool: Pool)

  function Units(pool: Pool, priced: Priced, zeroForOne: bool): Result<(Split, Split)> {
    if zeroForOne then
      var c :- Scaled(priced.credited, pool.den0, pool.num0);
      var o :- Scaled(priced.outs, pool.den1, pool.num1);
      Ok((c, o))
    else
      var c :- Scaled(priced.credited, pool.den1, pool.num1);
      var o :- Scaled(priced.outs, pool.den0, pool.num0);
      Ok((c, o))
  }

  function SwapIn(pool: Pool, zeroForOne: bool, amountIn: int, ts: nat): Result<Swapped> {
    var priced :- Price(pool, zeroForOne, amountIn, ts);
    var units :- Units(pool, priced, zeroForOne);
    var (c, o) := units;
    var s :- Settle(pool, zeroForOne, amountIn, c, o, ts);
    var vars :- Recorded(pool.vars, priced.center, priced.price, ts);
    var pool' := if zeroForOne then pool.(token0 := s.tokenIn, token1 := s.tokenOut, vars := vars)
                 else pool.(token0 := s.tokenOut, token1 := s.tokenIn, vars := vars);
    Ok(Swapped(o.col + o.debt, pool'))
  }
}
