/** Quotes of stableswap pools: swaps of plain and NG pools, and one-coin withdrawals. */
module StableQuotes {
  import opened Arith
  import opened Stableswap
  import CurveFees

  const NG_PRECISION: nat := 100

  /** Balances in common units: rate times balance over 1e18, coin by coin. */
  function Normalized(rates: seq<nat>, balances: seq<nat>): (xp: seq<int>)
    requires |rates| == |balances|
    ensures |xp| == |rates| && NonNegative(xp)
  {
    assert forall k :: 0 <= k < |rates| ==> 0 <= rates[k] * balances[k] / WAD by {
      forall k | 0 <= k < |rates| ensures 0 <= rates[k] * balances[k] / WAD {
        MulMono2(0, rates[k], 0, balances[k]);
        QuotientBounds(rates[k] * balances[k], WAD);
      }
    }
    seq(|rates|, k requires 0 <= k < |rates| => rates[k] * balances[k] / WAD)
  }

  /** What coin j gives up, in common units and before fees, when coin i rises to x. */
  function RawOut(xp: seq<int>, i: nat, j: nat, x: int, amp: nat, prec: nat, d: int): Result<int>
    requires i < |xp| && j < |xp|
  {
    var y :- GetY(xp[i := x], j, amp, prec, d);
    Ok(xp[j] - y - 1)
  }

  /** The invariant of these balances, when it is found, is not negative. */
  ghost predicate DefinedD(xp: seq<int>, amp: nat, prec: nat, once: bool)
    requires 0 < prec
  {
    GetD(xp, amp, prec, once).Ok? ==> 0 <= GetD(xp, amp, prec, once).value
  }

  /** An input amount in common units. */
  function Input(dx: nat, rate: nat): (r: nat) {
    MulMono2(0, dx, 0, rate);
    QuotientBounds(dx * rate, WAD);
    dx * rate / WAD
  }

  /** An output in the coin's own units, less a flat fee. */
  function Payout(out: int, rate: nat, fee: nat): int
    requires 0 < rate
  {
    AfterFee(out * WAD / rate, fee)
  }

  function AfterFee(dy: int, fee: nat): int {
    dy - fee * dy / FEE_UNIT
  }

  /** Plain pools. */
  function CurveGetDy(i: nat, j: nat, dx: nat, balances: seq<nat>, rates: seq<nat>,
                      amp: nat, prec: nat, fee: nat, once: bool): Result<int>
    requires |rates| == |balances| && i < |rates| && j < |rates| && 0 < prec
  {
    var xp := Normalized(rates, balances);
    var d :- GetD(xp, amp, prec, once);
    var out :- RawOut(xp, i, j, xp[i] + Input(dx, rates[i]), amp, prec, d);
    if rates[j] == 0 then Err(DivisionByZero) else Ok(Payout(out, rates[j], fee))
  }

  /** NG pools: the same solver, a fee that grows off the peg, taken before conversion. */
  function NgGetDy(i: nat, j: nat, dx: nat, balances: seq<nat>, rates: seq<nat>,
                   amp: nat, fee: nat, offpeg: nat): Result<int>
    requires |rates| == |balances| && i < |rates| && j < |rates|
  {
    var xp := Normalized(rates, balances);
    var d :- GetD(xp, amp, NG_PRECISION, true);
    var x := xp[i] + Input(dx, rates[i]);
    var out :- RawOut(xp, i, j, x, amp, NG_PRECISION, d);
    var rate :- CurveFees.DynamicFee((xp[i] + x) / 2, (xp[j] + (xp[j] - out - 1)) / 2, fee, offpeg);
    if rates[j] == 0 then Err(DivisionByZero)
    else Ok(NgPaid(out, rate, rates[j]))
  }

  /** A raw output less its fee, in the coin's own units. */
  function NgPaid(out: int, rate: int, unit: nat): int
    requires 0 < unit
  {
    (out - rate * out / FEE_UNIT) * WAD / unit
  }

  lemma InputMono(dx: nat, dx': nat, rate: nat)
    requires dx <= dx'
    ensures Input(dx, rate) <= Input(dx', rate)
  {
    MulMono(dx, dx', rate);
    QuotientMono(dx * rate, dx' * rate, WAD);
  }

  /** At one D, raising the input never lowers what coin j gives up by more than one unit of the
      common precision. */
  lemma RawOutNearlyMonotone(xp: seq<int>, i: nat, j: nat, x: nat, x': nat, amp: nat, prec: nat, d: nat)
    requires NonNegative(xp) && i < |xp| && j < |xp| && x <= x'
    requires RawOut(xp, i, j, x, amp, prec, d).Ok? && RawOut(xp, i, j, x', amp, prec, d).Ok?
    ensures RawOut(xp, i, j, x, amp, prec, d).value <= RawOut(xp, i, j, x', amp, prec, d).value + 1
  {
    GetYNearlyAntitone(xp[i := x], xp[i := x'], j, amp, prec, d);
  }

  /** The same for NG pools' output before their fee. */
  lemma NgRawOutNearlyMonotone(i: nat, j: nat, dx: nat, dx': nat, xp: seq<int>, rate: nat, amp: nat)
    requires NonNegative(xp) && i < |xp| && j < |xp| && dx <= dx'
    requires GetD(xp, amp, NG_PRECISION, true).Ok? && 0 <= GetD(xp, amp, NG_PRECISION, true).value
    ensures var d := GetD(xp, amp, NG_PRECISION, true).value;
            var out := RawOut(xp, i, j, xp[i] + Input(dx, rate), amp, NG_PRECISION, d);
            var out' := RawOut(xp, i, j, xp[i] + Input(dx', rate), amp, NG_PRECISION, d);
            out.Ok? && out'.Ok? ==> out.value <= out'.value + 1
  {
    hide GetD, GetY, Input;
    InputMono(dx, dx', rate);
    var d := GetD(xp, amp, NG_PRECISION, true).value;
    var x, x' := xp[i] + Input(dx, rate), xp[i] + Input(dx', rate);
    if RawOut(xp, i, j, x, amp, NG_PRECISION, d).Ok? && RawOut(xp, i, j, x', amp, NG_PRECISION, d).Ok? {
      RawOutNearlyMonotone(xp, i, j, x, x', amp, NG_PRECISION, d);
    }
  }

  lemma AfterFeeGrowth(dy: int, k: nat, fee: nat)
    requires fee <= FEE_UNIT
    ensures AfterFee(dy, fee) <= AfterFee(dy + k, fee) <= AfterFee(dy, fee) + k
  {
    var q := fee * dy / FEE_UNIT;
    QuotientBounds(fee * dy, FEE_UNIT);
    assert fee * (dy + k) == fee * dy + fee * k;
    MulMono2(0, fee, 0, k);
    MulMono(fee, FEE_UNIT, k);
    QuotientMono(fee * dy, fee * (dy + k), FEE_UNIT);
    QuotientBelow(fee * (dy + k), FEE_UNIT, q + k + 1);
  }

  lemma PayoutGrowth(out: int, out': int, rate: nat, fee: nat)
    requires out <= out' + 1 && 0 < rate && fee <= FEE_UNIT
    ensures Payout(out, rate, fee) <= Payout(out', rate, fee) + WAD / rate + 1
  {
    var dy, dy', unit := out * WAD / rate, out' * WAD / rate, WAD / rate;
    QuotientBounds(out' * WAD, rate);
    QuotientBounds(WAD, rate);
    MulMono(out, out' + 1, WAD);
    assert (dy' + unit + 2) * rate == dy' * rate + unit * rate + 2 * rate;
    QuotientBelow(out * WAD, rate, dy' + unit + 2);
    if dy <= dy' {
      AfterFeeGrowth(dy, dy' - dy, fee);
    } else {
      AfterFeeGrowth(dy', dy - dy', fee);
    }
  }

  /** Selling more to a plain pool never pays less, up to one unit of the common precision and
      one of the coin: for one pool state and two inputs of which both are quoted. */
  lemma CurveGetDyNearlyMonotone(i: nat, j: nat, dx: nat, dx': nat, balances: seq<nat>, rates: seq<nat>,
                                 amp: nat, prec: nat, fee: nat, once: bool)
    requires |rates| == |balances| && i < |rates| && j < |rates| && dx <= dx'
    requires 0 < prec && fee <= FEE_UNIT && DefinedD(Normalized(rates, balances), amp, prec, once)
    requires CurveGetDy(i, j, dx, balances, rates, amp, prec, fee, once).Ok?
    requires CurveGetDy(i, j, dx', balances, rates, amp, prec, fee, once).Ok?
    ensures 0 < rates[j]
    ensures CurveGetDy(i, j, dx, balances, rates, amp, prec, fee, once).value
         <= CurveGetDy(i, j, dx', balances, rates, amp, prec, fee, once).value + WAD / rates[j] + 1
  {
    hide GetD, GetY, Input, Normalized;
    var xp := Normalized(rates, balances);
    InputMono(dx, dx', rates[i]);
    var d := GetD(xp, amp, prec, once).value;
    var x, x' := xp[i] + Input(dx, rates[i]), xp[i] + Input(dx', rates[i]);
    RawOutNearlyMonotone(xp, i, j, x, x', amp, prec, d);
    PayoutGrowth(RawOut(xp, i, j, x, amp, prec, d).value, RawOut(xp, i, j, x', amp, prec, d).value, rates[j], fee);
  }

  /** v lies between a and b, whichever is the larger. */
  ghost predicate Between(v: int, a: int, b: int) {
    Min(a, b) <= v <= Max(a, b)
  }

  /** What a higher fee leaves is less of an output and less of a shortfall. */
  lemma FeeMono(out: int, rate: int, rate': int)
    requires rate <= rate'
    ensures 0 <= out ==> out - rate' * out / FEE_UNIT <= out - rate * out / FEE_UNIT
    ensures out <= 0 ==> out - rate * out / FEE_UNIT <= out - rate' * out / FEE_UNIT
  {
    if 0 <= out {
      MulMono(rate, rate', out);
      QuotientMono(rate * out, rate' * out, FEE_UNIT);
    }
    if out <= 0 {
      MulMono(rate, rate', -out);
      assert rate * (-out) == -(rate * out) && rate' * (-out) == -(rate' * out);
      QuotientMono(rate' * out, rate * out, FEE_UNIT);
    }
  }

  /** An NG quote lies between what the highest and the lowest of its fees would leave. */
  lemma NgGetDyBetween(i: nat, j: nat, dx: nat, balances: seq<nat>, rates: seq<nat>, amp: nat, fee: nat, offpeg: nat)
    requires |rates| == |balances| && i < |rates| && j < |rates|
    requires DefinedD(Normalized(rates, balances), amp, NG_PRECISION, true)
    requires NgGetDy(i, j, dx, balances, rates, amp, fee, offpeg).Ok?
    ensures 0 < rates[j]
    ensures var xp := Normalized(rates, balances);
            var d := GetD(xp, amp, NG_PRECISION, true);
            && d.Ok?
            && var out := RawOut(xp, i, j, xp[i] + Input(dx, rates[i]), amp, NG_PRECISION, d.value);
            && out.Ok?
            && var top := Max(fee, offpeg * fee / FEE_UNIT);
            && Between(NgGetDy(i, j, dx, balances, rates, amp, fee, offpeg).value,
                       NgPaid(out.value, top, rates[j]), NgPaid(out.value, fee, rates[j]))
  {
    hide GetD, GetY, Normalized, Input, CurveFees.DynamicFee, NgPaid, Between;
    var xp := Normalized(rates, balances);
    var d := GetD(xp, amp, NG_PRECISION, true).value;
    var x := xp[i] + Input(dx, rates[i]);
    SolvedNonNegative(xp[i := x], j, amp, NG_PRECISION, d);
    var out := RawOut(xp, i, j, x, amp, NG_PRECISION, d).value;
    var rate := CurveFees.DynamicFee((xp[i] + x) / 2, (xp[j] + (xp[j] - out - 1)) / 2, fee, offpeg).value;
    PaidBetween(out, fee, rate, Max(fee, offpeg * fee / FEE_UNIT), rates[j]);
  }

  lemma PaidBetween(out: int, least: int, rate: int, most: int, unit: nat)
    requires least <= rate <= most && 0 < unit
    ensures Between(NgPaid(out, rate, unit), NgPaid(out, most, unit), NgPaid(out, least, unit))
  {
    FeeMono(out, least, rate);
    FeeMono(out, rate, most);
    var a, v, b := out - most * out / FEE_UNIT, out - rate * out / FEE_UNIT, out - least * out / FEE_UNIT;
    PaidMono(a, v, unit);
    PaidMono(v, b, unit);
    PaidMono(b, v, unit);
    PaidMono(v, a, unit);
  }

  lemma PaidMono(a: int, b: int, unit: nat)
    requires 0 < unit
    ensures a <= b ==> a * WAD / unit <= b * WAD / unit
  {
    if a <= b { QuotientMono(a * WAD, b * WAD, unit); }
  }

  // ----- one-coin withdrawal -----

  datatype NgPool = NgPool(rates: seq<nat>, balances: seq<nat>, amp: nat, fee: nat, offpeg: nat, supply: nat)

  /** Balance of coin k after its share of the imbalance fee. */
  function ReducedEntry(xp: seq<int>, i: nat, k: nat, newY: int, d0: int, d1: int, ys: int,
                        baseFee: nat, m: nat): Result<int>
    requires k < |xp| && d0 != 0
  {
    var expected := if k == i then FloorDiv(xp[k] * d1, d0) - newY else xp[k] - FloorDiv(xp[k] * d1, d0);
    var average := if k == i then (xp[k] + newY) / 2 else xp[k];
    if expected < 0 then Err(Revert("pool reverts"))
    else
      var rate :- CurveFees.DynamicFee(average, ys, baseFee, m);
      Ok(xp[k] - rate * expected / FEE_UNIT)
  }

  /** The first n reduced balances followed by the untouched rest. */
  function Reduced(xp: seq<int>, i: nat, n: nat, newY: int, d0: int, d1: int, ys: int,
                   baseFee: nat, m: nat): (r: Result<seq<int>>)
    requires n <= |xp| && d0 != 0
    ensures r.Ok? ==> |r.value| == |xp|
  {
    if n == 0 then Ok(xp)
    else
      var xr :- Reduced(xp, i, n - 1, newY, d0, d1, ys, baseFee, m);
      var entry :- ReducedEntry(xp, i, n - 1, newY, d0, d1, ys, baseFee, m);
      Ok(xr[n - 1 := entry])
  }

  /** D after burning part of the supply. */
  function BurnedD(d0: int, burn: nat, supply: nat): int
    requires 0 < supply
  {
    d0 - burn * d0 / supply
  }

  function BaseFee(fee: nat, n: nat): (r: nat)
    requires 1 < n
    ensures r <= fee
  {
    MulMono2(0, fee, 0, n);
    MulMono(n, 4 * (n - 1), fee);
    QuotientBounds(fee * n, 4 * (n - 1));
    QuotientAtMost(fee * n, 4 * (n - 1), fee);
    fee * n / (4 * (n - 1))
  }

  /** The mean of the two invariants per coin. */
  function MeanShare(d0: int, d1: int, n: nat): (r: int)
    requires 0 < n
    ensures 0 <= d0 + d1 ==> 0 <= r
  {
    QuotientBounds(d0 + d1, 2 * n);
    (d0 + d1) / (2 * n)
  }

  /** What a withdrawal takes from coin i in common units, before the last unit is kept back. */
  function WithdrawRaw(xp: seq<int>, i: nat, amp: nat, d0: int, d1: int, baseFee: nat, m: nat): Result<int>
    requires i < |xp| && d0 != 0
  {
    var n := |xp|;
    var newY :- GetY(xp, i, amp, NG_PRECISION, d1);
    var xr :- Reduced(xp, i, n, newY, d0, d1, MeanShare(d0, d1, n), baseFee, m);
    var y :- GetY(xr, i, amp, NG_PRECISION, d1);
    Ok(xr[i] - y)
  }

  function WithdrawOneCoin(burn: nat, i: nat, pool: NgPool): Result<int>
    requires |pool.rates| == |pool.balances| && i < |pool.rates|
  {
    var n := |pool.rates|;
    var xp := Normalized(pool.rates, pool.balances);
    var d0 :- GetD(xp, pool.amp, NG_PRECISION, true);
    if pool.supply == 0 || n == 1 || d0 == 0 then Err(DivisionByZero)
    else
      var d1 := BurnedD(d0, burn, pool.supply);
      var dy :- WithdrawRaw(xp, i, pool.amp, d0, d1, BaseFee(pool.fee, n), pool.offpeg);
      if pool.rates[i] == 0 then Err(DivisionByZero) else Ok((dy - 1) * WAD / pool.rates[i])
  }

  /** The list-filling loop of the port. */
  method ReducedLoop(xp: seq<int>, i: nat, newY: int, d0: int, d1: int, ys: int, baseFee: nat, m: nat)
    returns (r: Result<seq<int>>)
    requires d0 != 0
    ensures r == Reduced(xp, i, |xp|, newY, d0, d1, ys, baseFee, m)
  {
    var n := |xp|;
    var xr := xp;
    for k := 0 to n
      invariant |xr| == n
      invariant Reduced(xp, i, k, newY, d0, d1, ys, baseFee, m) == Ok(xr)
    {
      var entry := ReducedEntry(xp, i, k, newY, d0, d1, ys, baseFee, m);
      if entry.Err? {
        ReducedFails(xp, i, k + 1, n, newY, d0, d1, ys, baseFee, m);
        return Err(entry.error);
      }
      xr := xr[k := entry.value];
    }
    return Ok(xr);
  }

  method WithdrawLoop(xp: seq<int>, i: nat, amp: nat, d0: int, d1: int, baseFee: nat, m: nat)
    returns (r: Result<int>)
    requires i < |xp| && d0 != 0
    ensures r == WithdrawRaw(xp, i, amp, d0, d1, baseFee, m)
  {
    var newY := GetYLoop(xp, i, amp, NG_PRECISION, d1);
    if newY.Err? {
      return newY;
    }
    var xr := ReducedLoop(xp, i, newY.value, d0, d1, MeanShare(d0, d1, |xp|), baseFee, m);
    if xr.Err? {
      return Err(xr.error);
    }
    var y := GetYLoop(xr.value, i, amp, NG_PRECISION, d1);
    if y.Err? {
      return y;
    }
    return Ok(xr.value[i] - y.value);
  }

  lemma {:induction false} ReducedFails(xp: seq<int>, i: nat, k: nat, n: nat, newY: int, d0: int, d1: int,
                                        ys: int, baseFee: nat, m: nat)
    requires k <= n <= |xp| && d0 != 0 && Reduced(xp, i, k, newY, d0, d1, ys, baseFee, m).Err?
    ensures Reduced(xp, i, n, newY, d0, d1, ys, baseFee, m) == Reduced(xp, i, k, newY, d0, d1, ys, baseFee, m)
  {
    if k < n { ReducedFails(xp, i, k, n - 1, newY, d0, d1, ys, baseFee, m); }
  }

  /** Fees of at most 100 %, off the peg too. */
  ghost predicate FeeWithinUnit(baseFee: nat, m: nat) {
    baseFee <= FEE_UNIT && m * baseFee <= FEE_UNIT * FEE_UNIT
  }

  lemma KeptShare(x: nat, d0: int, d1: nat)
    requires 0 < d0 && d1 <= d0
    ensures 0 <= FloorDiv(x * d1, d0) <= x
  {
    MulMono2(0, x, 0, d1);
    MulMono(d1, d0, x);
    QuotientBounds(x * d1, d0);
    QuotientAtMost(x * d1, d0, x);
  }

  lemma ReducedEntryBetween(xp: seq<int>, i: nat, k: nat, newY: nat, d0: int, d1: nat, ys: nat, baseFee: nat, m: nat)
    requires NonNegative(xp) && k < |xp| && 0 < d0 && d1 <= d0 && FeeWithinUnit(baseFee, m)
    requires ReducedEntry(xp, i, k, newY, d0, d1, ys, baseFee, m).Ok?
    ensures 0 <= ReducedEntry(xp, i, k, newY, d0, d1, ys, baseFee, m).value <= xp[k]
  {
    KeptShare(xp[k], d0, d1);
    var expected := if k == i then FloorDiv(xp[k] * d1, d0) - newY else xp[k] - FloorDiv(xp[k] * d1, d0);
    var average := if k == i then (xp[k] + newY) / 2 else xp[k];
    QuotientAtMost(m * baseFee, FEE_UNIT, FEE_UNIT);
    FeeShare(CurveFees.DynamicFee(average, ys, baseFee, m).value, expected);
  }

  lemma {:induction false} ReducedBetween(xp: seq<int>, i: nat, n: nat, newY: nat, d0: int, d1: nat, ys: nat,
                                          baseFee: nat, m: nat)
    requires NonNegative(xp) && n <= |xp| && 0 < d0 && d1 <= d0 && FeeWithinUnit(baseFee, m)
    requires Reduced(xp, i, n, newY, d0, d1, ys, baseFee, m).Ok?
    ensures var xr := Reduced(xp, i, n, newY, d0, d1, ys, baseFee, m).value;
            forall k :: 0 <= k < |xp| ==> 0 <= xr[k] <= xp[k]
  {
    if n > 0 {
      ReducedBetween(xp, i, n - 1, newY, d0, d1, ys, baseFee, m);
      ReducedEntryBetween(xp, i, n - 1, newY, d0, d1, ys, baseFee, m);
    }
  }

  /** The imbalance fee never pays the withdrawer: with it a withdrawal takes at most one unit
      more than the difference between the balance and its fee-less replacement. */
  lemma WithdrawNeverGains(xp: seq<int>, i: nat, amp: nat, d0: int, d1: nat, baseFee: nat, m: nat)
    requires NonNegative(xp) && i < |xp| && 0 < d0 && d1 <= d0 && FeeWithinUnit(baseFee, m)
    requires WithdrawRaw(xp, i, amp, d0, d1, baseFee, m).Ok?
    ensures GetY(xp, i, amp, NG_PRECISION, d1).Ok?
    ensures WithdrawRaw(xp, i, amp, d0, d1, baseFee, m).value
         <= xp[i] - GetY(xp, i, amp, NG_PRECISION, d1).value + 1
  {
    var n := |xp|;
    var newY := GetY(xp, i, amp, NG_PRECISION, d1).value;
    SolvedNonNegative(xp, i, amp, NG_PRECISION, d1);
    ReducedBetween(xp, i, n, newY, d0, d1, MeanShare(d0, d1, n), baseFee, m);
    var xr := Reduced(xp, i, n, newY, d0, d1, MeanShare(d0, d1, n), baseFee, m).value;
    GetYNearlyAntitone(xr, xp, i, amp, NG_PRECISION, d1);
  }

  lemma BurnedDWithin(d0: nat, burn: nat, supply: nat)
    requires 0 < supply && burn <= supply
    ensures 0 <= BurnedD(d0, burn, supply) <= d0
  {
    MulMono2(0, burn, 0, d0);
    MulMono(burn, supply, d0);
    QuotientBounds(burn * d0, supply);
    QuotientAtMost(burn * d0, supply, d0);
  }

  /** The unit kept back covers the solver's: a one-coin withdrawal pays no more than the fee-less
      difference of the coin's balance. */
  lemma WithdrawAtMostFeeless(burn: nat, i: nat, pool: NgPool)
    requires |pool.rates| == |pool.balances| && i < |pool.rates|
    requires DefinedD(Normalized(pool.rates, pool.balances), pool.amp, NG_PRECISION, true)
    requires burn <= pool.supply && FeeWithinUnit(pool.fee, pool.offpeg)
    requires WithdrawOneCoin(burn, i, pool).Ok?
    ensures 0 < pool.rates[i] && 0 < pool.supply
    ensures var xp := Normalized(pool.rates, pool.balances);
            var d0 := GetD(xp, pool.amp, NG_PRECISION, true);
            && d0.Ok?
            && var newY := GetY(xp, i, pool.amp, NG_PRECISION, BurnedD(d0.value, burn, pool.supply));
            && newY.Ok?
            && WithdrawOneCoin(burn, i, pool).value * pool.rates[i] <= (xp[i] - newY.value) * WAD
  {
    hide GetD, GetY, Normalized, WithdrawRaw, BurnedD, BaseFee;
    var xp := Normalized(pool.rates, pool.balances);
    var d0 := GetD(xp, pool.amp, NG_PRECISION, true).value;
    BurnedDWithin(d0, burn, pool.supply);
    var d1 := BurnedD(d0, burn, pool.supply);
    var baseFee := BaseFee(pool.fee, |xp|);
    MulMono(baseFee, pool.fee, pool.offpeg);
    WithdrawNeverGains(xp, i, pool.amp, d0, d1, baseFee, pool.offpeg);
    var dy := WithdrawRaw(xp, i, pool.amp, d0, d1, baseFee, pool.offpeg).value;
    QuotientBounds((dy - 1) * WAD, pool.rates[i]);
    MulMono(dy - 1, xp[i] - GetY(xp, i, pool.amp, NG_PRECISION, d1).value, WAD);
  }
}
