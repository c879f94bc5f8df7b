/** Balancer V2 weighted pools: directed-rounding fixed point, the two swap formulas and the
    pool's fee and decimal scaling around them. */
module Balancer {
  import opened Arith
  import LogExp

  const MAX_POW_RELATIVE_ERROR: nat := 10_000
  const MAX_RATIO: nat := 300_000_000_000_000_000

  // ----- fixed point -----

  function MulDown(a: nat, b: nat): (r: nat)
    ensures r * WAD <= a * b < r * WAD + WAD
  {
    MulMono2(0, a, 0, b);
    QuotientBounds(a * b, WAD);
    a * b / WAD
  }

  function MulUp(a: nat, b: nat): (r: nat)
    ensures a * b <= r * WAD < a * b + WAD
  {
    MulMono2(0, a, 0, b);
    var p := a * b;
    QuotientBounds(p - 1, WAD);
    if p == 0 then 0 else (p - 1) / WAD + 1
  }

  function DivDown(a: nat, b: nat): (r: Result<nat>)
    ensures r.Ok? <==> b != 0
    ensures r.Ok? ==> r.value * b <= a * WAD < r.value * b + b
  {
    if b == 0 then Err(Revert("ZERO_DIVISION"))
    else
      QuotientBounds(a * WAD, b);
      Ok(if a == 0 then 0 else a * WAD / b)
  }

  function DivUp(a: nat, b: nat): (r: Result<nat>)
    ensures r.Ok? <==> b != 0
    ensures r.Ok? ==> a * WAD <= r.value * b < a * WAD + b
  {
    if b == 0 then Err(Revert("ZERO_DIVISION"))
    else
      QuotientBounds(a * WAD - 1, b);
      Ok(if a == 0 then 0 else (a * WAD - 1) / b + 1)
  }

  function Complement(x: nat): (r: nat) {
    if x < WAD then WAD - x else 0
  }

  function PowUp(x: nat, y: nat, fast: bool): Result<nat> {
    if fast && y == WAD then Ok(x)
    else if fast && y == 2 * WAD then Ok(MulUp(x, x))
    else if fast && y == 4 * WAD then Ok(MulUp(MulUp(x, x), MulUp(x, x)))
    else
      var raw :- LogExp.LogExpPow(x, y, LogExp.Unbounded);
      Ok(raw + MulUp(raw, MAX_POW_RELATIVE_ERROR) + 1)
  }

  // ----- the swap formulas -----

  function CalcOutGivenIn(balIn: nat, weightIn: nat, balOut: nat, weightOut: nat, amountIn: nat, fast: bool)
    : Result<nat>
  {
    if amountIn > MulDown(balIn, MAX_RATIO) then Err(Revert("MAX_IN_RATIO"))
    else
      var base :- DivUp(balIn, balIn + amountIn);
      var exponent :- DivDown(weightIn, weightOut);
      var power :- PowUp(base, exponent, fast);
      Ok(MulDown(balOut, Complement(power)))
  }

  function CalcInGivenOut(balIn: nat, weightIn: nat, balOut: nat, weightOut: nat, amountOut: nat, fast: bool)
    : Result<nat>
  {
    if amountOut > MulDown(balOut, MAX_RATIO) then Err(Revert("MAX_OUT_RATIO"))
    else
      RatioLeavesMost(balOut, amountOut);
      var base :- DivUp(balOut, balOut - amountOut);
      var exponent :- DivUp(weightOut, weightIn);
      var power :- PowUp(base, exponent, fast);
      if power < WAD then Err(Revert("SUB_OVERFLOW")) else Ok(MulUp(balIn, power - WAD))
  }

  lemma RatioLeavesMost(balance: nat, amount: nat)
    requires amount <= MulDown(balance, MAX_RATIO)
    ensures amount <= balance && (amount == balance ==> balance == 0)
  {
  }

  // ----- the pool -----

  function SwapGivenIn(i: nat, j: nat, dx: nat, balances: seq<nat>, weights: seq<nat>, scaling: seq<nat>,
                       fee: nat, fast: bool): Result<nat>
    requires |balances| == |weights| == |scaling| && i < |balances| && j < |balances|
    requires 0 < scaling[i] && 0 < scaling[j] && fee <= WAD
  {
    AfterFeeNonNegative(dx, fee);
    var out :- CalcOutGivenIn(balances[i] * scaling[i], weights[i], balances[j] * scaling[j], weights[j],
                              (dx - MulUp(dx, fee)) * scaling[i], fast);
    QuotientBounds(out, scaling[j]);
    Ok(out / scaling[j])
  }

  function SwapGivenOut(i: nat, j: nat, dy: nat, balances: seq<nat>, weights: seq<nat>, scaling: seq<nat>,
                        fee: nat, fast: bool): Result<nat>
    requires |balances| == |weights| == |scaling| && i < |balances| && j < |balances|
    requires 0 < scaling[i] && 0 < scaling[j] && fee <= WAD
  {
    var raw :- CalcInGivenOut(balances[i] * scaling[i], weights[i], balances[j] * scaling[j], weights[j],
                              dy * scaling[j], fast);
    DivUp(RoundUp(raw, scaling[i]), Complement(fee))
  }

  function RoundUp(raw: nat, unit: nat): (r: nat)
    requires 0 < unit
    ensures raw <= r * unit < raw + unit
  {
    QuotientBounds(raw - 1, unit);
    if raw == 0 then 0 else (raw - 1) / unit + 1
  }

  lemma AfterFeeNonNegative(dx: nat, fee: nat)
    requires fee <= WAD
    ensures MulUp(dx, fee) <= dx
  {
    MulMono(fee, WAD, dx);
  }

  // ----- the weighted product -----

  /** The exponents of the fast path. */
  ghost predicate FastExponent(e: nat) {
    e == 1 || e == 2 || e == 4
  }

  ghost function Power(v: nat, e: nat): nat
    requires FastExponent(e)
  {
    if e == 1 then v else if e == 2 then v * v else (v * v) * (v * v)
  }

  lemma PowerMono(x: nat, y: nat, e: nat)
    requires FastExponent(e) && x <= y
    ensures Power(x, e) <= Power(y, e)
  {
    MulMono2(x, y, x, y);
    MulMono2(x * x, y * y, x * x, y * y);
  }

  /** x is at least the ratio n / d, rounded up somewhere. */
  ghost predicate AtLeastRatio(x: nat, n: nat, d: nat) {
    n * WAD <= x * d
  }

  lemma MulUpRatio(x: nat, n: nat, d: nat)
    requires AtLeastRatio(x, n, d)
    ensures AtLeastRatio(MulUp(x, x), n * n, d * d)
  {
    var p := MulUp(x, x);
    MulMono2(n * WAD, x * d, n * WAD, x * d);
    assert (x * d) * (x * d) == (x * x) * (d * d);
    MulMono(x * x, p * WAD, d * d);
    assert p * WAD * (d * d) == p * (d * d) * WAD;
    assert (n * WAD) * (n * WAD) == (n * n * WAD) * WAD;
    MulCancel(n * n * WAD, p * (d * d), WAD);
  }

  /** The fast path's power, like its base, is never below the true ratio. */
  lemma PowUpRatio(x: nat, n: nat, d: nat, e: nat)
    requires FastExponent(e) && AtLeastRatio(x, n, d)
    ensures PowUp(x, e * WAD, true).Ok?
    ensures AtLeastRatio(PowUp(x, e * WAD, true).value, Power(n, e), Power(d, e))
  {
    if e > 1 { MulUpRatio(x, n, d); }
    if e == 4 { MulUpRatio(MulUp(x, x), n * n, d * d); }
  }

  /** Exact in: the weighted product of the two balances does not fall. */
  lemma OutKeepsProduct(balIn: nat, weightIn: nat, balOut: nat, weightOut: nat, amountIn: nat, e: nat)
    requires FastExponent(e) && DivDown(weightIn, weightOut) == Ok(e * WAD)
    requires CalcOutGivenIn(balIn, weightIn, balOut, weightOut, amountIn, true).Ok?
    ensures var out := CalcOutGivenIn(balIn, weightIn, balOut, weightOut, amountIn, true).value;
            && out <= balOut
            && Power(balIn, e) * balOut <= Power(balIn + amountIn, e) * (balOut - out)
  {
    var base := DivUp(balIn, balIn + amountIn).value;
    PowUpRatio(base, balIn, balIn + amountIn, e);
    var power := PowUp(base, e * WAD, true).value;
    PowerMono(balIn, balIn + amountIn, e);
    OutOfRatio(power, Power(balIn, e), Power(balIn + amountIn, e), balOut, MulDown(balOut, Complement(power)));
  }

  lemma OutOfRatio(power: nat, n: nat, d: nat, balOut: nat, out: nat)
    requires AtLeastRatio(power, n, d) && n <= d && out * WAD <= balOut * Complement(power)
    ensures out <= balOut && n * balOut <= d * (balOut - out)
  {
    MulMono(Complement(power), WAD, balOut);
    MulCancel(out, balOut, WAD);
    if power < WAD {
      assert balOut * (WAD - power) == balOut * WAD - balOut * power;
      MulMono(balOut * power, (balOut - out) * WAD, d);
      MulMono(n * WAD, power * d, balOut);
      assert n * WAD * balOut == (n * balOut) * WAD;
      assert power * d * balOut == balOut * power * d;
      assert (balOut - out) * WAD * d == (d * (balOut - out)) * WAD;
      MulCancel(n * balOut, d * (balOut - out), WAD);
    } else {
      MulMono(n, d, balOut);
    }
  }

  /** Exact out: the weighted product of the two balances does not fall. */
  lemma InKeepsProduct(balIn: nat, weightIn: nat, balOut: nat, weightOut: nat, amountOut: nat, e: nat)
    requires FastExponent(e) && DivUp(weightOut, weightIn) == Ok(e * WAD)
    requires CalcInGivenOut(balIn, weightIn, balOut, weightOut, amountOut, true).Ok?
    ensures amountOut <= balOut
    ensures var paid := CalcInGivenOut(balIn, weightIn, balOut, weightOut, amountOut, true).value;
            balIn * Power(balOut, e) <= (balIn + paid) * Power(balOut - amountOut, e)
  {
    RatioLeavesMost(balOut, amountOut);
    var base := DivUp(balOut, balOut - amountOut).value;
    PowUpRatio(base, balOut, balOut - amountOut, e);
    var power := PowUp(base, e * WAD, true).value;
    InOfRatio(power, Power(balOut, e), Power(balOut - amountOut, e), balIn, MulUp(balIn, power - WAD));
  }

  lemma InOfRatio(power: nat, n: nat, d: nat, balIn: nat, paid: nat)
    requires AtLeastRatio(power, n, d) && WAD <= power && balIn * (power - WAD) <= paid * WAD
    ensures balIn * n <= (balIn + paid) * d
  {
    assert balIn * (power - WAD) == balIn * power - balIn * WAD;
    MulMono(balIn * power, (balIn + paid) * WAD, d);
    MulMono(n * WAD, power * d, balIn);
    assert n * WAD * balIn == (balIn * n) * WAD;
    assert power * d * balIn == balIn * power * d;
    assert (balIn + paid) * WAD * d == ((balIn + paid) * d) * WAD;
    MulCancel(balIn * n, (balIn + paid) * d, WAD);
  }
}
