# Market arithmetic, proved

The registry tools re-implement the arithmetic of several on-chain markets in exact integers: Fluid's
DEX and the Liquidity layer under it, Curve's stableswap and Twocrypto pools, Balancer's weighted
pools and Pendle's PT market. Quotes are only as good as those ports, and several of them carry state
from one swap to the next. This project models that arithmetic in Dafny and proves what the markets
rely on: solvers that land on the exact root, roundings that never favour the trader, packed words that
decode to what was written, and invariants that hold over every run of calls.

A call that raises is an `Err` and leaves no new state. A run is a start state followed by any number of
successful calls (`Start`/`Then`), so a statement about runs covers every reachable state.

| file | part |
|---|---|
| `Arith.dfy` | division, square roots, powers, 256-bit wrap-around |
| `QuadraticSolver.dfy`, `Stableswap.dfy`, `StableQuotes.dfy` | the solver shared by four stableswap ports, `D`, swap quotes and one-coin withdrawals |
| `CurveFees.dfy` | dynamic fees |
| `CubeRoot.dfy`, `WadExponential.dfy` | wrapping cube root and exponential |
| `Twocrypto.dfy`, `TwocryptoRuns.dfy`, `TwocryptoPool.dfy` | `two_stable_exchange`: one step as a function, what steps and runs keep, and the pool as a mutable object |
| `LogExp.dfy`, `Balancer.dfy`, `BalancerRuns.dfy` | fixed-point `exp`/`ln`/`pow`, weighted swaps, runs |
| `Pendle.dfy` | a PT sale |
| `Bits.dfy`, `Words.dfy`, `BigNumber.dfy` | bit fields, masked write-backs and the packed floating format of Fluid's words |
| `Liquidity.dfy`, `LiquiditySteps.dfy`, `LiquidityWords.dfy`, `LiquidityRuns.dfy`, `LiquidityLimits.dfy` | `operate`: as functions on words, step by step, what it writes, what runs keep, what rates and limits mean |
| `FluidPool.dfy`, `FluidSteps.dfy`, `FluidWords.dfy`, `FluidQuotes.dfy`, `FluidRuns.dfy` | `swap_in`: as functions, step by step, what it records, what prices and routing guarantee, what runs keep |

The stateful parts come twice: a function that gives the result as a value, on which the theorems are
stated, and a method with the loops and assignments of the port, proved to compute that function
(`...Loop`, `...Steps`, and the class `TwocryptoPool.Pool`).

The weighted-pool port says that a range error is the only way its intermediates could leave 256 bits;
`LogExp.PowAgrees` proves that no intermediate does once the guards have passed.

## Model

| member | source | states |
|---|---|---|
| QuadraticSolver.SolveBrackets | tools/registry/crypto_math.py:463-470 | Started at any D > 0, the loop never divides by zero, and if it stops it returns the exact integer root R of y² + (b − D)y = c, or R + 1. |
| QuadraticSolver.RootIsRoot | tools/registry/crypto_math.py:463-470 | Every such quadratic has that root, given in closed form by an integer square root. |
| QuadraticSolver.RootUnique | tools/registry/crypto_math.py:463-470 | There is only one. |
| QuadraticSolver.StepHalves | tools/registry/crypto_math.py:463-470 | From above the root, one round at least halves the distance to it and never crosses it. |
| QuadraticSolver.StepSquares | tools/registry/crypto_math.py:463-470 | Within a fraction 1/K of the root above it, one round leaves at most 1/K² of it. |
| QuadraticSolver.SolveConverges | tools/registry/crypto_math.py:463-470 | If the first iterate is less than 2^254 above the root, the 255-round cap is never reached. |
| QuadraticSolver.SolveConvergesFar | tools/registry/crypto_math.py:463-470 | Nor is it reached from a first iterate of up to 2^(252 − j) times a root below 2^(2^j): 2^242 times a root of 1024 bits. |
| QuadraticSolver.SolveRunsOut | tools/registry/crypto_math.py:463-470 | The other side, for b at most D: if the first iterate is 2^254 times the root (plus three) or more, the cap is always reached. |
| QuadraticSolver.SolveNearlyAntitone | tools/registry/discover_exits.py:234-242 | Raising b and lowering c at one D raises the returned value by at most one. |
| QuadraticSolver.SolveLoop | tools/registry/discover_unwraps.py:264-271 | The loop with its previous-value test computes the modelled iteration for all inputs, errors included. |
| Stableswap.GetYLoop | tools/registry/discover_exits.py:275-294 | The whole balance solver, with the loop over coins that builds c and the sum, for all inputs and all error paths. |
| Stableswap.GetYBrackets | tools/registry/discover_exits.py:222-242 | A solved balance is the exact root of the pool's quadratic or one more, and division by zero can only come from a missing balance or amplification. |
| Stableswap.GetYConverges | tools/registry/discover_exits.py:275-294 | In terms of balances, amplification and D: the solver succeeds whenever d·d + c < 2^254·(d + b), with b and c from the sum and the chain. |
| Stableswap.GetYConvergesFar | tools/registry/discover_exits.py:275-294 | It also succeeds whenever d·d + c is at most 2^(252 − j)·(d + b) times the root plus one, for a root below 2^(2^j). |
| Stableswap.GetYRunsOut | tools/registry/discover_exits.py:275-294 | With b at most D it raises whenever d·d + c is at least 2^254·(d + b) times the root plus three. |
| Stableswap.GetYCanRunOut | tools/registry/discover_unwraps.py:253-271 | Such inputs exist: eight coins, seven of them at one unit, an amplification of 200 and D = 2^80 exhaust the 255 rounds. |
| Stableswap.GetYNearlyAntitone | tools/registry/discover_unwraps.py:253-271 | With D fixed, raising any of the other balances never raises the solved one by more than one. |
| Stableswap.SolvedNonNegative | tools/registry/crypto_math.py:448-470 | A solved balance is never negative. |
| Stableswap.GetDLoop | tools/registry/discover_exits.py:198-219 | The D loop, with both ways of dividing by N^N, computes the modelled iteration. |
| Stableswap.GetDNonNegative | tools/registry/discover_exits.py:256-272 | For non-negative balances D is never negative when the amplification times the number of coins is at least its precision. |
| Stableswap.GetDCanBeNegative | tools/registry/discover_exits.py:198-219 | Below that it can be: balances 5, 1, 1 with an amplification of 5 in units of 1/100 give −4, through a negative divisor in the second round. |
| Stableswap.GetDBalanced | tools/registry/discover_exits.py:198-219 | For n equal balances x, D is exactly n·x, in every precision and with either way of dividing. |
| StableQuotes.RawOutNearlyMonotone | tools/registry/discover_exits.py:304-309 | At one D, putting more in never takes less out, up to one common unit. |
| StableQuotes.NgRawOutNearlyMonotone | tools/registry/discover_exits.py:304-311 | The same for an NG pool from the amounts in the coin's own units, at the D the pool computes, whenever that D is not negative. |
| StableQuotes.CurveGetDyNearlyMonotone | tools/registry/discover_exits.py:245-250 | A plain pool's final quote is monotone in the input up to one common unit plus one of the coin, through scaling and fee, whenever D is not negative. |
| StableQuotes.NgGetDyBetween | tools/registry/discover_exits.py:297-311 | An NG quote lies between what the highest and the lowest fee of the pool would leave, for outputs of either sign. |
| StableQuotes.ReducedLoop | tools/registry/discover_unwraps.py:285-295 | The list-filling loop of a one-coin withdrawal computes the fee-reduced balances, stopping at the first coin that reverts. |
| StableQuotes.WithdrawLoop | tools/registry/discover_unwraps.py:281-296 | The two solver runs around that loop compute the withdrawn amount. |
| StableQuotes.WithdrawNeverGains | tools/registry/discover_unwraps.py:274-296 | The imbalance fee never pays the withdrawer: at most one unit more than without it. |
| StableQuotes.WithdrawAtMostFeeless | tools/registry/discover_unwraps.py:274-296 | After the unit kept back, a one-coin withdrawal pays no more than the fee-less difference of the coin's balance. |
| CurveFees.TwoFee | tools/registry/crypto_math.py:248-252 | For all balances the fee lies between its two ends and no checked subtraction underflows. |
| CurveFees.TriFee | tools/registry/crypto_math.py:410-423 | The same for three coins, through three nested floors. |
| CurveFees.TwoStableFee | tools/registry/crypto_math.py:473-482 | The fee is within its clamps and, for non-negative balances, between its ends clamped the same way. |
| CurveFees.DynamicFee | tools/registry/discover_exits.py:297-301 | An NG fee lies between the base fee and its off-peg multiple, and fails only for an empty pair. |
| CurveFees.MeansTwo | tools/registry/crypto_math.py:248-252 | The mean inequality for two balances that the bound rests on. |
| CurveFees.MeansThree | tools/registry/crypto_math.py:410-418 | The mean inequality for three balances. |
| CurveFees.ThreeFloors | tools/registry/crypto_math.py:410-418 | Three floored ratios in a row never exceed one. |
| CubeRoot.Cbrt | tools/registry/crypto_math.py:94-110 | With every operation wrapping at 256 bits, the loop returns what unbounded arithmetic would: nothing wraps for any uint256. |
| CubeRoot.CbrtBrackets | tools/registry/crypto_math.py:94-110 | For every uint256 x ≥ 1 the result before unscaling is the floor cube root of the scaled radicand or one more. |
| CubeRoot.RadicandFits | tools/registry/crypto_math.py:91-100 | No scaling wraps at either threshold, and every positive x is scaled to at least 1e36. |
| CubeRoot.GuessNear | tools/registry/crypto_math.py:101-103 | The first guess is within 21 % below and 0.1 % above the root. |
| CubeRoot.ErrorSquares | tools/registry/crypto_math.py:104-105 | One Newton round squares the relative error and never undershoots. |
| CubeRoot.RefineReachesRoot | tools/registry/crypto_math.py:104-105 | Seven rounds from the guess reach the root or one more. |
| TwocryptoPool.Pool.Exchange | tools/registry/crypto_math.py:618-751 | The object's storage after an exchange is exactly the modelled step's; the profit floor, solvency and supply accounting survive it. |
| TwocryptoPool.Pool.Tweak | tools/registry/crypto_math.py:659-751 | The field-by-field price update reaches the modelled state, with the same errors. |
| TwocryptoPool.Pool.Assess | tools/registry/crypto_math.py:659-709 | Oracle, last price and both profit counters after the first half of the update. |
| TwocryptoPool.Pool.Rebalance | tools/registry/crypto_math.py:710-751 | An accepted rebalancing and a refused one leave the modelled storage. |
| TwocryptoPool.Pool.Accept | tools/registry/crypto_math.py:734-748 | What an accepted rebalancing writes, burn and release clock included. |
| TwocryptoRuns.StepKeepsFloor | tools/registry/crypto_math.py:674-751 | One exchange keeps the profit floor of either version, rebalanced or not. |
| TwocryptoRuns.RunKeepsFloor | tools/registry/crypto_math.py:674-751 | So does any run: v2.1.0d keeps virtual_price ≥ 1e18 and 2·virtual_price + 1 ≥ xcp_profit + 1e18, v3.0.0 keeps virtual_price ≥ lp_xcp_profit ≥ 1e18. |
| TwocryptoRuns.StepConservesSupply | tools/registry/crypto_math.py:710-751 | For any state and any clock: total_supply − donation_shares is unchanged, donations do not grow, and a burn takes no more than was released. |
| TwocryptoRuns.StepKeepsSupply | tools/registry/crypto_math.py:707-751 | For a sane state and a clock not before the last release: also what is then released is at most what was released less the burn, up to one share, and the stored virtual price is the one of the stored D, scale and supply. |
| TwocryptoRuns.BurnKeepsRelease | tools/registry/crypto_math.py:738-747 | Setting the release clock back after a burn never unlocks more than was left unlocked, and releases at most the release less the burn, up to one share. |
| TwocryptoRuns.ReleasedWithin | tools/registry/crypto_math.py:603-615 | Released donations are between nothing and the unlocked ones, and those at most all. |
| TwocryptoRuns.RunConservesSupply | tools/registry/crypto_math.py:618-751 | Over every run: supply outside donations is conserved, donations never grow, each exchange burns no more than was released at its time, and all burns together no more than all releases. |
| TwocryptoRuns.RunStaysSolvent | tools/registry/crypto_math.py:618-751 | Over any run with a clock that does not go back the pool stays solvent, and each burn leaves released at most the release less the burn, up to one share. |
| TwocryptoRuns.StepFramed | tools/registry/crypto_math.py:659-751 | Scale, oracle, supply and donations move only in a timestamp's first exchange; a new scale lies between the old one and the oracle, at most a fifth of the way up to a unit. |
| TwocryptoRuns.NewScaleMoves | tools/registry/crypto_math.py:711-722 | The proposed scale is the old one or such a move toward the target. |
| TwocryptoRuns.RunWithinBlock | tools/registry/crypto_math.py:659-672 | No number of further exchanges at a timestamp already seen moves scale, oracle, supply or donations. |
| TwocryptoRuns.StepKeepsSolvent | tools/registry/crypto_math.py:618-658 | At any amplification balances and supply stay well defined and nothing is overdrawn; at one of a half or more D stays non-negative too. |
| TwocryptoRuns.TradePays | tools/registry/crypto_math.py:636-658 | A trade pays a non-negative amount that the balance covers. |
| TwocryptoRuns.ExchangePaysQuote | tools/registry/crypto_math.py:485-504 | An exchange that goes through pays exactly what the view, written out as its own computation, quotes on the state before it. |
| TwocryptoRuns.BoughtNearlyMonotone | tools/registry/crypto_math.py:485-504 | Putting more in never takes less out before fees, up to one common unit. |
| LogExp.PowAgrees | tools/registry/balancer_math.py:137-154 | For all x and y, the power computed in wrapping int256 and in unbounded integers is the same, errors included. |
| LogExp.ExpAgrees | tools/registry/balancer_math.py:110-134 | The exponential fits int256, succeeds exactly within its bounds, is at least one for x ≥ 0 and at most one below. |
| LogExp.ReduceLeavesRemainder | tools/registry/balancer_math.py:123-128 | The argument reduction is exact: it leaves the argument modulo the smallest table entry. |
| LogExp.LnReduceFits | tools/registry/balancer_math.py:95-98 | The reduced argument of the logarithm stays at or above one and fits int256. |
| LogExp.LnFits | tools/registry/balancer_math.py:83-107 | The logarithm of every positive int256 fits int256 and succeeds. |
| LogExp.Ln36Fits | tools/registry/balancer_math.py:71-80 | So does the 36-decimal logarithm on its interval. |
| LogExp.ExpLoop | tools/registry/balancer_math.py:115-134 | The two table loops compute the modelled exponential in either width. |
| LogExp.LnLoop | tools/registry/balancer_math.py:86-107 | The logarithm's loops do. |
| LogExp.Ln36Loop | tools/registry/balancer_math.py:71-80 | The 36-decimal logarithm's loop does. |
| LogExp.AtanhLoop | tools/registry/balancer_math.py:101-106 | The odd-power series loop does. |
| Balancer.MulDown | tools/registry/balancer_math.py:159-160 | The product is rounded down by less than one unit. |
| Balancer.MulUp | tools/registry/balancer_math.py:163-165 | The product is rounded up by less than one unit. |
| Balancer.DivDown | tools/registry/balancer_math.py:168-171 | The quotient is rounded down by less than one unit and fails exactly for a zero divisor. |
| Balancer.DivUp | tools/registry/balancer_math.py:174-177 | The quotient is rounded up by less than one unit and fails exactly for a zero divisor. |
| Balancer.PowUpRatio | tools/registry/balancer_math.py:184-192 | On the fast path a power of a rounded-up ratio is still at least the true ratio's power. |
| Balancer.OutKeepsProduct | tools/registry/balancer_math.py:199-205 | Exact-in: the weighted product of the two balances does not fall, and the output is covered. |
| Balancer.InKeepsProduct | tools/registry/balancer_math.py:208-216 | Exact-out: the same, with the charged input. |
| BalancerRuns.SwapInKeepsProduct | tools/registry/balancer_math.py:221-227 | The same through fee and decimal scaling. |
| BalancerRuns.SwapOutKeepsProduct | tools/registry/balancer_math.py:230-236 | The same for exact-out through scaling, rounding up and fee. |
| BalancerRuns.RunKeepsProduct | tools/registry/balancer_math.py:221-236 | In an equal-weight pool of any size no run of swaps lowers the product of all balances. |
| BalancerRuns.NoFreeTokens | tools/registry/balancer_math.py:221-236 | If after any run no other balance has grown, the remaining one has not shrunk. |
| BalancerRuns.RoundTripLoses | tools/registry/balancer_math.py:221-227 | A swap there and back never returns more than was paid. |
| Pendle.SaleAtMostPar | tools/registry/pendle_math.py:165-205 | A sale pays at most par together with its fee, the reserve's part is at most the fee, nothing is negative. |
| Pendle.QuotedWithin | tools/registry/pendle_math.py:186-205 | The same bounds for the priced sale, whatever the rate curve. |
| Pendle.PricedWithin | tools/registry/pendle_math.py:187-191 | The fee lies between nothing and the proceeds before it, so the net amount is never negative and its rounding-up conversion never taken; the reserve's part is within the fee. |
| Pendle.InSyWithin | tools/registry/pendle_math.py:134-141 | Conversion to SY keeps those bounds through its floors. |
| Pendle.FeeRateAtLeastOne | tools/registry/pendle_math.py:161-162 | A fee root of zero or more gives a fee rate of at least one. |
| BigNumber.DownIsRounded | tools/registry/fluid_math.py:76-94 | Encoding down and decoding clears exactly the bits that do not fit, loses less than one unit of the exponent, and fits its field. |
| BigNumber.RoundedDownMono | tools/registry/fluid_math.py:76-94 | That rounding is monotone. |
| BigNumber.RoundedDownAtMost | tools/registry/fluid_math.py:76-94 | It is never above its input. |
| BigNumber.RoundedDownIdempotent | tools/registry/fluid_math.py:76-94 | It is idempotent. |
| BigNumber.UpIsAbove | tools/registry/fluid_math.py:76-94 | Encoding up, carry included, is never below its input, at most one unit of the exponent above it, and fits its field. |
| Words.WriteBackField | tools/registry/fluid_math.py:359-366 | If a mask clears exactly the slots written, each slot of the new word reads back the value written. |
| Words.WriteBackKeeps | tools/registry/fluid_math.py:359-366 | Every bit outside the slots is what it was. |
| LiquidityWords.TotalWritten | tools/registry/fluid_math.py:368-386 | The same for each of the four totals. |
| LiquidityRuns.SupplyTotalWritten | tools/registry/fluid_math.py:367-388 | A supply moves one stored total, rounded down, and no bit of the other three. |
| LiquidityRuns.BorrowTotalWritten | tools/registry/fluid_math.py:429-450 | A borrow moves one stored total, rounded up by at most one unit of its exponent, and no bit of the other three. |
| LiquidityRuns.SupplyStored | tools/registry/fluid_math.py:345-366 | Whatever plan is stored, amount, limit and decaying part read back rounded down, checkpoints and time as stored, and every other bit is kept. |
| LiquidityRuns.SupplyLegWritten | tools/registry/fluid_math.py:275-366 | Every successful supply or withdrawal, with a timestamp below 2^33, writes its five fields so that they read back, and keeps mode, expansion, base limit and pause bit for bit. |
| LiquidityRuns.BorrowLegWritten | tools/registry/fluid_math.py:389-428 | Every successful borrow or payback writes its three fields so that they read back, the debt rounded up and the limit down, and keeps every other bit. |
| LiquidityRuns.ConfigAfterWritten | tools/registry/fluid_math.py:451-515 | The configuration word is kept, or its seven fields read back the rate, utilization, time, prices and ratios computed, and every other bit is kept. |
| LiquidityRuns.OperateWrites | tools/registry/fluid_math.py:251-521 | Every successful `operate`: an unused side keeps its word and totals, a used one all bits beside its fields, and the configuration is kept or rewritten as above. |
| LiquiditySteps.PlanSteps | tools/registry/fluid_math.py:282-344 | Decay, conversion, limit check and new decay, assignment by assignment, give the modelled plan. |
| LiquiditySteps.SupplySteps | tools/registry/fluid_math.py:275-388 | The whole supply side gives the modelled words and totals. |
| LiquiditySteps.BorrowSteps | tools/registry/fluid_math.py:389-450 | The whole borrow side does. |
| LiquiditySteps.ConfigSteps | tools/registry/fluid_math.py:451-515 | Ratios, utilization, the nested write conditions and the configuration word do. |
| LiquiditySteps.OperateSteps | tools/registry/fluid_math.py:251-521 | `operate` as a whole computes the modelled token or raises the modelled error. |
| LiquidityLimits.OperateNeverUnderflows | tools/registry/fluid_math.py:251-521 | With positive prices and recorded times not in the future, no amount, limit, total, ratio or price is negative, so the one error the model adds never occurs. |
| LiquidityRuns.PlanKeepsLimit | tools/registry/fluid_math.py:282-344 | Through expansion, decay, deposit and withdrawal the new limit is at most the new supply, before rounding. |
| LiquidityRuns.SupplyLegKeepsLimit | tools/registry/fluid_math.py:275-366 | The stored limit is at most the stored supply after it, if it was before. |
| LiquidityRuns.SupplyLegValue | tools/registry/fluid_math.py:282-366 | A stored supply is worth at most what it was plus what was put in, with or without interest. |
| LiquidityRuns.BorrowLegValue | tools/registry/fluid_math.py:389-428 | A stored debt is worth at least what it was plus what was taken out. |
| LiquidityRuns.PricesGrow | tools/registry/fluid_math.py:111-143 | With a fee of at most 100 %, or no interest, exchange prices are positive and never below the stored ones. |
| LiquidityRuns.PricesMonotone | tools/registry/fluid_math.py:111-143 | Under the same condition both prices never fall from any time to any later one. |
| LiquidityRuns.SupplyPriceCondition | tools/registry/fluid_math.py:111-143 | The supply price never falls if and only if the fee is at most 100 % or the interest that reaches suppliers is zero. |
| LiquidityLimits.FeeAboveAllLowersPrice | tools/registry/fluid_math.py:111-143 | A configuration word with a fee of 100.01 % whose supply price falls by a ten-thousandth in a year. |
| LiquidityRuns.ConfigAfterKeepsPrices | tools/registry/fluid_math.py:451-515 | Whether or not the configuration word is rewritten, at the same time it gives the same exchange prices, for any positive prices. |
| LiquidityLimits.RateLineBetween | tools/registry/fluid_math.py:202-208 | Between its two points a rate line starts at the first, stays between both rates and is never negative, rising or falling. |
| LiquidityLimits.PackedRatioDecodes | tools/registry/fluid_math.py:455-476 | A packed ratio tells which total is the smaller and its share of the larger one to within 1/10000. |
| LiquidityLimits.WithdrawalLimitExpands | tools/registry/fluid_math.py:146-157 | The amount that must stay shrinks with time, and never below the supply less one full expansion. |
| LiquidityLimits.BorrowLimitExpands | tools/registry/fluid_math.py:169-182 | The borrow limit grows with time and stays within the larger of base and hard limit. |
| LiquidityLimits.WithdrawalRespectsLimit | tools/registry/fluid_math.py:294-316 | A withdrawal leaves at least the amount that had to stay, so once a limit is stored none takes more than one full expansion of the supply. |
| LiquidityLimits.BorrowRespectsLimit | tools/registry/fluid_math.py:389-417 | A borrow leaves a debt, before rounding, within the larger of base and hard limit. |
| LiquidityLimits.DecayShrinks | tools/registry/fluid_math.py:283-293 | Decaying never raises the decaying part or its checkpoints. |
| LiquidityRuns.OperateEffect | tools/registry/fluid_math.py:251-521 | At positive prices one operation keeps prices and limit, gains the user no more than was put in, and moves the layer's cash by exactly what was pulled and paid. |
| LiquidityRuns.RunKeepsLimit | tools/registry/fluid_math.py:251-521 | Over any run with a clock that does not go back and positive prices at each call, the stored limit never exceeds the stored supply. |
| LiquidityRuns.RunStaysPositive | tools/registry/fluid_math.py:251-521 | A fee of at most 100 % at the start of such a run makes the prices of every call positive. |
| LiquidityRuns.RunGainsNothing | tools/registry/fluid_math.py:251-521 | At one timestamp with positive prices, over any run, prices stay the same and supply minus debt rises by no more than the net amount put in. |
| FluidSteps.RangeSteps | tools/registry/fluid_math.py:541-598 | The range that is recomputed only when the center has moved equals the range of the final center. |
| FluidSteps.PriceSteps | tools/registry/fluid_math.py:684-764 | Reserves, routing, both legs and the price, assignment by assignment; the last routing error is not needed. |
| FluidSteps.SettleSteps | tools/registry/fluid_math.py:771-794 | Both operations on the list of tokens and the utilization cap. |
| FluidSteps.SwapSteps | tools/registry/fluid_math.py:681-831 | `swap_in` as a whole computes the modelled swap or raises the modelled error. |
| FluidQuotes.RangesOrdered | tools/registry/fluid_math.py:541-598 | lower ≤ center ≤ upper; the center is within its bounds exactly when those are ordered; mean² ≤ upper·lower in both precisions; and for a range with a width the mean of 1e27 or more is at least the lower edge. |
| FluidQuotes.ShiftStaysInRange | tools/registry/fluid_math.py:562-581 | A shift never leaves the range it starts from. |
| FluidQuotes.MeanWithin | tools/registry/fluid_math.py:594-597 | The mean is at most the upper edge and less than one unit of its precision below the lower one, and in the fine precision the exact floor root. |
| FluidQuotes.CoarseMeanAboveLower | tools/registry/fluid_math.py:594-597 | In the coarse precision a range with a width still has its mean above the lower edge. |
| FluidQuotes.OutsideRangeExact | tools/registry/fluid_math.py:601-608 | The imaginary reserve is exactly the floor of the non-negative root of z² − 2pz − q. |
| FluidQuotes.ScaledProductWithin | tools/registry/fluid_math.py:604-605 | In either order of operations q is the quotient to within its precision. |
| FluidQuotes.DebtRootExact | tools/registry/fluid_math.py:628-634 | The same for debt reserves, for a linear term of either sign; the negative check never fires. |
| FluidQuotes.DebtNonNegative | tools/registry/fluid_math.py:628-644 | All four debt reserves are non-negative and each imaginary one is at least the real one. |
| FluidQuotes.SidesNonNegative | tools/registry/fluid_math.py:611-661 | Both sides of every followed pool have non-negative reserves. |
| FluidQuotes.RouteConserves | tools/registry/fluid_math.py:726-733 | Every amount has a route; its parts are non-negative and add up to it. |
| FluidQuotes.RoutingBalances | tools/registry/fluid_math.py:668-671 | With p and q the computed roots, abs((y + a)·q − (y2 + t − a)·p) < p + q. |
| FluidQuotes.RoutedLegsPositive | tools/registry/fluid_math.py:723-733 | A routed leg always has both of its reserves. |
| FluidQuotes.RoutingIsOptimal | tools/registry/fluid_math.py:668-671 | Over the reals and without fees, the formula's split, cut off at the ends, gives the largest output of all splits. |
| FluidQuotes.CreditCoversPriced | tools/registry/fluid_math.py:703-754 | With a revenue cut of at most 100, or no fee, the credited amount is at least the amount priced, and at most the amount given. |
| FluidQuotes.CreditCondition | tools/registry/fluid_math.py:703-754 | The credit covers the priced amount for every amount if and only if the cut is at most 100 or the fee is zero. |
| FluidQuotes.OutKeepsProduct | tools/registry/fluid_math.py:664-665 | The product of the imaginary reserves does not fall and the output stays below its reserve. |
| FluidQuotes.LegProductCondition | tools/registry/fluid_math.py:703-764 | Every priced leg, for all reserves, amounts, centers and both directions, keeps its product if and only if the cut is at most 100 or the fee is zero. |
| FluidQuotes.LegLosesProduct | tools/registry/fluid_math.py:703-764 | For every other fee and cut, reserves and an amount of 1e8 on which (in + credited)·(out − paid) < in·out, in either direction. |
| FluidQuotes.LegLeavesReserves | tools/registry/fluid_math.py:737-752 | After a leg the output reserve is not negative and, at the center price, not ten thousand times smaller than the input reserve, up to a unit. |
| FluidPool.Accepted | tools/registry/fluid_math.py:674-678 | A price passes only if it is positive and within five per cent of its reference. |
| FluidWords.RecordedWritten | tools/registry/fluid_math.py:795-829 | Every successful recording with a timestamp below 2^33: time, reference, center, rounded price and, with the oracle on, elapsed time and position read back; every other bit is kept; the price is within the band of the recorded reference. |
| FluidWords.RecordedNeverUnderflows | tools/registry/fluid_math.py:795-829 | With a recorded time not in the future the elapsed time is never negative, so the one error the model adds never occurs. |
| FluidRuns.PricedSides | tools/registry/fluid_math.py:695-733 | In a priced swap no reserve is negative, the split adds up to the admitted amount, and a leg is used only if it has an input reserve. |
| FluidRuns.SwapKeepsProducts | tools/registry/fluid_math.py:681-831 | On each leg a successful swap uses, with a cut of at most 100 or no fee: (in + credited)·(out − paid) ≥ in·out, paid is below the imaginary and within the real reserve. |
| FluidRuns.SettledWithinCaps | tools/registry/fluid_math.py:771-794 | The layer gets the credited amount to one per cent more, the output token stays within its utilization cap, and the layer held what it paid. |
| FluidRuns.SwapKeepsSurplus | tools/registry/fluid_math.py:765-831 | The layer's cash moves by exactly the input and the output, and on neither token does the pool's position gain more than the cash. |
| FluidRuns.SwapRecords | tools/registry/fluid_math.py:795-831 | Which of reference, center and price a swap moves, by whether it is its block's first. |
| FluidRuns.RunKeepsReference | tools/registry/fluid_math.py:795-831 | Over any run at one timestamp the reference and the stored center stay where the first swap left them, and every price is within five per cent of that reference. |
| FluidRuns.RunKeepsSurplus | tools/registry/fluid_math.py:681-831 | Over any run at one timestamp with positive prices each token's cash changes by exactly what was paid in and out, and the layer's surplus over the pool's position never falls. |
| FluidRuns.RunKeepsLimits | tools/registry/fluid_math.py:681-831 | Over any run with a clock that does not go back and positive prices at each swap neither token's stored withdrawal limit exceeds the stored supply. |
| FluidRuns.RunStaysPositive | tools/registry/fluid_math.py:681-831 | Fees of at most 100 % at the start of such a run make the prices of every swap positive. |

## Left out

- Reading the chain, caching, pacing and writing reports: everything in the discovery tools beside the named formulas.
- The Rust engine, router and undo ring: not part of this model.
- `two_get_y`, `tri_get_y` and their `newton_y` fallbacks: their meaning rests on real analysis of the Curve v2 invariant.
- Convergence of the D iteration in general; it may raise in the model as in the code, and no statement needs it.
- Accuracy of `exp`, `ln` and `wad_exp` against the real functions. `wad_exp` is modelled with all its wrapping and no bound on it is assumed.
- Storage left behind by a raising `two_stable_exchange`: `TwocryptoPool.Pool.Exchange` says nothing about the fields after an error.
- A stored-debt-within-stored-limit invariant: the debt rounds up and the limit down, so it does not hold.
- Arguments of the wrong sign where the ports never get them: negative token amounts in Balancer and stableswap quotes, a negative `pt_in`, a fee above 100 % in a Balancer swap.
- QuadraticSolver.SolveConverges: not an exact condition; with SolveConvergesFar and SolveRunsOut it leaves open, for b at most D, first iterates between 2^(252 − j) and 2^254 times the root, where floors decide the last rounds.
- QuadraticSolver.SolveConvergesFar: the same; for b above D the steps shrink faster than by half and no converse is given.
- QuadraticSolver.SolveRunsOut: the converse for b at most D only.
- Stableswap.GetYConverges: the same on balances, amplification and D, as are GetYConvergesFar and GetYRunsOut.
- Stableswap.GetDNonNegative: one direction; below that amplification whether D turns negative depends on single floors of the products, so an exact condition is out of reach and the quotes built on D ask for a non-negative one instead.
- LiquidityRuns.OperateEffect: stated for positive exchange prices; at a price of zero or below the conversions divide by it or change sign.
- FluidRuns.PricedSides: stated for positive exchange prices and for range words below 100 % with a width; a zero-width range makes the reserve formula divide by zero or by a negative difference. The same holds for SwapKeepsProducts, SwapKeepsSurplus and the runs built on them.
- LiquiditySteps.PlanSteps: raises Underflow for a negative balance, where the port would go on with it; OperateNeverUnderflows gives the condition under which there is none.
- LiquiditySteps.SupplySteps: the same, and for a negative total.
- LiquiditySteps.BorrowSteps: raises Underflow for a negative debt or limit, where the port would encode it; the same condition.
- LiquiditySteps.ConfigSteps: raises Underflow for a negative price, ratio or utilization, where the port would build a negative word; the same condition.
- LiquiditySteps.OperateSteps: differs from the port in those errors only.
- FluidSteps.SettleSteps: inherits them through both operations.
- FluidSteps.SwapSteps: inherits them, and raises Underflow for a recorded time in the future with the oracle on, where the port would build a negative word; RecordedNeverUnderflows gives the condition.
