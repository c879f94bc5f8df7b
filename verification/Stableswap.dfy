/** Stableswap pools: the balance solver of the four ports and the invariant D. Amounts are
    integers; a division by zero is an error. */
module Stableswap {
  import opened Arith
  import opened QuadraticSolver

  // ----- solving for one balance -----

  /** Sum of all balances but the j-th, over the first n coins. */
  function SumOthers(xp: seq<int>, j: nat, n: nat): int
    requires n <= |xp|
  {
    if n == 0 then 0
    else SumOthers(xp, j, n - 1) + (if n - 1 == j then 0 else xp[n - 1])
  }

  /** The running product c := c d / (x |xp|) over the first n coins, skipping the j-th. */
  function Chain(xp: seq<int>, j: nat, d: int, n: nat): Result<int>
    requires n <= |xp|
  {
    if n == 0 then Ok(d)
    else
      var c :- Chain(xp, j, d, n - 1);
      if n - 1 == j then Ok(c)
      else if xp[n - 1] == 0 then Err(DivisionByZero)
      else Ok(ChainStep(c, d, xp[n - 1], |xp|))
  }

  function ChainStep(c: int, d: int, x: int, n: nat): int
    requires x != 0 && 0 < n
  {
    assert x * n != 0 by { if 0 < x { MulMono(1, x, n); } else { MulMono(x, -1, n); } }
    FloorDiv(c * d, x * n)
  }

  /** Constant term of the quadratic, from the finished chain. */
  function LastTerm(c: int, d: int, amp: nat, n: nat, prec: nat): int
    requires 0 < amp * n * n
  {
    c * d * prec / (amp * n * n)
  }

  /** The balance of coin j that restores invariant d, given all the others. */
  function GetY(xp: seq<int>, j: nat, amp: nat, prec: nat, d: int): Result<int> {
    var n := |xp|;
    var c :- Chain(xp, j, d, n);
    if amp * n * n == 0 then Err(DivisionByZero)
    else Solve(SumOthers(xp, j, n) + d * prec / (amp * n), LastTerm(c, d, amp, n, prec), d)
  }

  /** The loop form shared by all four ports. */
  method GetYLoop(xp: seq<int>, j: nat, amp: nat, prec: nat, d: int) returns (r: Result<int>)
    ensures r == GetY(xp, j, amp, prec, d)
  {
    var n := |xp|;
    var ann := amp * n;
    var c, s := d, 0;
    for k := 0 to n
      invariant s == SumOthers(xp, j, k) && Chain(xp, j, d, k) == Ok(c)
    {
      if k != j {
        s := s + xp[k];
        if xp[k] == 0 {
          ChainFails(xp, j, d, k + 1, n);
          return Err(DivisionByZero);
        }
        c := ChainStep(c, d, xp[k], n);
      }
    }
    if ann * n == 0 {
      return Err(DivisionByZero);
    }
    assert ann != 0;
    c := c * d * prec / (ann * n);
    r := SolveLoop(s + d * prec / ann, c, d);
  }

  lemma {:induction false} ChainFails(xp: seq<int>, j: nat, d: int, k: nat, n: nat)
    requires k <= n <= |xp| && Chain(xp, j, d, k).Err?
    ensures Chain(xp, j, d, n) == Chain(xp, j, d, k)
  {
    if k < n { ChainFails(xp, j, d, k, n - 1); }
  }

  // ----- what a solved balance is -----

  /** Balances of every coin but the j-th are non-negative and no larger in xp than in xp'. */
  ghost predicate BelowExcept(xp: seq<int>, xp': seq<int>, j: nat) {
    && |xp| == |xp'|
    && forall k :: 0 <= k < |xp| && k != j ==> 0 <= xp[k] <= xp'[k]
  }

  ghost predicate NonNegativeExcept(xp: seq<int>, j: nat) {
    forall k :: 0 <= k < |xp| && k != j ==> 0 <= xp[k]
  }

  lemma {:induction false} SumOthersMono(xp: seq<int>, xp': seq<int>, j: nat, n: nat)
    requires BelowExcept(xp, xp', j) && n <= |xp|
    ensures 0 <= SumOthers(xp, j, n) <= SumOthers(xp', j, n)
  {
    if n > 0 { SumOthersMono(xp, xp', j, n - 1); }
  }

  lemma ChainStepAntitone(c: nat, c': nat, d: nat, x: int, x': int, n: nat)
    requires c' <= c && 0 < x <= x' && 0 < n
    ensures 0 <= ChainStep(c', d, x', n) <= ChainStep(c, d, x, n)
  {
    MulMono(c', c, d);
    MulMono2(0, c', 0, d);
    MulMono(x, x', n);
    MulMono(1, x, n);
    QuotientAntitone(c' * d, x * n, x' * n);
    QuotientMono(c' * d, c * d, x * n);
    QuotientBounds(c' * d, x' * n);
  }

  lemma {:induction false} ChainAntitone(xp: seq<int>, xp': seq<int>, j: nat, d: nat, n: nat)
    requires BelowExcept(xp, xp', j) && n <= |xp|
    requires Chain(xp, j, d, n).Ok? && Chain(xp', j, d, n).Ok?
    ensures 0 <= Chain(xp', j, d, n).value <= Chain(xp, j, d, n).value
  {
    if n > 0 {
      ChainAntitone(xp, xp', j, d, n - 1);
      if n - 1 != j {
        ChainStepAntitone(Chain(xp, j, d, n - 1).value, Chain(xp', j, d, n - 1).value, d,
                          xp[n - 1], xp'[n - 1], |xp|);
      }
    }
  }

  /** A solved balance is the exact integer root of the quadratic the pool states, or one more;
      dividing by zero happens only for a missing balance or amplification. */
  lemma GetYBrackets(xp: seq<int>, j: nat, amp: nat, prec: nat, d: nat, r: int)
    requires NonNegativeExcept(xp, j) && 0 < d
    requires 0 < amp * |xp| * |xp| && Chain(xp, j, d, |xp|).Ok?
    requires var n := |xp|;
             IsRoot(r, SumOthers(xp, j, n) + d * prec / (amp * n) - d,
                    LastTerm(Chain(xp, j, d, n).value, d, amp, n, prec))
    ensures GetY(xp, j, amp, prec, d) != Err(DivisionByZero)
    ensures GetY(xp, j, amp, prec, d).Ok? ==> r <= GetY(xp, j, amp, prec, d).value <= r + 1
  {
    var n := |xp|;
    SumOthersMono(xp, xp, j, n);
    ChainAntitone(xp, xp, j, d, n);
    var c := Chain(xp, j, d, n).value;
    QuadraticIsNonNegative(c, d, amp, n, prec);
    SolveBrackets(SumOthers(xp, j, n) + d * prec / (amp * n), LastTerm(c, d, amp, n, prec), d, r);
  }

  /** The cap is never reached when the quotient that the first round computes is below 2^254. */
  lemma GetYConverges(xp: seq<int>, j: nat, amp: nat, prec: nat, d: nat)
    requires NonNegativeExcept(xp, j) && 0 < d
    requires 0 < amp * |xp| * |xp| && Chain(xp, j, d, |xp|).Ok?
    requires var n := |xp|;
             d * d + LastTerm(Chain(xp, j, d, n).value, d, amp, n, prec)
             < Pow2(MAX_ROUNDS - 1) * (d + (SumOthers(xp, j, n) + d * prec / (amp * n)))
    ensures GetY(xp, j, amp, prec, d).Ok?
  {
    hide Solve, Chain, SumOthers, LastTerm, Pow2;
    var n := |xp|;
    SumOthersMono(xp, xp, j, n);
    ChainAntitone(xp, xp, j, d, n);
    var c := Chain(xp, j, d, n).value;
    QuadraticIsNonNegative(c, d, amp, n, prec);
    var b, last := SumOthers(xp, j, n) + d * prec / (amp * n), LastTerm(c, d, amp, n, prec);
    var r := SomeRoot(b - d, last);
    QuotientBelow(d * d + last, d + b, Pow2(MAX_ROUNDS - 1));
    SolveConverges(b, last, d, r);
  }

  /** Nor when it is at most 2^(252 - j) times a root below 2^(2^j). */
  lemma GetYConvergesFar(xp: seq<int>, j: nat, amp: nat, prec: nat, d: nat, r: int, bits: nat)
    requires NonNegativeExcept(xp, j) && 0 < d
    requires 0 < amp * |xp| * |xp| && Chain(xp, j, d, |xp|).Ok?
    requires bits <= 252 && r + 1 < Pow2(Pow2(bits))
    requires var n := |xp|;
             var b := SumOthers(xp, j, n) + d * prec / (amp * n);
             var c := LastTerm(Chain(xp, j, d, n).value, d, amp, n, prec);
             IsRoot(r, b - d, c) && d * d + c <= (r + 1) * Pow2(252 - bits) * (d + b)
    ensures GetY(xp, j, amp, prec, d).Ok?
  {
    hide Solve, Chain, SumOthers, LastTerm, Pow2;
    var n := |xp|;
    SumOthersMono(xp, xp, j, n);
    ChainAntitone(xp, xp, j, d, n);
    var c := Chain(xp, j, d, n).value;
    QuadraticIsNonNegative(c, d, amp, n, prec);
    var b, last := SumOthers(xp, j, n) + d * prec / (amp * n), LastTerm(c, d, amp, n, prec);
    QuotientAtMost(d * d + last, d + b, (r + 1) * Pow2(252 - bits));
    SolveConvergesFar(b, last, d, r, bits);
  }

  /** When the linear coefficient is at most D, a first quotient of 2^254 times the root always
      reaches it. */
  lemma GetYRunsOut(xp: seq<int>, j: nat, amp: nat, prec: nat, d: nat, r: int)
    requires NonNegativeExcept(xp, j) && 0 < d
    requires 0 < amp * |xp| * |xp| && Chain(xp, j, d, |xp|).Ok?
    requires var n := |xp|;
             var b := SumOthers(xp, j, n) + d * prec / (amp * n);
             var c := LastTerm(Chain(xp, j, d, n).value, d, amp, n, prec);
             b <= d && IsRoot(r, b - d, c) && (r + 3) * Pow2(MAX_ROUNDS - 1) * (d + b) <= d * d + c
    ensures GetY(xp, j, amp, prec, d) == Err(NoConvergence)
  {
    hide Solve, Chain, SumOthers, LastTerm, Pow2;
    var n := |xp|;
    SumOthersMono(xp, xp, j, n);
    ChainAntitone(xp, xp, j, d, n);
    var c := Chain(xp, j, d, n).value;
    QuadraticIsNonNegative(c, d, amp, n, prec);
    var b, last := SumOthers(xp, j, n) + d * prec / (amp * n), LastTerm(c, d, amp, n, prec);
    QuotientAtLeast(d * d + last, d + b, (r + 3) * Pow2(MAX_ROUNDS - 1));
    SolveRunsOut(b, last, d, r);
  }

  /** Eight coins, of which the seven others hold one unit each. */
  ghost function Depleted(): seq<int> {
    [0, 1, 1, 1, 1, 1, 1, 1]
  }

  /** With every other balance one unit, each coin multiplies the chain by d over the coin count. */
  lemma {:induction false} ChainOfUnits(k: nat)
    requires 1 <= k <= 8
    ensures Chain(Depleted(), 0, Pow2(80), k) == Ok(Pow2(80 + 77 * (k - 1)))
    ensures SumOthers(Depleted(), 0, k) == k - 1
  {
    hide Pow2;
    if k == 1 {
      assert Chain(Depleted(), 0, Pow2(80), 0) == Ok(Pow2(80));
    } else {
      ChainOfUnits(k - 1);
      var e := 80 + 77 * (k - 2);
      Pow2Add(e, 80);
      Pow2Add(e + 77, 3);
      EightIsPower();
      QuotientUnique(Pow2(e) * Pow2(80), 8, Pow2(e + 77));
    }
  }

  lemma EightIsPower()
    ensures Pow2(1) == 2 && Pow2(3) == 8 && Pow2(14) == 16_384
  {
    Pow2Add(7, 7);
    assert Pow2(7) == 128;
  }

  /** A bound on the constant term bounds the root. */
  lemma RootBelow(r: int, k: int, c: nat, t: nat, gap: nat)
    requires IsRoot(r, k, c) && 0 <= k + gap && gap <= t && c < t * (t - gap)
    ensures r < t
  {
    assert r * (r + k) == r * r + k * r;
    if t <= r { MulMono2(t, r, t - gap, r + k); }
  }

  /** The quadratic of the depleted pool: its coefficients, to a power of two. */
  lemma DepletedQuadratic()
    ensures Chain(Depleted(), 0, Pow2(80), 8) == Ok(Pow2(619)) && SumOthers(Depleted(), 0, 8) == 7
    ensures Pow2(685) <= LastTerm(Pow2(619), Pow2(80), 20_000, 8, 100) < Pow2(687)
    ensures 7 + Pow2(80) * 100 / 160_000 <= Pow2(80)
  {
    hide Chain, SumOthers, Pow2;
    ChainOfUnits(8);
    EightIsPower();
    Pow2Add(619, 80);
    Pow2Add(685, 14);
    Pow2Add(1, 686);
    Pow2Add(3, 77);
    Pow2Mono(3, 77);
    var p := Pow2(685);
    Pow2Add(1, 685);
    QuotientAtLeast(p * 16_384 * 100, 1_280_000, p);
    QuotientBelow(p * 16_384 * 100, 1_280_000, 4 * p);
  }

  /** The cap is reached on inputs the solver accepts: eight coins with an amplification of 200,
      seven of them at one unit, and D = 2^80. */
  lemma GetYCanRunOut()
    ensures GetY(Depleted(), 0, 20_000, 100, Pow2(80)) == Err(NoConvergence)
  {
    hide Chain, SumOthers, Pow2, LastTerm, IsRoot;
    DepletedQuadratic();
    var d, b := Pow2(80), 7 + Pow2(80) * 100 / 160_000;
    var c := LastTerm(Pow2(619), d, 20_000, 8, 100);
    var r := SomeRoot(b - d, c);
    DepletedRoot(r, b, c);
    GetYRunsOut(Depleted(), 0, 20_000, 100, d, r);
  }

  lemma DepletedRoot(r: int, b: nat, c: nat)
    requires b <= Pow2(80) && Pow2(685) <= c < Pow2(687) && IsRoot(r, b - Pow2(80), c)
    ensures (r + 3) * Pow2(254) * (Pow2(80) + b) <= Pow2(80) * Pow2(80) + c
  {
    hide Pow2;
    EightIsPower();
    Pow2Add(1, 343);
    Pow2Mono(80, 343);
    Pow2Add(344, 343);
    MulMono(Pow2(343), Pow2(344) - Pow2(80), Pow2(344));
    RootBelow(r, b - Pow2(80), c, Pow2(344), Pow2(80));
    Pow2Add(1, 344);
    Pow2Mono(3, 344);
    Pow2Add(1, 80);
    MulMono2(r + 3, Pow2(345), Pow2(254), Pow2(254));
    Pow2Add(345, 254);
    MulMono2((r + 3) * Pow2(254), Pow2(599), Pow2(80) + b, Pow2(81));
    Pow2Add(599, 81);
    Pow2Mono(680, 685);
  }

  lemma QuadraticIsNonNegative(c: nat, d: nat, amp: nat, n: nat, prec: nat)
    requires 0 < amp * n * n
    ensures 0 < amp * n && 0 <= d * prec / (amp * n) && 0 <= LastTerm(c, d, amp, n, prec)
  {
    MulMono2(0, d, 0, prec);
    MulMono2(0, c, 0, d);
    MulMono2(0, c * d, 0, prec);
    QuotientBounds(d * prec, amp * n);
    QuotientBounds(c * d * prec, amp * n * n);
  }

  lemma LastTermMono(c: nat, c': nat, d: nat, amp: nat, n: nat, prec: nat)
    requires 0 < amp * n * n && c' <= c
    ensures LastTerm(c', d, amp, n, prec) <= LastTerm(c, d, amp, n, prec)
    ensures d == 0 ==> LastTerm(c, d, amp, n, prec) == 0
  {
    MulMono(c', c, d);
    MulMono(c' * d, c * d, prec);
    QuotientMono(c' * d * prec, c * d * prec, amp * n * n);
  }

  /** Raising any other balances, at one invariant, never raises the solved balance by more
      than one unit. */
  lemma GetYNearlyAntitone(xp: seq<int>, xp': seq<int>, j: nat, amp: nat, prec: nat, d: nat)
    requires BelowExcept(xp, xp', j)
    requires GetY(xp, j, amp, prec, d).Ok? && GetY(xp', j, amp, prec, d).Ok?
    ensures GetY(xp', j, amp, prec, d).value <= GetY(xp, j, amp, prec, d).value + 1
  {
    hide Solve, Chain, SumOthers, LastTerm;
    var n := |xp|;
    SumOthersMono(xp, xp', j, n);
    ChainAntitone(xp, xp', j, d, n);
    var c, c' := Chain(xp, j, d, n).value, Chain(xp', j, d, n).value;
    LastTermMono(c, c', d, amp, n, prec);
    QuadraticIsNonNegative(c', d, amp, n, prec);
    SolveNearlyAntitoneAll(SumOthers(xp, j, n) + d * prec / (amp * n), LastTerm(c, d, amp, n, prec),
                           SumOthers(xp', j, n) + d * prec / (amp * n), LastTerm(c', d, amp, n, prec), d);
  }

  /** The solver's order, with the empty pool included. */
  lemma SolveNearlyAntitoneAll(b: nat, c: nat, b': nat, c': nat, d: nat)
    requires b <= b' && c' <= c && (d == 0 ==> c == 0)
    requires Solve(b, c, d).Ok? && Solve(b', c', d).Ok?
    ensures Solve(b', c', d).value <= Solve(b, c, d).value + 1
  {
    if d == 0 {
      IterateAtZero(b, MAX_ROUNDS);
      IterateAtZero(b', MAX_ROUNDS);
    } else {
      SolveNearlyAntitone(b, c, b', c', d);
    }
  }

  lemma {:induction false} IterateAtZero(k: nat, rounds: nat)
    ensures Iterate(0, k, 0, rounds).Ok? ==> Iterate(0, k, 0, rounds).value == 0
  {
    if 0 < k { QuotientUnique(0, k, 0); }
  }

  lemma SolvedNonNegative(xp: seq<int>, j: nat, amp: nat, prec: nat, d: nat)
    requires NonNegativeExcept(xp, j) && GetY(xp, j, amp, prec, d).Ok?
    ensures 0 <= GetY(xp, j, amp, prec, d).value
  {
    var n := |xp|;
    SumOthersMono(xp, xp, j, n);
    ChainAntitone(xp, xp, j, d, n);
    var c := Chain(xp, j, d, n).value;
    QuadraticIsNonNegative(c, d, amp, n, prec);
    LastTermMono(c, c, d, amp, n, prec);
    SolveNonNegative(SumOthers(xp, j, n) + d * prec / (amp * n), LastTerm(c, d, amp, n, prec), d);
  }

  lemma SolveNonNegative(b: nat, c: nat, d: nat)
    requires Solve(b, c, d).Ok? && (d == 0 ==> c == 0)
    ensures 0 <= Solve(b, c, d).value
  {
    if d == 0 {
      IterateAtZero(b, MAX_ROUNDS);
    } else {
      var r := SomeRoot(b - d, c);
      SolveBrackets(b, c, d, r);
    }
  }

  // ----- the invariant D -----

  function Sum(xp: seq<int>): int {
    if xp == [] then 0 else Sum(xp[..|xp| - 1]) + xp[|xp| - 1]
  }

  /** The running product d_p := d_p d / x over the first k coins, each also divided by the number
      of coins unless that division is made once at the end. */
  function DProduct(xp: seq<int>, d: int, once: bool, k: nat): Result<int>
    requires k <= |xp|
  {
    if k == 0 then Ok(d)
    else
      var p :- DProduct(xp, d, once, k - 1);
      if xp[k - 1] == 0 then Err(DivisionByZero)
      else Ok(ChainStep(p, d, xp[k - 1], if once then 1 else |xp|))
  }

  function DNext(d: int, s: int, p: int, amp: nat, n: nat, prec: nat): Result<int>
    requires 0 < prec
  {
    var bottom := (amp * n - prec) * d / prec + (n + 1) * p;
    if bottom == 0 then Err(DivisionByZero)
    else Ok(FloorDiv((amp * n * s / prec + p * n) * d, bottom))
  }

  function DStep(xp: seq<int>, d: int, amp: nat, prec: nat, once: bool): Result<int>
    requires 0 < prec && xp != []
  {
    var p :- DProduct(xp, d, once, |xp|);
    DNext(d, Sum(xp), if once then p / Pow(|xp|, |xp|) else p, amp, |xp|, prec)
  }

  function DIterate(xp: seq<int>, d: int, amp: nat, prec: nat, once: bool, rounds: nat): Result<int>
    requires 0 < prec && xp != []
    decreases rounds
  {
    if rounds == 0 then Err(NoConvergence)
    else
      var next :- DStep(xp, d, amp, prec, once);
      if Abs(next - d) <= 1 then Ok(next) else DIterate(xp, next, amp, prec, once, rounds - 1)
  }

  /** The stableswap invariant of the balances. */
  function GetD(xp: seq<int>, amp: nat, prec: nat, once: bool): Result<int>
    requires 0 < prec
  {
    if Sum(xp) == 0 then Ok(0) else DIterate(xp, Sum(xp), amp, prec, once, MAX_ROUNDS)
  }

  /** The nested loops of the ports. */
  method GetDLoop(xp: seq<int>, amp: nat, prec: nat, once: bool) returns (r: Result<int>)
    requires 0 < prec
    ensures r == GetD(xp, amp, prec, once)
  {
    var n := |xp|;
    var s := 0;
    for k := 0 to n
      invariant s == Sum(xp[..k])
    {
      assert xp[..k + 1][..k] == xp[..k];
      s := s + xp[k];
    }
    assert xp[..n] == xp;
    if s == 0 {
      return Ok(0);
    }
    var d := s;
    for round := 0 to MAX_ROUNDS
      invariant DIterate(xp, d, amp, prec, once, MAX_ROUNDS - round) == GetD(xp, amp, prec, once)
    {
      var p := d;
      for k := 0 to n
        invariant DProduct(xp, d, once, k) == Ok(p)
      {
        if xp[k] == 0 {
          DProductFails(xp, d, once, k + 1, n);
          return Err(DivisionByZero);
        }
        p := ChainStep(p, d, xp[k], if once then 1 else n);
      }
      if once {
        p := p / Pow(n, n);
      }
      var previous := d;
      var next := DNext(d, s, p, amp, n, prec);
      if next.Err? {
        return next;
      }
      d := next.value;
      if Abs(d - previous) <= 1 {
        return Ok(d);
      }
    }
    return Err(NoConvergence);
  }

  lemma {:induction false} DProductFails(xp: seq<int>, d: int, once: bool, k: nat, n: nat)
    requires k <= n <= |xp| && DProduct(xp, d, once, k).Err?
    ensures DProduct(xp, d, once, n) == DProduct(xp, d, once, k)
  {
    if k < n { DProductFails(xp, d, once, k, n - 1); }
  }

  ghost predicate NonNegative(xp: seq<int>) {
    forall k :: 0 <= k < |xp| ==> 0 <= xp[k]
  }

  lemma {:induction false} DProductNonNegative(xp: seq<int>, d: nat, once: bool, k: nat)
    requires NonNegative(xp) && k <= |xp|
    ensures DProduct(xp, d, once, k).Ok? ==> 0 <= DProduct(xp, d, once, k).value
  {
    if k > 0 {
      DProductNonNegative(xp, d, once, k - 1);
      var p := DProduct(xp, d, once, k - 1);
      if p.Ok? && xp[k - 1] != 0 {
        ChainStepAntitone(p.value, p.value, d, xp[k - 1], xp[k - 1], if once then 1 else |xp|);
      }
    }
  }

  lemma DNextNonNegative(d: nat, s: nat, p: nat, amp: nat, n: nat, prec: nat)
    requires 0 < prec <= amp * n
    ensures DNext(d, s, p, amp, n, prec).Ok? ==> 0 <= DNext(d, s, p, amp, n, prec).value
  {
    var bottom := (amp * n - prec) * d / prec + (n + 1) * p;
    MulMono2(0, amp * n - prec, 0, d);
    MulMono2(0, n + 1, 0, p);
    MulMono2(0, amp * n, 0, s);
    MulMono2(0, p, 0, n);
    QuotientBounds((amp * n - prec) * d, prec);
    QuotientBounds(amp * n * s, prec);
    MulMono2(0, amp * n * s / prec + p * n, 0, d);
    if bottom != 0 { QuotientBounds((amp * n * s / prec + p * n) * d, bottom); }
  }

  lemma {:induction false} SumNonNegative(xp: seq<int>)
    requires NonNegative(xp)
    ensures 0 <= Sum(xp)
  {
    if xp != [] { SumNonNegative(xp[..|xp| - 1]); }
  }

  lemma {:induction false} DIterateNonNegative(xp: seq<int>, d: nat, amp: nat, prec: nat, once: bool, rounds: nat)
    requires NonNegative(xp) && xp != [] && 0 < prec <= amp * |xp|
    ensures DIterate(xp, d, amp, prec, once, rounds).Ok? ==> 0 <= DIterate(xp, d, amp, prec, once, rounds).value
    decreases rounds
  {
    if rounds > 0 {
      DProductNonNegative(xp, d, once, |xp|);
      SumNonNegative(xp);
      var p := DProduct(xp, d, once, |xp|);
      if p.Ok? {
        QuotientBounds(p.value, Pow(|xp|, |xp|));
        DNextNonNegative(d, Sum(xp), if once then p.value / Pow(|xp|, |xp|) else p.value, amp, |xp|, prec);
        var next := DStep(xp, d, amp, prec, once);
        if next.Ok? { DIterateNonNegative(xp, next.value, amp, prec, once, rounds - 1); }
      }
    }
  }

  lemma GetDNonNegative(xp: seq<int>, amp: nat, prec: nat, once: bool)
    requires NonNegative(xp) && 0 < prec <= amp * |xp|
    ensures GetD(xp, amp, prec, once).Ok? ==> 0 <= GetD(xp, amp, prec, once).value
  {
    if Sum(xp) != 0 {
      SumNonNegative(xp);
      DIterateNonNegative(xp, Sum(xp), amp, prec, once, MAX_ROUNDS);
    }
  }

  // ----- D of an uneven pool -----

  ghost function Uneven(): seq<int> {
    [5, 1, 1]
  }

  /** q is a over b, rounded down. */
  ghost predicate FloorOf(q: int, a: int, b: int) {
    if 0 < b then q * b <= a < q * b + b else q * b >= a > q * b + b
  }

  lemma FloorDivIs(q: int, a: int, b: int)
    requires b != 0 && FloorOf(q, a, b)
    ensures FloorDiv(a, b) == q
  {
    if 0 < b { QuotientUnique(a, b, q); } else { QuotientUnique(-a, -b, q); }
  }

  /** One round on three coins 5, 1, 1: the floored products p, q and t, the floored linear part h
      and the next iterate. */
  lemma UnevenRound(d: int, p: int, q: int, t: int, h: int, next: int, rounds: nat)
    requires 0 < rounds && h + 4 * t != 0
    requires FloorOf(p, d * d, 15) && FloorOf(q, p * d, 3) && FloorOf(t, q * d, 3) && FloorOf(h, -85 * d, 100)
    requires FloorOf(next, (1 + t * 3) * d, h + 4 * t)
    ensures DIterate(Uneven(), d, 5, 100, false, rounds)
         == if Abs(next - d) <= 1 then Ok(next) else DIterate(Uneven(), next, 5, 100, false, rounds - 1)
  {
    hide FloorOf, FloorDiv;
    FloorDivIs(p, d * d, 15);
    FloorDivIs(q, p * d, 3);
    FloorDivIs(t, q * d, 3);
    var xp := Uneven();
    assert DProduct(xp, d, false, 1) == Ok(p);
    assert DProduct(xp, d, false, 2) == Ok(q);
    assert DProduct(xp, d, false, 3) == Ok(t);
    UnevenSum();
    UnevenNext(d, t, h, next);
  }

  lemma UnevenNext(d: int, t: int, h: int, next: int)
    requires h + 4 * t != 0 && FloorOf(h, -85 * d, 100) && FloorOf(next, (1 + t * 3) * d, h + 4 * t)
    ensures DNext(d, 7, t, 5, 3, 100) == Ok(next)
  {
    FloorDivIs(h, -85 * d, 100);
    FloorDivIs(next, (1 + t * 3) * d, h + 4 * t);
  }

  lemma UnevenSum()
    ensures Sum(Uneven()) == 7
  {
    assert [5, 1, 1][..2] == [5, 1] && [5, 1][..1] == [5] && [5][..0] == [];
    assert Sum([5, 1]) == 6;
  }

  lemma UnevenFall(rounds: nat)
    requires 3 <= rounds
    ensures DIterate(Uneven(), 7, 5, 100, false, rounds) == DIterate(Uneven(), -15, 5, 100, false, rounds - 3)
  {
    hide DIterate, Uneven;
    UnevenRound(7, 3, 7, 16, -6, 5, rounds);
    UnevenRound(5, 1, 1, 1, -5, -20, rounds - 1);
    UnevenRound(-20, 26, -174, 1160, 17, -15, rounds - 2);
  }

  lemma UnevenRise(rounds: nat)
    requires 3 <= rounds
    ensures DIterate(Uneven(), -15, 5, 100, false, rounds) == DIterate(Uneven(), -7, 5, 100, false, rounds - 3)
  {
    hide DIterate, Uneven;
    UnevenRound(-15, 15, -75, 375, 12, -12, rounds);
    UnevenRound(-12, 9, -36, 144, 10, -9, rounds - 1);
    UnevenRound(-9, 5, -15, 45, 7, -7, rounds - 2);
  }

  lemma UnevenStops(rounds: nat)
    requires 2 <= rounds
    ensures DIterate(Uneven(), -7, 5, 100, false, rounds) == Ok(-4)
  {
    hide DIterate, Uneven;
    UnevenRound(-7, 3, -7, 16, 5, -5, rounds);
    UnevenRound(-5, 1, -2, 3, 4, -4, rounds - 1);
  }

  /** Below that amplification floors can drive the iteration through a negative divisor. */
  lemma GetDCanBeNegative()
    ensures GetD([5, 1, 1], 5, 100, false) == Ok(-4)
  {
    hide DIterate;
    assert Uneven() == [5, 1, 1];
    UnevenSum();
    UnevenFall(MAX_ROUNDS);
    UnevenRise(MAX_ROUNDS - 3);
    UnevenStops(MAX_ROUNDS - 6);
  }

  // ----- D of a balanced pool -----

  ghost predicate Balanced(xp: seq<int>, x: nat) {
    forall k :: 0 <= k < |xp| ==> xp[k] == x
  }

  lemma {:induction false} BalancedSum(xp: seq<int>, x: nat)
    requires Balanced(xp, x)
    ensures Sum(xp) == |xp| * x
  {
    if xp != [] { BalancedSum(xp[..|xp| - 1], x); }
  }

  lemma {:induction false} BalancedProduct(xp: seq<int>, x: nat, once: bool, k: nat)
    requires Balanced(xp, x) && 0 < x && k <= |xp|
    ensures DProduct(xp, |xp| * x, once, k)
         == Ok(if once then |xp| * x * Pow(|xp|, k) else |xp| * x)
  {
    if k > 0 {
      BalancedProduct(xp, x, once, k - 1);
      var n, d := |xp|, |xp| * x;
      if once {
        assert d * Pow(n, k - 1) * d == (d * Pow(n, k)) * (x * 1) by {
          assert Pow(n, k) == n * Pow(n, k - 1);
        }
        QuotientUnique(d * Pow(n, k - 1) * d, x * 1, d * Pow(n, k));
      } else {
        MulMono(1, x, n);
        assert x * n == d;
        QuotientUnique(d * d, d, d);
      }
    }
  }

  lemma BalancedNext(d: nat, amp: nat, n: nat, prec: nat)
    requires 0 < d && 0 < n && 0 < prec
    ensures DNext(d, d, d, amp, n, prec) == Ok(d)
  {
    var q := amp * n * d / prec;
    MulMono2(0, amp * n, 0, d);
    QuotientBounds(amp * n * d, prec);
    assert (amp * n - prec) * d == amp * n * d - d * prec;
    assert (q - d) * prec == q * prec - d * prec;
    QuotientUnique((amp * n - prec) * d, prec, q - d);
    var m := q + n * d;
    MulMono(1, n, d);
    assert q - d + (n + 1) * d == m && q + d * n == m;
    QuotientUnique(m * d, m, d);
  }

  /** The invariant of a balanced pool is exactly the sum of its balances, for either way of
      dividing by the number of coins and every amplification. */
  lemma GetDBalanced(xp: seq<int>, x: nat, amp: nat, prec: nat, once: bool)
    requires Balanced(xp, x) && 0 < prec
    ensures GetD(xp, amp, prec, once) == Ok(|xp| * x)
  {
    BalancedSum(xp, x);
    var n, d := |xp|, |xp| * x;
    if d != 0 {
      MulMono2(0, n, 0, x);
      BalancedProduct(xp, x, once, n);
      QuotientUnique(d * Pow(n, n), Pow(n, n), d);
      BalancedNext(d, amp, n, prec);
      FirstRoundReturns(xp, d, amp, prec, once, MAX_ROUNDS);
    }
  }

  lemma {:induction false} FirstRoundReturns(xp: seq<int>, d: int, amp: nat, prec: nat, once: bool, rounds: nat)
    requires 0 < prec && xp != [] && 0 < rounds && DStep(xp, d, amp, prec, once) == Ok(d)
    ensures DIterate(xp, d, amp, prec, once, rounds) == Ok(d)
  {
  }
}
