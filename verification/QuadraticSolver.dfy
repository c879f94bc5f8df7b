/** The integer Newton iteration y := (y^2 + c) / (2 y + b - d), started at y = d and
    capped at 255 rounds, that every stableswap pool uses to solve for one balance.
    The four ports of it differ only in how they compute b and c. */
module QuadraticSolver {
  import opened Arith

  const MAX_ROUNDS: nat := 255

  /** One Newton step for y^2 + k y = c. */
  function Step(y: int, k: int, c: int): int
    requires 2 * y + k != 0
  {
    FloorDiv(y * y + c, 2 * y + k)
  }

  /** At most `rounds` Newton steps from y, stopping at the first change of at most one. */
  function Iterate(y: int, k: int, c: int, rounds: nat): Result<int>
    decreases rounds
  {
    if rounds == 0 then Err(NoConvergence)
    else if 2 * y + k == 0 then Err(DivisionByZero)
    else
      var z := Step(y, k, c);
      if Abs(z - y) <= 1 then Ok(z) else Iterate(z, k, c, rounds - 1)
  }

  function Solve(b: int, c: int, d: int): Result<int> {
    Iterate(d, b - d, c, MAX_ROUNDS)
  }

  // ----- the exact root -----

  /** r is the integer part of the non-negative root of y^2 + k y = c. */
  ghost predicate IsRoot(r: int, k: int, c: int) {
    0 <= r && r * r + k * r <= c < (r + 1) * (r + 1) + k * (r + 1)
  }

  /** That root in closed form, independent of any iteration. */
  function Root(k: int, c: nat): int {
    (Isqrt(Discriminant(k, c)) - k) / 2
  }

  function Discriminant(k: int, c: nat): nat {
    k * k + 4 * c
  }

  lemma RootIsRoot(k: int, c: nat)
    ensures IsRoot(Root(k, c), k, c)
  {
    LinearTermBelowSqrt(k, c);
    HalvedRoot(Root(k, c), k, c, Isqrt(Discriminant(k, c)));
  }

  lemma LinearTermBelowSqrt(k: int, c: nat)
    ensures Abs(k) <= Isqrt(Discriminant(k, c))
  {
    assert Abs(k) * Abs(k) == k * k;
    IsqrtAtLeast(Discriminant(k, c), Abs(k));
  }

  lemma HalvedRoot(r: int, k: int, c: nat, s: nat)
    requires s * s <= Discriminant(k, c) < (s + 1) * (s + 1)
    requires Abs(k) <= s && 2 * r + k <= s < 2 * r + k + 2
    ensures IsRoot(r, k, c)
  {
    SquareDecides(r, k, c, s);
    SquareDecides(r + 1, k, c, s);
  }

  /** Comparing 2 y + k with the root of the discriminant decides the sign at y. */
  lemma SquareDecides(y: int, k: int, c: nat, s: nat)
    requires s * s <= Discriminant(k, c) < (s + 1) * (s + 1)
    ensures 0 <= 2 * y + k <= s ==> y * y + k * y <= c
    ensures s < 2 * y + k ==> c < y * y + k * y
  {
    var t := 2 * y + k;
    CompleteSquare(y, k);
    if 0 <= t <= s { SquareMono(t, s); }
    if s < t { SquareMono(s + 1, t); }
  }

  lemma CompleteSquare(y: int, k: int)
    ensures (2 * y + k) * (2 * y + k) == 4 * (y * y + k * y) + k * k
  {
  }

  lemma RootIsSteep(r: int, k: int, c: nat)
    requires IsRoot(r, k, c)
    ensures 0 <= r + k
  {
    if r + k < 0 {
      assert (r + 1) * (r + 1) + k * (r + 1) == (r + 1) * (r + 1 + k);
      MulMono(r + 1 + k, 0, r + 1);
    }
  }

  /** y^2 + k y does not decrease from any root on. */
  lemma GrowsAboveRoot(r: int, k: int, c: nat, y: int, z: int)
    requires IsRoot(r, k, c) && r <= y <= z
    ensures y * y + k * y <= z * z + k * z
  {
    RootIsSteep(r, k, c);
    assert z * z + k * z - (y * y + k * y) == (z - y) * (z + y + k);
    MulMono(0, z - y, z + y + k);
  }

  lemma RootUnique(r: int, r': int, k: int, c: nat)
    requires IsRoot(r, k, c) && IsRoot(r', k, c)
    ensures r == r'
  {
    if r < r' { GrowsAboveRoot(r, k, c, r + 1, r'); }
    if r' < r { GrowsAboveRoot(r', k, c, r' + 1, r); }
  }

  /** A larger linear term or a smaller constant never raises the root. */
  lemma RootAntitone(r: int, k: int, c: nat, r': int, k': int, c': nat)
    requires IsRoot(r, k, c) && IsRoot(r', k', c')
    requires k <= k' && c' <= c
    ensures r' <= r
  {
    if r < r' {
      GrowsAboveRoot(r, k, c, r + 1, r');
      MulMono(k, k', r');
    }
  }

  // ----- one step -----

  /** From any point of positive slope a step lands at or above the root. */
  lemma StepNotBelow(y: int, r: int, k: int, c: nat)
    requires IsRoot(r, k, c) && 0 < 2 * y + k
    ensures r <= Step(y, k, c)
  {
    assert 0 <= (y - r) * (y - r) == y * y - 2 * y * r + r * r;
    assert r * (2 * y + k) <= y * y + c;
    QuotientAtLeast(y * y + c, 2 * y + k, r);
  }

  /** Above the root a step at least halves the distance to it. */
  lemma StepHalves(y: int, r: int, k: int, c: nat)
    requires IsRoot(r, k, c) && r < y
    ensures 0 < 2 * y + k
    ensures r <= Step(y, k, c) && 2 * (Step(y, k, c) - r) <= y - r
  {
    RootIsSteep(r, k, c);
    StepNotBelow(y, r, k, c);
    QuotientBounds(y * y + c, 2 * y + k);
    HalvingBound(Step(y, k, c), y, r + 1, k, c);
  }

  lemma HalvingBound(z: int, y: int, s: int, k: int, c: nat)
    requires z * (2 * y + k) <= y * y + c && c < s * s + k * s
    requires s <= y && 0 <= 2 * s + k && 0 < 2 * y + k
    ensures 2 * z < y + s
  {
    HalvingIdentity(y, s, k);
    MulMono(0, y - s, 2 * s + k);
    assert (2 * z) * (2 * y + k) == 2 * (z * (2 * y + k));
    MulCancelStrict(2 * z, y + s, 2 * y + k);
  }

  lemma HalvingIdentity(y: int, r: int, k: int)
    ensures (y + r) * (2 * y + k) == 2 * (y * y) + 2 * (r * r + k * r) + (y - r) * (2 * r + k)
  {
  }

  lemma StepAtRoot(r: int, k: int, c: nat)
    requires IsRoot(r, k, c) && 0 < 2 * r + k
    ensures r <= Step(r, k, c) <= r + 1
  {
    StepNotBelow(r, r, k, c);
    assert (r + 1) * (2 * r + k) == (r + 1) * (r + 1) + k * (r + 1) + r * r - 1;
    QuotientAtMost(r * r + c, 2 * r + k, r + 1);
  }

  /** A round that does not stop leaves the slope positive, so the next one can divide. */
  lemma StepKeepsSlope(y: int, r: int, k: int, c: nat)
    requires IsRoot(r, k, c) && 0 < 2 * y + k
    requires Abs(Step(y, k, c) - y) > 1
    ensures 0 < 2 * Step(y, k, c) + k
  {
    var z := Step(y, k, c);
    StepNotBelow(y, r, k, c);
    RootIsSteep(r, k, c);
    if 2 * z + k <= 0 {
      assert z == 0 && k == 0 && r == 0 && c == 0;
      assert 2 <= y;
      MulMono(2, y, y);
      QuotientAtLeast(y * y, 2 * y, 1);
    }
  }

  // ----- whole runs -----

  /** Whatever the starting point, a value the iteration returns is the root or one more,
      and the iteration never divides by zero. */
  lemma {:induction false} IterateBrackets(y: int, r: int, k: int, c: nat, rounds: nat)
    requires IsRoot(r, k, c) && 0 < 2 * y + k
    ensures Iterate(y, k, c, rounds) != Err(DivisionByZero)
    ensures Iterate(y, k, c, rounds).Ok? ==> r <= Iterate(y, k, c, rounds).value <= r + 1
    decreases rounds
  {
    if rounds > 0 {
      StepNotBelow(y, r, k, c);
      if r < y { StepHalves(y, r, k, c); }
      if r == y { StepAtRoot(r, k, c); }
      if Abs(Step(y, k, c) - y) > 1 {
        StepKeepsSlope(y, r, k, c);
        IterateBrackets(Step(y, k, c), r, k, c, rounds - 1);
      }
    }
  }

  /** From within 2^rounds above the root, `rounds` rounds are enough. */
  lemma {:induction false} IterateConverges(y: int, r: int, k: int, c: nat, rounds: nat)
    requires IsRoot(r, k, c) && 0 < 2 * y + k
    requires r <= y < r + Pow2(rounds) && 1 <= rounds
    ensures Iterate(y, k, c, rounds).Ok?
    decreases rounds
  {
    if r == y {
      StepAtRoot(r, k, c);
    } else {
      StepHalves(y, r, k, c);
      if Abs(Step(y, k, c) - y) > 1 {
        StepKeepsSlope(y, r, k, c);
        IterateConverges(Step(y, k, c), r, k, c, rounds - 1);
      }
    }
  }

  /** Any solved balance is the exact root or one above it. */
  lemma SolveBrackets(b: nat, c: nat, d: nat, r: int)
    requires 0 < d && IsRoot(r, b - d, c)
    ensures Solve(b, c, d) != Err(DivisionByZero)
    ensures Solve(b, c, d).Ok? ==> r <= Solve(b, c, d).value <= r + 1
  {
    IterateBrackets(d, r, b - d, c, MAX_ROUNDS);
  }

  /** The cap of 255 rounds is never reached when the first iterate is within 2^254 of the root. */
  lemma SolveConverges(b: nat, c: nat, d: nat, r: int)
    requires 0 < d && IsRoot(r, b - d, c)
    requires Step(d, b - d, c) < r + Pow2(MAX_ROUNDS - 1)
    ensures Solve(b, c, d).Ok?
  {
    IterateConvergesFromFirst(d, r, b - d, c, MAX_ROUNDS);
  }

  lemma IterateConvergesFromFirst(y: int, r: int, k: int, c: nat, rounds: nat)
    requires IsRoot(r, k, c) && 0 < 2 * y + k && 2 <= rounds
    requires Step(y, k, c) < r + Pow2(rounds - 1)
    ensures Iterate(y, k, c, rounds).Ok?
  {
    StepNotBelow(y, r, k, c);
    if Abs(Step(y, k, c) - y) > 1 {
      StepKeepsSlope(y, r, k, c);
      IterateConverges(Step(y, k, c), r, k, c, rounds - 1);
    }
  }

  /** Close above the root the relative error squares: from 1/K of it to 1/K^2. */
  lemma StepSquares(y: int, r: int, k: int, c: nat, K: nat)
    requires IsRoot(r, k, c) && r + 1 < y && (y - (r + 1)) * K <= r + 1
    ensures 0 < 2 * y + k && (Step(y, k, c) - (r + 1)) * (K * K) <= r + 1
  {
    RootIsSteep(r, k, c);
    var R, z := r + 1, Step(y, k, c);
    QuotientBounds(y * y + c, 2 * y + k);
    Excess(z, y, R, k, c);
    SquaredError(z - R, y - R, R, 2 * y + k, K);
  }

  lemma SquaredError(f: int, e: nat, R: nat, w: int, K: nat)
    requires f * w <= e * e && 0 < R <= w && e * K <= R
    ensures f * (K * K) <= R
  {
    if f <= 0 {
      MulMono(f, 0, K * K);
    } else {
      MulMono(R, w, f);
      SquareBound(f, e, R, K);
    }
  }

  lemma Excess(z: int, y: int, R: int, k: int, c: int)
    requires z * (2 * y + k) <= y * y + c && c < R * R + k * R
    ensures (z - R) * (2 * y + k) < (y - R) * (y - R)
  {
    assert (z - R) * (2 * y + k) == z * (2 * y + k) - 2 * (y * R) - k * R;
    assert (y - R) * (y - R) == y * y - 2 * (y * R) + R * R;
  }

  /** So j rounds reach a root below 2^(2^j) from half of it above. */
  lemma {:induction false} IterateSquares(y: int, r: int, k: int, c: nat, i: nat, j: nat, rounds: nat)
    requires IsRoot(r, k, c) && r <= y && 0 < 2 * y + k && i <= j
    requires (y - (r + 1)) * Pow2(Pow2(i)) <= r + 1 < Pow2(Pow2(j)) && j - i + 1 <= rounds
    ensures Iterate(y, k, c, rounds).Ok?
    decreases j - i
  {
    hide Step;
    if y == r {
      StepAtRoot(r, k, c);
    } else if y == r + 1 {
      StepHalves(y, r, k, c);
    } else {
      var K := Pow2(Pow2(i));
      if i == j { MulMono(1, y - (r + 1), K); }
      StepHalves(y, r, k, c);
      StepSquares(y, r, k, c, K);
      Pow2Add(Pow2(i), Pow2(i));
      if Abs(Step(y, k, c) - y) > 1 {
        StepKeepsSlope(y, r, k, c);
        IterateSquares(Step(y, k, c), r, k, c, i + 1, j, rounds - 1);
      }
    }
  }

  /** m + 1 rounds of halving come before it from 2^m times the root. */
  lemma {:induction false} IterateHalves(y: int, r: int, k: int, c: nat, m: nat, j: nat, rounds: nat)
    requires IsRoot(r, k, c) && r <= y && 0 < 2 * y + k
    requires y - r <= (r + 1) * Pow2(m) && r + 1 < Pow2(Pow2(j)) && m + j + 2 <= rounds
    ensures Iterate(y, k, c, rounds).Ok?
    decreases m
  {
    hide Step;
    if y == r {
      StepAtRoot(r, k, c);
    } else {
      StepHalves(y, r, k, c);
      var z := Step(y, k, c);
      if Abs(z - y) > 1 {
        StepKeepsSlope(y, r, k, c);
        if m == 0 {
          assert Pow2(Pow2(0)) == 2;
          IterateSquares(z, r, k, c, 0, j, rounds - 1);
        } else {
          assert (r + 1) * Pow2(m) == 2 * ((r + 1) * Pow2(m - 1));
          IterateHalves(z, r, k, c, m - 1, j, rounds - 1);
        }
      }
    }
  }

  /** A first iterate of up to 2^(252 - j) times the root also converges, for every root below
      2^(2^j): for one of 1024 bits, up to 2^242 times it. */
  lemma SolveConvergesFar(b: nat, c: nat, d: nat, r: int, j: nat)
    requires 0 < d && IsRoot(r, b - d, c) && j <= 252 && r + 1 < Pow2(Pow2(j))
    requires Step(d, b - d, c) <= (r + 1) * Pow2(252 - j)
    ensures Solve(b, c, d).Ok?
  {
    IterateConvergesFar(d, r, b - d, c, 252 - j, j, MAX_ROUNDS);
  }

  lemma IterateConvergesFar(y: int, r: int, k: int, c: nat, m: nat, j: nat, rounds: nat)
    requires IsRoot(r, k, c) && 0 < 2 * y + k && r + 1 < Pow2(Pow2(j)) && m + j + 3 <= rounds
    requires Step(y, k, c) <= (r + 1) * Pow2(m)
    ensures Iterate(y, k, c, rounds).Ok?
  {
    StepNotBelow(y, r, k, c);
    if Abs(Step(y, k, c) - y) > 1 {
      StepKeepsSlope(y, r, k, c);
      IterateHalves(Step(y, k, c), r, k, c, m, j, rounds - 1);
    }
  }

  /** With no positive linear term a step keeps at least half of its argument. */
  lemma StepKeepsHalf(y: int, k: int, c: nat)
    requires k <= 0 && 0 < 2 * y + k
    ensures y / 2 <= Step(y, k, c)
  {
    var h := y / 2;
    MulMono(2 * y + k, 2 * y, h);
    MulMono(2 * h, y, y);
    assert h * (2 * y) == 2 * h * y;
    QuotientAtLeast(y * y + c, 2 * y + k, h);
  }

  /** So from 2^rounds times the root the rounds do not suffice. */
  lemma {:induction false} IterateRunsOut(y: int, r: int, k: int, c: nat, rounds: nat)
    requires IsRoot(r, k, c) && k <= 0 && (r + 3) * Pow2(rounds) <= y
    ensures Iterate(y, k, c, rounds) == Err(NoConvergence)
    decreases rounds
  {
    hide Step;
    if rounds > 0 {
      var half := (r + 3) * Pow2(rounds - 1);
      assert (r + 3) * Pow2(rounds) == 2 * half;
      MulMono(1, Pow2(rounds - 1), r + 3);
      StepHalves(y, r, k, c);
      StepKeepsHalf(y, k, c);
      IterateRunsOut(Step(y, k, c), r, k, c, rounds - 1);
    }
  }

  /** The other side of SolveConverges: when b is at most d, a first iterate of 2^254 times the root
      or more always reaches the cap. */
  lemma SolveRunsOut(b: nat, c: nat, d: nat, r: int)
    requires 0 < d && b <= d && IsRoot(r, b - d, c)
    requires (r + 3) * Pow2(MAX_ROUNDS - 1) <= Step(d, b - d, c)
    ensures Solve(b, c, d) == Err(NoConvergence)
  {
    IterateRunsOutFromFirst(d, r, b - d, c, MAX_ROUNDS);
  }

  lemma IterateRunsOutFromFirst(y: int, r: int, k: int, c: nat, rounds: nat)
    requires IsRoot(r, k, c) && k <= 0 && 0 < 2 * y + k && 2 <= rounds
    requires (r + 3) * Pow2(rounds - 1) <= Step(y, k, c)
    ensures Iterate(y, k, c, rounds) == Err(NoConvergence)
  {
    hide Step;
    Pow2Mono(1, rounds - 1);
    MulMono(2, Pow2(rounds - 1), r + 3);
    if r < y { StepHalves(y, r, k, c); }
    IterateRunsOut(Step(y, k, c), r, k, c, rounds - 1);
  }

  /** Solutions of two instances, the second with a larger b and a smaller c, differ upward
      by at most one unit. */
  lemma SolveNearlyAntitone(b: nat, c: nat, b': nat, c': nat, d: nat)
    requires 0 < d && b <= b' && c' <= c
    requires Solve(b, c, d).Ok? && Solve(b', c', d).Ok?
    ensures Solve(b', c', d).value <= Solve(b, c, d).value + 1
  {
    IterateNearlyAntitone(d, b - d, c, b' - d, c', MAX_ROUNDS);
  }

  lemma {:induction false} IterateNearlyAntitone(y: int, k: int, c: nat, k': int, c': nat, rounds: nat)
    requires 0 < 2 * y + k && k <= k' && c' <= c
    requires Iterate(y, k, c, rounds).Ok? && Iterate(y, k', c', rounds).Ok?
    ensures Iterate(y, k', c', rounds).value <= Iterate(y, k, c, rounds).value + 1
  {
    var r := SomeRoot(k, c);
    var r' := SomeRoot(k', c');
    RootAntitone(r, k, c, r', k', c');
    IterateBrackets(y, r, k, c, rounds);
    IterateBrackets(y, r', k', c', rounds);
  }

  lemma SomeRoot(k: int, c: nat) returns (r: int)
    ensures IsRoot(r, k, c)
  {
    RootIsRoot(k, c);
    r := Root(k, c);
  }

  // ----- the loop -----

  /** The loop of the four ports. */
  method SolveLoop(b: int, c: int, d: int) returns (r: Result<int>)
    ensures r == Solve(b, c, d)
  {
    var y := d;
    for round := 0 to MAX_ROUNDS
      invariant Iterate(y, b - d, c, MAX_ROUNDS - round) == Solve(b, c, d)
    {
      var previous := y;
      if 2 * y + b - d == 0 {
        return Err(DivisionByZero);
      }
      y := FloorDiv(y * y + c, 2 * y + b - d);
      if Abs(y - previous) <= 1 {
        return Ok(y);
      }
    }
    return Err(NoConvergence);
  }
}
