/** Curve's integer cube root: a power-of-two guess refined by seven Newton rounds, written with
    wrapping 256-bit operations. No operation in it ever wraps, and the unscaled result is the
    floor cube root of the scaled radicand or one more. */
module CubeRoot {
  import opened Arith

  const E6: nat := 1_000_000
  const E12: nat := 1_000_000_000_000
  const E18: nat := WAD
  const E36: nat := 1_000_000_000_000_000_000_000_000_000_000_000_000
  const THRESHOLD: nat := 115792089237316195423570985008687907853269
  const ROUNDS: nat := 7

  // ----- the computation on unbounded integers -----

  function Cube(a: nat): nat {
    a * a * a
  }

  /** Position of the highest bit; zero for zero. */
  function Log2(n: nat): nat {
    if n < 2 then 0 else 1 + Log2(n / 2)
  }

  function Newton(a: nat, n: nat): (r: nat) {
    var q := if a * a == 0 then 0 else n / (a * a);
    assert 0 <= q by { if a * a != 0 { QuotientBounds(n, a * a); } }
    (2 * a + q) / 3
  }

  function Refine(a: nat, n: nat, rounds: nat): nat
    decreases rounds
  {
    if rounds == 0 then a else Refine(Newton(a, n), n, rounds - 1)
  }

  /** 2^(log2(n) / 3), the fraction of the exponent approximated by powers of 1.26. */
  function Guess(n: nat): nat {
    GuessAt(Pow2(Log2(n) / 3), Log2(n) % 3)
  }

  function GuessAt(p: nat, rem: nat): nat {
    QuotientBounds(p * Pow(1260, rem), Pow(1000, rem));
    p * Pow(1260, rem) / Pow(1000, rem)
  }

  function Radicand(x: nat): nat {
    if x >= THRESHOLD * E18 then x else if x >= THRESHOLD then x * E18 else x * E36
  }

  /** The root of the radicand before the scale is taken back out. */
  function Unscaled(x: nat): nat {
    Refine(Guess(Radicand(x)), Radicand(x), ROUNDS)
  }

  function Scale(x: nat): nat {
    if x >= THRESHOLD * E18 then E12 else if x >= THRESHOLD then E6 else 1
  }

  // ----- cubes -----

  ghost predicate IsCubeRoot(r: nat, n: nat) {
    Cube(r) <= n < Cube(r + 1)
  }

  lemma CubeMono(x: nat, y: nat)
    requires x <= y
    ensures Cube(x) <= Cube(y)
  {
    MulMono2(x, y, x, y);
    MulMono2(x * x, y * y, x, y);
  }

  lemma CubeScale(k: nat, x: nat)
    ensures Cube(k * x) == Cube(k) * Cube(x)
  {
    assert (k * x) * (k * x) == (k * k) * (x * x);
    assert (k * k) * (x * x) * (k * x) == (k * k * k) * (x * x * x);
  }

  lemma {:induction false} CubeRootExists(n: nat) returns (r: nat)
    ensures IsCubeRoot(r, n)
  {
    if n == 0 {
      r := 0;
    } else {
      r := CubeRootExists(n - 1);
      if Cube(r + 1) <= n {
        r := r + 1;
        assert Cube(r + 1) == Cube(r) + 3 * (r * r) + 3 * r + 1;
      }
    }
  }

  // ----- one Newton round -----

  /** r^3 - 3 r a^2 + 2 a^3 = (a - r)^2 (2 a + r). */
  lemma TangentIdentity(a: nat, r: nat)
    ensures Cube(r) + 2 * Cube(a) - 3 * (r * (a * a)) == (a - r) * (a - r) * (2 * a + r)
  {
    assert (a - r) * (a - r) == a * a - 2 * (a * r) + r * r;
    assert (a * a - 2 * (a * r) + r * r) * (2 * a + r) == 2 * (a * a * a) - 3 * (r * (a * a)) + r * r * r;
  }

  lemma TangentNonNegative(a: nat, r: nat)
    ensures 3 * (r * (a * a)) <= Cube(r) + 2 * Cube(a)
  {
    TangentIdentity(a, r);
    assert 0 <= (a - r) * (a - r);
    MulMono(0, (a - r) * (a - r), 2 * a + r);
  }

  lemma NewtonNotBelow(a: nat, r: nat, n: nat)
    requires 0 < a && Cube(r) <= n
    ensures r <= Newton(a, n)
  {
    assert 0 < a * a by { MulMonoStrict(0, a, a); }
    TangentNonNegative(a, r);
    assert (3 * r - 2 * a) * (a * a) == 3 * (r * (a * a)) - 2 * Cube(a);
    QuotientAtLeast(n, a * a, 3 * r - 2 * a);
  }

  /** How far a round can land above the upper bracket R. */
  lemma NewtonAbove(a: nat, R: nat, n: nat)
    requires 0 < a && n < Cube(R)
    ensures 3 * (a * a) * (Newton(a, n) - R) <= (a - R) * (a - R) * (2 * a + R)
  {
    var m := a * a;
    assert 0 < m by { MulMonoStrict(0, a, a); }
    QuotientBounds(n, m);
    ThriceNewton(a, Newton(a, n), n / m, R);
    TangentIdentity(a, R);
  }

  lemma ThriceNewton(a: nat, z: nat, q: nat, R: nat)
    requires 3 * z <= 2 * a + q
    ensures 3 * (a * a) * (z - R) <= 2 * Cube(a) + q * (a * a) - 3 * (R * (a * a))
  {
    MulMono(3 * z - 2 * a, q, a * a);
    assert (3 * z - 2 * a) * (a * a) == 3 * (a * a) * z - 2 * Cube(a);
    assert 3 * (a * a) * (z - R) == 3 * (a * a) * z - 3 * (R * (a * a));
  }

  /** The error above R relative to R is below 1/K. */
  ghost predicate Within(a: nat, R: nat, K: nat) {
    R - 1 <= a && (a - R) * K <= R
  }

  lemma AboveIsContracted(a: nat, R: nat, n: nat)
    requires 0 < R <= a && n < Cube(R)
    ensures a * (Newton(a, n) - R) <= (a - R) * (a - R)
  {
    NewtonAbove(a, R, n);
    SquareNonNegative(a - R);
    DropSlope(a, Newton(a, n) - R, (a - R) * (a - R), R);
  }

  lemma DropSlope(a: nat, z: int, e: nat, R: nat)
    requires 0 < R <= a && 3 * (a * a) * z <= e * (2 * a + R)
    ensures a * z <= e
  {
    MulMono(2 * a + R, 3 * a, e);
    assert 3 * (a * a) * z == (a * z) * (3 * a);
    MulCancel(a * z, e, 3 * a);
  }

  /** One round squares the relative error away. */
  lemma ErrorSquares(a: nat, R: nat, n: nat, K: nat)
    requires 3 <= R && Within(a, R, K) && Cube(R - 1) <= n < Cube(R)
    ensures Within(Newton(a, n), R, K * K)
  {
    NewtonNotBelow(a, R - 1, n);
    var z := Newton(a, n);
    if a < R {
      BelowLandsInBracket(a, R, n);
      MulMono(z - R, 0, K * K);
    } else if R < z {
      AboveIsContracted(a, R, n);
      MulMono(R, a, z - R);
      SquareBound(z - R, a - R, R, K);
    } else {
      MulMono(z - R, 0, K * K);
    }
  }

  lemma BelowLandsInBracket(a: nat, R: nat, n: nat)
    requires 3 <= R == a + 1 && n < Cube(R)
    ensures Newton(a, n) <= R
  {
    NewtonAbove(a, R, n);
    var z := Newton(a, n);
    if R < z {
      MulMono(2, a, a);
      MulMono(1, z - R, 3 * (a * a));
    }
  }

  // ----- the guess -----

  lemma {:induction false} Log2Bounds(n: nat)
    requires 0 < n
    ensures Pow2(Log2(n)) <= n < 2 * Pow2(Log2(n))
  {
    if 2 <= n { Log2Bounds(n / 2); }
  }

  lemma Pow2Cubed(q: nat, rem: nat)
    ensures Pow2(3 * q + rem) == Cube(Pow2(q)) * Pow2(rem)
  {
    Pow2Add(3 * q, rem);
    Pow2Add(q, 2 * q);
    Pow2Add(q, q);
    assert Pow2(q) * (Pow2(q) * Pow2(q)) == Cube(Pow2(q));
  }

  /** For a rational u / v whose cube is 2^rem to within 0.2 %, the guess g = floor(P u / v). */
  lemma GuessCubes(P: nat, u: nat, v: nat, t: nat, g: nat)
    requires 0 < v && g == P * u / v
    requires t * Cube(v) <= Cube(u) && 1000 * Cube(u) <= 1002 * (t * Cube(v))
    ensures 1000 * Cube(g) <= 1002 * (Cube(P) * t)
    ensures 0 < P ==> Cube(P) * t < Cube(g + 1)
  {
    hide Cube;
    QuotientBounds(P * u, v);
    CubeMono(v * g, P * u);
    CubeScale(v, g);
    CubeScale(P, u);
    CubePositive(v);
    UpperGuess(Cube(P), Cube(u), Cube(v), t, Cube(g));
    if 0 < P {
      CubePositive(P);
      CubeLess(P * u, v * (g + 1));
      CubeScale(v, g + 1);
      LowerGuess(Cube(P), Cube(u), Cube(v), t, Cube(g + 1));
    }
  }

  lemma CubePositive(x: nat)
    requires 0 < x
    ensures 0 < Cube(x)
  {
    MulMonoStrict(0, x, x);
    MulMonoStrict(0, x * x, x);
  }

  lemma CubeLess(x: nat, y: nat)
    requires x < y
    ensures Cube(x) < Cube(y)
  {
    CubeMono(x + 1, y);
    assert Cube(x + 1) == Cube(x) + 3 * (x * x) + 3 * x + 1;
  }

  lemma UpperGuess(P3: nat, u3: nat, v3: nat, t: nat, g3: nat)
    requires v3 * g3 <= P3 * u3 && 0 < v3 && 1000 * u3 <= 1002 * (t * v3)
    ensures 1000 * g3 <= 1002 * (P3 * t)
  {
    MulMono(1000 * u3, 1002 * (t * v3), P3);
    assert 1002 * (t * v3) * P3 == 1002 * (P3 * t) * v3;
    assert 1000 * u3 * P3 == 1000 * (P3 * u3);
    assert 1000 * g3 * v3 == 1000 * (v3 * g3);
    MulCancel(1000 * g3, 1002 * (P3 * t), v3);
  }

  lemma LowerGuess(P3: nat, u3: nat, v3: nat, t: nat, h3: nat)
    requires P3 * u3 < v3 * h3 && 0 < v3 && t * v3 <= u3
    ensures P3 * t < h3
  {
    MulMono(t * v3, u3, P3);
    assert t * v3 * P3 == (P3 * t) * v3;
    assert v3 * h3 == h3 * v3;
    MulCancelStrict(P3 * t, h3, v3);
  }

  lemma SmallPowers()
    ensures Pow(1260, 1) == 1260 && Pow(1000, 1) == 1000 && Pow2(1) == 2
    ensures Pow(1260, 2) == 1587600 && Pow(1000, 2) == 1000000 && Pow2(2) == 4
  {
    assert Pow(1260, 0) == 1 && Pow(1000, 0) == 1;
  }

  lemma GuessAtBounds(P: nat, rem: nat)
    requires rem < 3 && 0 < P
    ensures 1000 * Cube(GuessAt(P, rem)) <= 1002 * (Cube(P) * Pow2(rem))
    ensures Cube(P) * Pow2(rem) < Cube(GuessAt(P, rem) + 1)
  {
    SmallPowers();
    if rem == 0 {
      GuessCubes(P, 1, 1, 1, GuessAt(P, rem));
    } else if rem == 1 {
      GuessCubes(P, 1260, 1000, 2, GuessAt(P, rem));
    } else {
      GuessCubes(P, 1587600, 1000000, 4, GuessAt(P, rem));
    }
  }

  lemma GuessBounds(n: nat)
    requires 0 < n
    ensures 1000 * Cube(Guess(n)) <= 1002 * n
    ensures n < 2 * Cube(Guess(n) + 1)
  {
    var lg := Log2(n);
    Log2Bounds(n);
    Pow2Cubed(lg / 3, lg % 3);
    GuessAtBounds(Pow2(lg / 3), lg % 3);
  }

  /** The guess is between 79 % and 100.1 % of the upper bracket. */
  lemma GuessNear(n: nat, r: nat)
    requires IsCubeRoot(r, n) && 1790 <= r
    ensures 79 * (r + 1) <= 100 * Guess(n)
    ensures 1000 * Guess(n) <= 1001 * (r + 1)
  {
    assert 0 < n by { CubeMono(1, r); }
    GuessBounds(n);
    GuessNotLow(Guess(n), r);
    GuessNotHigh(Guess(n), r + 1);
  }

  lemma GuessNotLow(g: nat, r: nat)
    requires Cube(r) < 2 * Cube(g + 1) && 1790 <= r
    ensures 79 * (r + 1) <= 100 * g
  {
    CubeScale(1000, g + 1);
    CubeScale(791, r);
    assert Cube(1000) == 1_000_000_000 && Cube(791) == 494_913_671;
    if 100 * g < 79 * (r + 1) { CubeMono(1000 * (g + 1), 791 * r); }
  }

  lemma GuessNotHigh(g: nat, R: nat)
    requires 1000 * Cube(g) < 1002 * Cube(R)
    ensures 1000 * g <= 1001 * R
  {
    CubeScale(1000, g);
    CubeScale(1001, R);
    assert Cube(1000) == 1_000_000_000 && Cube(1001) == 1_003_003_001;
    if 1001 * R < 1000 * g { CubeMono(1001 * R, 1000 * g); }
  }

  /** The first round brings the relative error below a sixteenth. */
  lemma FirstRound(g: nat, R: nat, n: nat)
    requires 3 <= R && Cube(R - 1) <= n < Cube(R)
    requires 79 * R <= 100 * g && 1000 * g <= 1001 * R
    ensures Within(Newton(g, n), R, 16)
  {
    NewtonNotBelow(g, R - 1, n);
    NewtonAbove(g, R, n);
    FirstRoundPolynomial(g, R);
    assert 0 < g * g by { MulMonoStrict(0, g, g); }
    ScaleError(Newton(g, n) - R, g * g, (g - R) * (g - R) * (2 * g + R), R);
  }

  lemma ScaleError(z: int, m: nat, e: int, R: nat)
    requires 0 < m && 3 * m * z <= e && 16 * e <= 3 * m * R
    ensures z * 16 <= R
  {
    assert (z * 16) * (3 * m) == 16 * (3 * m * z);
    assert R * (3 * m) == 3 * m * R;
    MulCancel(z * 16, R, 3 * m);
  }

  /** 16 (g - R)^2 (2 g + R) <= 3 g^2 R on the guess's range. */
  lemma FirstRoundPolynomial(g: nat, R: nat)
    requires 79 * R <= 100 * g && 1000 * g <= 1001 * R
    ensures 16 * ((g - R) * (g - R) * (2 * g + R)) <= 3 * (g * g) * R
  {
    var e := if g < R then R - g else g - R;
    assert (g - R) * (g - R) == e * e;
    MulMono2(100 * e, 21 * R, 100 * e, 21 * R);
    assert 10000 * (e * e) <= 441 * (R * R);
    MulMono(10000 * (e * e), 441 * (R * R), 2 * g + R);
    MulMono(79 * R, 100 * g, g * R);
    PolynomialRegroup(e, g, R);
    MulMono(79 * R, 100 * g, R * R);
  }

  lemma PolynomialRegroup(e: nat, g: nat, R: nat)
    ensures 10000 * (e * e) * (2 * g + R) == 10000 * (e * e * (2 * g + R))
    ensures 441 * (R * R) * (2 * g + R) == 882 * (g * (R * R)) + 441 * (R * (R * R))
    ensures 79 * R * (g * R) == 79 * (g * (R * R)) && 100 * g * (g * R) == 100 * (g * g * R)
    ensures 79 * R * (R * R) == 79 * (R * (R * R)) && 100 * g * (R * R) == 100 * (g * (R * R))
    ensures 3 * (g * g) * R == 3 * (g * g * R)
  {
  }

  // ----- seven rounds -----

  function Squared(K: nat, times: nat): nat
    decreases times
  {
    if times == 0 then K else Squared(K * K, times - 1)
  }

  /** Whole runs: after m rounds the bound on the relative error has been squared m times. */
  lemma {:induction false} RefineSquares(a: nat, R: nat, n: nat, K: nat, m: nat)
    requires 3 <= R && Within(a, R, K) && Cube(R - 1) <= n < Cube(R)
    ensures Within(Refine(a, n, m), R, Squared(K, m))
    decreases m
  {
    if m > 0 {
      ErrorSquares(a, R, n, K);
      RefineSquares(Newton(a, n), R, n, K * K, m - 1);
    }
  }

  lemma SquaredSix()
    ensures Squared(16, 6) == UINT256
  {
    var k8 := 0x1_0000_0000;
    var k16 := k8 * k8;
    var k32 := k16 * k16;
    assert Squared(16, 6) == Squared(256, 5) == Squared(65536, 4) == Squared(k8, 3) == Squared(k16, 2)
        == Squared(k32, 1) == Squared(k32 * k32, 0);
  }

  lemma BracketFits(r: nat, n: nat)
    requires Cube(r) <= n < UINT256
    ensures r + 1 <= 0x40_0000_0000_0000_0000_0000
  {
    if 0x40_0000_0000_0000_0000_0000 <= r {
      CubeMono(0x40_0000_0000_0000_0000_0000, r);
    }
  }

  lemma BracketLarge(r: nat, n: nat)
    requires IsCubeRoot(r, n) && E36 <= n
    ensures E12 <= r
  {
    if r + 1 <= E12 { CubeMono(r + 1, E12); }
  }

  /** Seven rounds from the guess reach the floor cube root or one more. */
  lemma RefineReachesRoot(n: nat, r: nat)
    requires E36 <= n < UINT256 && IsCubeRoot(r, n)
    ensures r <= Refine(Guess(n), n, ROUNDS) <= r + 1
  {
    BracketLarge(r, n);
    BracketFits(r, n);
    GuessNear(n, r);
    FirstRound(Guess(n), r + 1, n);
    RefineSquares(Newton(Guess(n), n), r + 1, n, 16, 6);
    SquaredSix();
    var a := Refine(Newton(Guess(n), n), n, 6);
    if r + 1 < a { MulMono(1, a - (r + 1), UINT256); }
  }

  lemma RadicandFits(x: nat)
    requires x < UINT256
    ensures Radicand(x) < UINT256
    ensures 0 < x ==> E36 <= Radicand(x)
  {
  }

  /** For every uint256 but zero the unscaled result never undershoots the floor cube root of the
      scaled radicand, and overshoots it by at most one. */
  lemma CbrtBrackets(x: nat, r: nat)
    requires 0 < x < UINT256 && IsCubeRoot(r, Radicand(x))
    ensures r <= Unscaled(x) <= r + 1
  {
    RadicandFits(x);
    RefineReachesRoot(Radicand(x), r);
  }

  // ----- the wrapping program -----

  function UnsafeDiv(a: nat, b: nat): nat {
    if b == 0 then 0 else QuotientBounds(a, b); a / b
  }

  lemma {:induction false} RefineSnoc(a: nat, n: nat, m: nat)
    ensures Refine(a, n, m + 1) == Newton(Refine(a, n, m), n)
    decreases m
  {
    if m > 0 { RefineSnoc(Newton(a, n), n, m - 1); }
  }

  const ROOT_BOUND: nat := 0x100_0000_0000_0000_0000_0000

  lemma {:induction false} WithinIsSmall(a: nat, R: nat, K: nat)
    requires Within(a, R, K) && 1 <= K && 2 <= R <= ROOT_BOUND / 4
    ensures 0 < a < ROOT_BOUND
  {
    if R < a { MulMono(1, K, a - R); }
  }

  lemma {:induction false} SquaredPositive(K: nat, m: nat)
    requires 1 <= K
    ensures 1 <= Squared(K, m)
    decreases m
  {
    if m > 0 {
      MulMono(1, K, K);
      SquaredPositive(K * K, m - 1);
    }
  }

  /** Every iterate fits in 88 bits. */
  lemma IteratesAreSmall(n: nat, m: nat)
    requires n < UINT256 && (n == 0 || E36 <= n)
    ensures Refine(Guess(n), n, m) < ROOT_BOUND
  {
    if n == 0 {
      assert GuessAt(1, 0) == 1 by { assert Pow(1260, 0) == 1 && Pow(1000, 0) == 1; }
      FromOne(m);
    } else {
      var r := CubeRootExists(n);
      BracketLarge(r, n);
      BracketFits(r, n);
      GuessNear(n, r);
      if m > 0 {
        FirstRound(Guess(n), r + 1, n);
        RefineSquares(Newton(Guess(n), n), r + 1, n, 16, m - 1);
        SquaredPositive(16, m - 1);
        WithinIsSmall(Refine(Guess(n), n, m), r + 1, Squared(16, m - 1));
      }
    }
  }

  lemma {:induction false} FromOne(m: nat)
    ensures Refine(1, 0, m) <= 1 && Refine(0, 0, m) == 0
  {
    if m > 0 { FromOne(m - 1); }
  }

  function WrappedGuess(n: nat): nat {
    var lg := Log2(n);
    UnsafeDiv(Wrapped(Wrapped(Pow2(lg / 3)) * Wrapped(Pow(1260, lg % 3))), Wrapped(Pow(1000, lg % 3)))
  }

  function WrappedRound(a: nat, n: nat): nat {
    UnsafeDiv(Wrapped(Wrapped(2 * a) + UnsafeDiv(n, Wrapped(a * a))), 3)
  }

  lemma RoundFits(a: nat, n: nat)
    requires a < ROOT_BOUND && Newton(a, n) < ROOT_BOUND
    ensures WrappedRound(a, n) == Newton(a, n)
  {
    MulMono2(a, ROOT_BOUND, a, ROOT_BOUND);
  }

  lemma CubeBelowPower(lg: nat)
    ensures Cube(Pow2(lg / 3)) <= Pow2(lg)
  {
    Pow2Cubed(lg / 3, lg % 3);
    MulMono(1, Pow2(lg % 3), Cube(Pow2(lg / 3)));
  }

  lemma GuessPower(n: nat)
    requires n < UINT256
    ensures Pow2(Log2(n) / 3) < 0x40_0000_0000_0000_0000_0000
  {
    if 0 < n {
      Log2Bounds(n);
      CubeBelowPower(Log2(n));
      BracketFits(Pow2(Log2(n) / 3), n);
    }
  }

  lemma GuessFits(n: nat)
    requires n < UINT256
    ensures WrappedGuess(n) == Guess(n)
  {
    GuessPower(n);
    SmallPowers();
    GuessFitsAt(Pow2(Log2(n) / 3), Pow(1260, Log2(n) % 3), Pow(1000, Log2(n) % 3));
  }

  lemma GuessFitsAt(p: nat, u: nat, v: nat)
    requires p < 0x40_0000_0000_0000_0000_0000 && u <= 1587600 && 0 < v <= 1000000
    ensures Wrapped(Wrapped(p) * Wrapped(u)) == p * u && Wrapped(v) == v
  {
    MulMono2(p, 0x40_0000_0000_0000_0000_0000, u, 1587600);
  }

  /** The program as deployed, every operation modulo 2^256: none of them wraps. */
  method Cbrt(x: nat) returns (a: nat)
    requires x < UINT256
    ensures a == Unscaled(x) * Scale(x)
  {
    RadicandFits(x);
    var n := if x >= THRESHOLD * E18 then x
             else if x >= THRESHOLD then Wrapped(x * E18) else Wrapped(x * E36);
    GuessFits(n);
    a := WrappedGuess(n);
    for round := 0 to ROUNDS
      invariant a == Refine(Guess(n), n, round)
    {
      IteratesAreSmall(n, round);
      IteratesAreSmall(n, round + 1);
      RefineSnoc(Guess(n), n, round);
      RoundFits(a, n);
      a := WrappedRound(a, n);
    }
    IteratesAreSmall(n, ROUNDS);
    ScaleFits(a);
    if x >= THRESHOLD * E18 {
      a := Wrapped(a * E12);
    } else if x >= THRESHOLD {
      a := Wrapped(a * E6);
    }
  }

  lemma ScaleFits(a: nat)
    requires a < ROOT_BOUND
    ensures Wrapped(a * E12) == a * E12 && Wrapped(a * E6) == a * E6
  {
  }
}
