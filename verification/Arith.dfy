/** Integer arithmetic shared by every ported market: floor and truncating
    division, integer square roots, and the few monotonicity facts about products and
    quotients that the solver does not find on its own. */
module Arith {

  // ----- units -----

  /** One, with 18 decimals. */
  const WAD: nat := 1_000_000_000_000_000_000

  /** One hundred per cent of a fee, with 10 decimals. */
  const FEE_UNIT: nat := 10_000_000_000

  const UINT256: nat := 0x1_0000000000000000_0000000000000000_0000000000000000_0000000000000000

  // ----- results -----

  /** Why an operation raised: checked arithmetic, a loop cap, or a market's own refusal. */
  datatype Failure =
    | Underflow
    | Overflow
    | DivisionByZero
    | NoConvergence
    | Revert(reason: string)

  /** Outcome of an operation that may raise. */
  datatype Result<+T> = Ok(value: T) | Err(error: Failure) {
    predicate IsFailure() {
      Err?
    }

    function PropagateFailure<U>(): Result<U>
      requires Err?
    {
      Err(error)
    }

    function Extract(): T
      requires Ok?
    {
      value
    }
  }

  // ----- small functions -----

  function Abs(x: int): nat {
    if x < 0 then -x else x
  }

  function Min(x: int, y: int): int {
    if x <= y then x else y
  }

  function Max(x: int, y: int): int {
    if x >= y then x else y
  }

  /** Division that truncates toward zero, as Solidity and Vyper divide signed integers. */
  function TruncDiv(a: int, b: int): int
    requires b != 0
  {
    var q := Abs(a) / Abs(b);
    if (a >= 0) == (b > 0) then q else -q
  }

  /** Division that rounds toward minus infinity for either sign of the divisor. */
  function FloorDiv(a: int, b: int): int
    requires b != 0
  {
    if b > 0 then a / b else (-a) / (-b)
  }

  /** Floor division that raises on a zero divisor. */
  function Divided(a: int, b: int): Result<int> {
    if b == 0 then Err(DivisionByZero) else Ok(FloorDiv(a, b))
  }

  /** Unsigned 256-bit wrap-around. */
  function Wrapped(v: nat): nat {
    if v < UINT256 then v else Wrapped(v - UINT256)
  }

  /** Two's complement wrap-around of 256 bits. */
  function Signed(x: int): int
    decreases Abs(2 * x + 1)
  {
    if x >= UINT256 / 2 then Signed(x - UINT256)
    else if x < -(UINT256 / 2) then Signed(x + UINT256)
    else x
  }

  // ----- products -----

  lemma MulMono(x: int, y: int, z: int)
    requires x <= y && 0 <= z
    ensures x * z <= y * z
  {
  }

  lemma MulMonoStrict(x: int, y: int, z: int)
    requires x < y && 0 < z
    ensures x * z < y * z
  {
  }

  lemma MulMono2(a: int, b: int, c: int, d: int)
    requires 0 <= a <= b && 0 <= c <= d
    ensures 0 <= a * c <= b * d
  {
    MulMono(a, b, c);
    MulMono(c, d, b);
  }

  lemma MulCancel(x: int, y: int, z: int)
    requires x * z <= y * z && 0 < z
    ensures x <= y
  {
    if y < x { MulMonoStrict(y, x, z); }
  }

  lemma MulCancelStrict(x: int, y: int, z: int)
    requires x * z < y * z && 0 < z
    ensures x < y
  {
    if y <= x { MulMono(y, x, z); }
  }

  // ----- quotients -----

  lemma QuotientBounds(a: int, b: int)
    requires 0 < b
    ensures (a / b) * b <= a < (a / b) * b + b
    ensures 0 <= a ==> 0 <= a / b
  {
    assert a == (a / b) * b + a % b;
    if 0 <= a && a / b < 0 {
      MulMono(a / b, -1, b);
    }
  }

  /** The quotient is the only integer whose multiple brackets the numerator. */
  lemma QuotientUnique(a: int, b: int, q: int)
    requires 0 < b && q * b <= a < q * b + b
    ensures a / b == q
  {
    QuotientBounds(a, b);
    MulCancelStrict(q, a / b + 1, b);
    MulCancelStrict(a / b, q + 1, b);
  }

  lemma QuotientAtLeast(a: int, b: int, q: int)
    requires 0 < b && q * b <= a
    ensures q <= a / b
  {
    QuotientBounds(a, b);
    MulCancelStrict(q, a / b + 1, b);
  }

  lemma QuotientBelow(a: int, b: int, q: int)
    requires 0 < b && a < q * b
    ensures a / b < q
  {
    QuotientBounds(a, b);
    MulCancelStrict(a / b, q, b);
  }

  lemma QuotientAtMost(a: int, b: int, q: int)
    requires 0 < b && a <= q * b
    ensures a / b <= q
  {
    QuotientBounds(a, b);
    MulCancel(a / b, q, b);
  }

  lemma QuotientMono(a: int, b: int, d: int)
    requires 0 < d && a <= b
    ensures a / d <= b / d
  {
    QuotientBounds(a, d);
    QuotientAtLeast(b, d, a / d);
  }

  lemma QuotientAntitone(a: int, c: int, d: int)
    requires 0 <= a && 0 < c <= d
    ensures a / d <= a / c
  {
    QuotientBounds(a, d);
    MulMono(c, d, a / d);
    QuotientAtLeast(a, c, a / d);
  }

  lemma TruncDivBounds(a: int, b: int)
    requires 0 < b
    ensures -b < a - TruncDiv(a, b) * b < b
    ensures 0 <= a ==> TruncDiv(a, b) == a / b && 0 <= TruncDiv(a, b)
    ensures a <= 0 ==> TruncDiv(a, b) == -((-a) / b) && TruncDiv(a, b) <= 0
  {
    QuotientBounds(a, b);
    QuotientBounds(-a, b);
  }

  /** A fee of at most 100 % takes at most all of an amount. */
  lemma FeeShare(rate: int, amount: nat)
    requires 0 <= rate <= FEE_UNIT
    ensures 0 <= rate * amount / FEE_UNIT <= amount
  {
    MulMono2(0, rate, 0, amount);
    MulMono(rate, FEE_UNIT, amount);
    QuotientBounds(rate * amount, FEE_UNIT);
    QuotientAtMost(rate * amount, FEE_UNIT, amount);
  }

  // ----- square roots -----

  lemma SquareNonNegative(x: int)
    ensures 0 <= x * x
  {
  }

  lemma SquareMono(x: nat, y: nat)
    requires x <= y
    ensures x * x <= y * y
  {
    MulMono2(x, y, x, y);
  }

  lemma SquareCancelStrict(x: nat, y: nat)
    requires x * x < y * y
    ensures x < y
  {
    if y <= x { SquareMono(y, x); }
  }

  /** An error e that is at most 1/K of R, squared and divided by R, is at most 1/K^2 of it. */
  lemma SquareBound(f: nat, e: nat, R: nat, K: nat)
    requires 0 < R && R * f <= e * e && e * K <= R
    ensures f * (K * K) <= R
  {
    MulMono2(e * K, R, e * K, R);
    assert (e * K) * (e * K) == (e * e) * (K * K);
    MulMono(R * f, e * e, K * K);
    assert (R * f) * (K * K) == (f * (K * K)) * R;
    MulCancel(f * (K * K), R, R);
  }

  predicate IsSqrt(r: nat, n: nat) {
    r * r <= n < (r + 1) * (r + 1)
  }

  lemma SqrtUnique(n: nat, r: nat, s: nat)
    requires IsSqrt(r, n) && IsSqrt(s, n)
    ensures r == s
  {
    SquareCancelStrict(r, s + 1);
    SquareCancelStrict(s, r + 1);
  }

  lemma {:induction false} SqrtExists(n: nat)
    ensures exists r: nat :: r <= n && IsSqrt(r, n)
  {
    if n == 0 {
      assert IsSqrt(0, 0);
    } else {
      SqrtExists(n - 1);
      var s: nat :| s <= n - 1 && IsSqrt(s, n - 1);
      assert IsSqrt(s, n) || IsSqrt(s + 1, n);
    }
  }

  /** Integer square root: the largest r whose square does not exceed n. */
  function Isqrt(n: nat): (r: nat)
    ensures r * r <= n < (r + 1) * (r + 1)
  {
    SqrtExists(n);
    assert forall r: nat, s: nat :: IsSqrt(r, n) && IsSqrt(s, n) ==> r == s by {
      forall r: nat, s: nat | IsSqrt(r, n) && IsSqrt(s, n) ensures r == s { SqrtUnique(n, r, s); }
    }
    var r: nat :| r <= n && IsSqrt(r, n);
    r
  }

  /** Any r whose square brackets n is the integer square root. */
  lemma IsqrtUnique(n: nat, r: nat)
    requires r * r <= n < (r + 1) * (r + 1)
    ensures Isqrt(n) == r
  {
    SquareCancelStrict(r, Isqrt(n) + 1);
    SquareCancelStrict(Isqrt(n), r + 1);
  }

  lemma IsqrtAtLeast(n: nat, r: nat)
    requires r * r <= n
    ensures r <= Isqrt(n)
  {
    SquareCancelStrict(r, Isqrt(n) + 1);
  }

  // ----- powers of two -----

  function Pow2(n: nat): (r: nat)
    ensures r >= 1
  {
    if n == 0 then 1 else 2 * Pow2(n - 1)
  }

  lemma {:induction false} Pow2Add(m: nat, n: nat)
    ensures Pow2(m + n) == Pow2(m) * Pow2(n)
    decreases m
  {
    if m > 0 {
      Pow2Add(m - 1, n);
      assert Pow2(m) * Pow2(n) == 2 * (Pow2(m - 1) * Pow2(n));
    }
  }

  lemma {:induction false} Pow2Mono(m: nat, n: nat)
    requires m <= n
    ensures Pow2(m) <= Pow2(n)
    decreases n
  {
    if m < n { Pow2Mono(m, n - 1); }
  }

  // ----- powers -----

  function Pow(b: nat, e: nat): (r: nat)
    ensures 0 < b ==> 0 < r
  {
    if e == 0 then 1 else b * Pow(b, e - 1)
  }
}
