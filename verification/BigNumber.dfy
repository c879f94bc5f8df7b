/** Fluid's BigNumber: a coefficient and an exponent packed in one field, rounding down or up. */
module BigNumber {
  import opened Arith
  import opened Bits

  const EXPONENT_SIZE: nat := 8
  const COEFFICIENT_SIZE: nat := 56
  const DECAY_COEFFICIENT_SIZE: nat := 18
  const PRICE_COEFFICIENT_SIZE: nat := 32

  function BitLength(n: nat): nat {
    if n == 0 then 0 else 1 + BitLength(n / 2)
  }

  function FromBig(v: nat): nat {
    Shl(Shr(v, EXPONENT_SIZE), v % Pow2(EXPONENT_SIZE))
  }

  /** Exponent of the representation: how many low bits do not fit the coefficient. */
  function ExponentOf(n: nat, size: nat): nat {
    if BitLength(n) < size then 0 else BitLength(n) - size
  }

  function ToBig(n: nat, size: nat, up: bool): Result<nat>
    requires 0 < size
  {
    var e := ExponentOf(n, size);
    var c := Shr(n, e) + (if up && e > 0 then 1 else 0);
    var full := up && e > 0 && c == Pow2(size);
    var c' := if full then Pow2(size - 1) else c;
    var e' := if full then e + 1 else e;
    if e' >= Pow2(EXPONENT_SIZE) then Err(Revert("big number overflow"))
    else Ok(Shl(c', EXPONENT_SIZE) + e')
  }

  // ----- rounding -----

  lemma {:induction false} BitLengthBounds(n: nat)
    ensures n < Pow2(BitLength(n))
    ensures 0 < n ==> 0 < BitLength(n) && Pow2(BitLength(n) - 1) <= n
  {
    if n > 0 { BitLengthBounds(n / 2); }
  }

  lemma {:induction false} BitLengthMono(m: nat, n: nat)
    requires m <= n
    ensures BitLength(m) <= BitLength(n)
  {
    if m > 0 { BitLengthMono(m / 2, n / 2); }
  }

  /** n with the bits that do not fit the coefficient cleared. */
  function RoundedDown(n: nat, size: nat): nat {
    Shl(Shr(n, ExponentOf(n, size)), ExponentOf(n, size))
  }

  lemma CoefficientFits(n: nat, size: nat)
    requires 0 < size
    ensures Shr(n, ExponentOf(n, size)) < Pow2(size)
  {
    var e := ExponentOf(n, size);
    BitLengthBounds(n);
    Pow2Mono(BitLength(n), size + e);
    Pow2Add(size, e);
    QuotientBelow(n, Pow2(e), Pow2(size));
  }

  lemma Unpacked(c: nat, e: nat)
    requires e < Pow2(EXPONENT_SIZE)
    ensures FromBig(Shl(c, EXPONENT_SIZE) + e) == Shl(c, e)
  {
    var v := Shl(c, EXPONENT_SIZE) + e;
    QuotientUnique(v, Pow2(EXPONENT_SIZE), c);
    assert v % Pow2(EXPONENT_SIZE) == v - c * Pow2(EXPONENT_SIZE);
  }

  lemma PackedFits(c: nat, e: nat, size: nat)
    requires c < Pow2(size) && e < Pow2(EXPONENT_SIZE)
    ensures Shl(c, EXPONENT_SIZE) + e < Pow2(size + EXPONENT_SIZE)
  {
    Pow2Add(size, EXPONENT_SIZE);
    MulMono(c + 1, Pow2(size), Pow2(EXPONENT_SIZE));
  }

  /** Rounding down loses less than one unit of the exponent, and fits the field. */
  lemma DownIsRounded(n: nat, size: nat)
    requires 0 < size && ToBig(n, size, false).Ok?
    ensures FromBig(ToBig(n, size, false).value) == RoundedDown(n, size)
    ensures ToBig(n, size, false).value < Pow2(size + EXPONENT_SIZE)
    ensures RoundedDown(n, size) <= n < RoundedDown(n, size) + Pow2(ExponentOf(n, size))
  {
    var e := ExponentOf(n, size);
    CoefficientFits(n, size);
    Unpacked(Shr(n, e), e);
    PackedFits(Shr(n, e), e, size);
    QuotientBounds(n, Pow2(e));
  }

  lemma RoundedDownAtMost(n: nat, size: nat)
    ensures RoundedDown(n, size) <= n
  {
    QuotientBounds(n, Pow2(ExponentOf(n, size)));
  }

  /** Rounding down preserves order. */
  lemma RoundedDownMono(m: nat, n: nat, size: nat)
    requires 0 < size && m <= n
    ensures RoundedDown(m, size) <= RoundedDown(n, size)
  {
    BitLengthMono(m, n);
    var e, f := ExponentOf(m, size), ExponentOf(n, size);
    if e == f {
      QuotientMono(m, n, Pow2(e));
      MulMono(Shr(m, e), Shr(n, e), Pow2(e));
    } else {
      RoundedDownAtMost(m, size);
      LeadingBitKept(n, size);
      BitLengthBounds(m);
      Pow2Mono(BitLength(m), BitLength(n) - 1);
    }
  }

  lemma LeadingBitKept(n: nat, size: nat)
    requires 0 < size && 0 < ExponentOf(n, size)
    ensures Pow2(BitLength(n) - 1) <= RoundedDown(n, size)
  {
    hide Pow2;
    var e := ExponentOf(n, size);
    BitLengthBounds(n);
    Pow2Add(size - 1, e);
    QuotientAtLeast(n, Pow2(e), Pow2(size - 1));
    MulMono(Pow2(size - 1), Shr(n, e), Pow2(e));
  }

  /** Rounding down a rounded value changes nothing. */
  lemma RoundedDownIdempotent(n: nat, size: nat)
    requires 0 < size
    ensures RoundedDown(RoundedDown(n, size), size) == RoundedDown(n, size)
  {
    var e, r := ExponentOf(n, size), RoundedDown(n, size);
    RoundedDownAtMost(n, size);
    BitLengthMono(r, n);
    if 0 < e {
      LeadingBitKept(n, size);
      BitLengthBounds(r);
      if BitLength(r) < BitLength(n) { Pow2Mono(BitLength(r), BitLength(n) - 1); }
    } else {
      assert r == n;
    }
    assert ExponentOf(r, size) == e;
    QuotientUnique(r, Pow2(e), Shr(n, e));
  }

  /** Rounding up never loses, and fits the field. */
  lemma UpIsAbove(n: nat, size: nat)
    requires 0 < size && ToBig(n, size, true).Ok?
    ensures n <= FromBig(ToBig(n, size, true).value) <= n + Pow2(ExponentOf(n, size))
    ensures ToBig(n, size, true).value < Pow2(size + EXPONENT_SIZE)
  {
    var e := ExponentOf(n, size);
    CoefficientFits(n, size);
    QuotientBounds(n, Pow2(e));
    var c := Shr(n, e);
    if e == 0 {
      Unpacked(c, e);
      PackedFits(c, e, size);
    } else if c + 1 == Pow2(size) {
      Unpacked(Pow2(size - 1), e + 1);
      PackedFits(Pow2(size - 1), e + 1, size);
      CarriedCoefficient(size, e);
      Successor(c, e);
    } else {
      Unpacked(c + 1, e);
      PackedFits(c + 1, e, size);
      Successor(c, e);
    }
  }

  lemma CarriedCoefficient(size: nat, e: nat)
    requires 0 < size
    ensures Shl(Pow2(size - 1), e + 1) == Shl(Pow2(size), e)
  {
    assert Pow2(size - 1) * (2 * Pow2(e)) == (2 * Pow2(size - 1)) * Pow2(e);
  }

  lemma Successor(c: nat, e: nat)
    ensures Shl(c + 1, e) == Shl(c, e) + Pow2(e)
  {
  }
}
