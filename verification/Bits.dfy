/** Bits and bit fields of storage words: and, or and shifts on naturals, each by its bits,
    and words and fields determined by theirs. */
module Bits {
  import opened Arith

  predicate Bit(v: nat, k: nat) {
    if k == 0 then v % 2 == 1 else Bit(v / 2, k - 1)
  }

  function And(a: nat, b: nat): nat {
    if a == 0 || b == 0 then 0 else 2 * And(a / 2, b / 2) + (a % 2) * (b % 2)
  }

  function Or(a: nat, b: nat): nat {
    if a == 0 then b else if b == 0 then a
    else 2 * Or(a / 2, b / 2) + (if a % 2 == 1 || b % 2 == 1 then 1 else 0)
  }

  function Shl(v: nat, n: nat): nat {
    v * Pow2(n)
  }

  function Shr(v: nat, n: nat): nat {
    QuotientBounds(v, Pow2(n));
    v / Pow2(n)
  }

  /** The `size` bits of v from bit `lo` up. */
  function Field(v: nat, lo: nat, size: nat): nat {
    Shr(v, lo) % Pow2(size)
  }

  // ----- single bits -----

  lemma AndHalves(a: nat, b: nat)
    ensures And(a, b) / 2 == And(a / 2, b / 2)
    ensures And(a, b) % 2 == 1 <==> a % 2 == 1 && b % 2 == 1
  {
    assert (a % 2) * (b % 2) == if a % 2 == 1 && b % 2 == 1 then 1 else 0;
  }

  lemma OrHalves(a: nat, b: nat)
    ensures Or(a, b) / 2 == Or(a / 2, b / 2)
    ensures Or(a, b) % 2 == 1 <==> a % 2 == 1 || b % 2 == 1
  {
  }

  lemma {:induction false} BitAnd(a: nat, b: nat, k: nat)
    ensures Bit(And(a, b), k) <==> Bit(a, k) && Bit(b, k)
    decreases k
  {
    hide And;
    AndHalves(a, b);
    if k > 0 { BitAnd(a / 2, b / 2, k - 1); }
  }

  lemma {:induction false} BitOr(a: nat, b: nat, k: nat)
    ensures Bit(Or(a, b), k) <==> Bit(a, k) || Bit(b, k)
    decreases k
  {
    hide Or;
    OrHalves(a, b);
    if k > 0 { BitOr(a / 2, b / 2, k - 1); }
  }

  lemma {:induction false} BitZero(k: nat)
    ensures !Bit(0, k)
  {
    if k > 0 { BitZero(k - 1); }
  }

  /** Bits of a word split at position n. */
  lemma {:induction false} BitSplit(hi: nat, lo: nat, n: nat, k: nat)
    requires lo < Pow2(n)
    ensures Bit(hi * Pow2(n) + lo, k) == if k < n then Bit(lo, k) else Bit(hi, k - n)
    decreases n
  {
    if n > 0 {
      var v := hi * Pow2(n) + lo;
      assert hi * Pow2(n) == 2 * (hi * Pow2(n - 1));
      assert v % 2 == lo % 2 && v / 2 == hi * Pow2(n - 1) + lo / 2;
      if k > 0 { BitSplit(hi, lo / 2, n - 1, k - 1); }
    }
  }

  lemma BitShl(v: nat, n: nat, k: nat)
    ensures Bit(Shl(v, n), k) <==> n <= k && Bit(v, k - n)
  {
    BitSplit(v, 0, n, k);
    if k < n { BitZero(k); }
  }

  lemma BitShr(v: nat, n: nat, k: nat)
    ensures Bit(Shr(v, n), k) == Bit(v, n + k)
  {
    QuotientBounds(v, Pow2(n));
    BitSplit(Shr(v, n), v - Shr(v, n) * Pow2(n), n, n + k);
  }

  lemma BitAbove(v: nat, n: nat, k: nat)
    requires v < Pow2(n) && n <= k
    ensures !Bit(v, k)
  {
    BitSplit(0, v, n, k);
    BitZero(k - n);
  }

  lemma BitMod(v: nat, n: nat, k: nat)
    ensures Bit(v % Pow2(n), k) <==> k < n && Bit(v, k)
  {
    QuotientBounds(v, Pow2(n));
    var q := v / Pow2(n);
    assert v % Pow2(n) == v - q * Pow2(n);
    BitSplit(q, v % Pow2(n), n, k);
    if n <= k { BitAbove(v % Pow2(n), n, k); }
  }

  /** Words with the same bits are equal. */
  lemma {:induction false} SameBits(a: nat, b: nat)
    requires forall k: nat :: Bit(a, k) == Bit(b, k)
    ensures a == b
    decreases a + b
  {
    if a != 0 || b != 0 {
      assert a % 2 == b % 2 by { assert Bit(a, 0) == Bit(b, 0); }
      forall k: nat ensures Bit(a / 2, k) == Bit(b / 2, k) {
        assert Bit(a, k + 1) == Bit(b, k + 1);
      }
      if a / 2 + b / 2 < a + b { SameBits(a / 2, b / 2); }
    }
  }

  lemma BitField(v: nat, lo: nat, size: nat, k: nat)
    ensures Bit(Field(v, lo, size), k) <==> k < size && Bit(v, lo + k)
  {
    BitMod(Shr(v, lo), size, k);
    BitShr(v, lo, k);
  }

  /** A field that carries the bits of x is x. */
  lemma FieldIs(v: nat, lo: nat, size: nat, x: nat)
    requires x < Pow2(size)
    requires forall k: nat :: k < size ==> Bit(v, lo + k) == Bit(x, k)
    ensures Field(v, lo, size) == x
  {
    forall k: nat ensures Bit(Field(v, lo, size), k) == Bit(x, k) {
      BitField(v, lo, size, k);
      if size <= k { BitAbove(x, size, k); }
    }
    SameBits(Field(v, lo, size), x);
  }

  /** A field whose bits did not change decodes to what it did. */
  lemma FieldKept(v: nat, v': nat, lo: nat, size: nat)
    requires forall k: nat :: lo <= k < lo + size ==> Bit(v', k) == Bit(v, k)
    ensures Field(v', lo, size) == Field(v, lo, size)
  {
    forall k: nat ensures Bit(Field(v', lo, size), k) == Bit(Field(v, lo, size), k) {
      BitField(v, lo, size, k);
      BitField(v', lo, size, k);
    }
    SameBits(Field(v', lo, size), Field(v, lo, size));
  }

  lemma FieldBound(v: nat, lo: nat, size: nat)
    ensures Field(v, lo, size) < Pow2(size)
  {
  }
}
