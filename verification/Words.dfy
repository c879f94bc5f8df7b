/** Writing fields back into packed storage words: mask, shift, or. One theorem covers every word
    of the Liquidity layer and the pool: each field decodes to what was written and every other
    bit is unchanged. */
module Words {
  import opened Arith
  import opened Bits

  datatype Slot = Slot(lo: nat, size: nat, value: nat) {
    predicate Covers(k: nat) {
      lo <= k < lo + size
    }
  }

  /** A cleared word with the slots or-ed in, left to right. */
  function Packed(v: nat, slots: seq<Slot>): nat {
    if slots == [] then v
    else
      var last := slots[|slots| - 1];
      Or(Packed(v, slots[..|slots| - 1]), Shl(last.value, last.lo))
  }

  /** The whole write-back. */
  function WriteBack(v: nat, mask: nat, slots: seq<Slot>): nat {
    Packed(And(v, mask), slots)
  }

  predicate Covered(slots: seq<Slot>, k: nat) {
    exists i :: 0 <= i < |slots| && slots[i].Covers(k)
  }

  /** Every value fits its slot. */
  predicate AllFit(slots: seq<Slot>) {
    forall i :: 0 <= i < |slots| ==> slots[i].value < Pow2(slots[i].size)
  }

  /** Slots follow each other without overlap. */
  predicate Ordered(slots: seq<Slot>) {
    forall i, j :: 0 <= i < j < |slots| ==> slots[i].lo + slots[i].size <= slots[j].lo
  }

  /** The mask clears exactly the slots of a 256-bit word. */
  ghost predicate Clears(mask: nat, slots: seq<Slot>) {
    forall k: nat :: k < 256 ==> (Bit(mask, k) <==> !Covered(slots, k))
  }

  // ----- the general theorem -----

  /** Two words agree on the bits from lo up to hi. */
  ghost predicate SameRange(v: nat, v': nat, lo: nat, hi: nat) {
    forall k: nat :: lo <= k < hi ==> Bit(v', k) == Bit(v, k)
  }

  lemma ShiftedBit(s: Slot, k: nat)
    requires s.value < Pow2(s.size)
    ensures Bit(Shl(s.value, s.lo), k) <==> s.Covers(k) && Bit(s.value, k - s.lo)
  {
    BitShl(s.value, s.lo, k);
    if s.lo + s.size <= k { BitAbove(s.value, s.size, k - s.lo); }
  }

  /** Outside the slots nothing changes. */
  lemma {:induction false} PackedOutside(v: nat, slots: seq<Slot>, k: nat)
    requires AllFit(slots) && !Covered(slots, k)
    ensures Bit(Packed(v, slots), k) == Bit(v, k)
    decreases |slots|
  {
    if slots != [] {
      var n := |slots| - 1;
      var init := slots[..n];
      assert !slots[n].Covers(k);
      assert !Covered(init, k) by {
        forall i | 0 <= i < |init| ensures !init[i].Covers(k) { assert init[i] == slots[i]; }
      }
      PackedOutside(v, init, k);
      ShiftedBit(slots[n], k);
      BitOr(Packed(v, init), Shl(slots[n].value, slots[n].lo), k);
    }
  }

  /** Inside a slot of a cleared word stand the bits of its value. */
  lemma {:induction false} PackedInside(v: nat, slots: seq<Slot>, i: nat, k: nat)
    requires AllFit(slots) && Ordered(slots) && i < |slots| && slots[i].Covers(k) && !Bit(v, k)
    ensures Bit(Packed(v, slots), k) == Bit(slots[i].value, k - slots[i].lo)
    decreases |slots|
  {
    var n := |slots| - 1;
    var init := slots[..n];
    ShiftedBit(slots[n], k);
    BitOr(Packed(v, init), Shl(slots[n].value, slots[n].lo), k);
    if i == n {
      assert !Covered(init, k) by {
        forall j | 0 <= j < |init| ensures !init[j].Covers(k) {
          assert slots[j].lo + slots[j].size <= slots[n].lo;
        }
      }
      PackedOutside(v, init, k);
    } else {
      assert init[i] == slots[i];
      assert slots[i].lo + slots[i].size <= slots[n].lo;
      PackedInside(v, init, i, k);
    }
  }

  /** Every field written decodes to the value written. */
  lemma WriteBackField(v: nat, mask: nat, slots: seq<Slot>, i: nat)
    requires AllFit(slots) && Ordered(slots) && Clears(mask, slots) && i < |slots|
    requires slots[i].lo + slots[i].size <= 256
    ensures Field(WriteBack(v, mask, slots), slots[i].lo, slots[i].size) == slots[i].value
  {
    var s, w := slots[i], WriteBack(v, mask, slots);
    forall k: nat | k < s.size ensures Bit(w, s.lo + k) == Bit(s.value, k) {
      assert Covered(slots, s.lo + k) by { assert slots[i].Covers(s.lo + k); }
      BitAnd(v, mask, s.lo + k);
      PackedInside(And(v, mask), slots, i, s.lo + k);
    }
    FieldIs(w, s.lo, s.size, s.value);
  }

  /** Every bit outside the fields is unchanged. */
  lemma WriteBackKeeps(v: nat, mask: nat, slots: seq<Slot>, k: nat)
    requires AllFit(slots) && Clears(mask, slots) && k < 256 && !Covered(slots, k)
    ensures Bit(WriteBack(v, mask, slots), k) == Bit(v, k)
  {
    BitAnd(v, mask, k);
    PackedOutside(And(v, mask), slots, k);
  }

  /** So is every field outside them. */
  lemma WriteBackKeepsField(v: nat, mask: nat, slots: seq<Slot>, lo: nat, size: nat)
    requires AllFit(slots) && Clears(mask, slots) && lo + size <= 256
    requires forall i :: 0 <= i < |slots| ==> slots[i].lo + slots[i].size <= lo || lo + size <= slots[i].lo
    ensures Field(WriteBack(v, mask, slots), lo, size) == Field(v, lo, size)
  {
    forall k: nat | lo <= k < lo + size ensures Bit(WriteBack(v, mask, slots), k) == Bit(v, k) {
      WriteBackKeeps(v, mask, slots, k);
    }
    FieldKept(v, WriteBack(v, mask, slots), lo, size);
  }

  // ----- masks as runs of bits -----

  /** A run of equal bits on top of a word of n bits. */
  lemma RunOnTop(mask: nat, n: nat, lo: nat, size: nat, ones: bool)
    requires lo < Pow2(n) && mask == (if ones then Pow2(size) - 1 else 0) * Pow2(n) + lo
    ensures mask < Pow2(n + size)
    ensures forall k: nat :: Bit(mask, k) == if k < n then Bit(lo, k) else ones && k < n + size
  {
    var hi := if ones then Pow2(size) - 1 else 0;
    Pow2Add(size, n);
    MulMono(hi + 1, Pow2(size), Pow2(n));
    forall k: nat ensures Bit(mask, k) == if k < n then Bit(lo, k) else ones && k < n + size {
      BitSplit(hi, lo, n, k);
      if n <= k {
        if ones { OnesBit(size, k - n); } else { BitZero(k - n); }
      }
    }
  }

  lemma {:induction false} OnesBit(n: nat, k: nat)
    ensures Bit(Pow2(n) - 1, k) <==> k < n
  {
    if n == 0 {
      BitZero(k);
    } else if k > 0 {
      OnesBit(n - 1, k - 1);
    }
  }

  // ----- the words -----

  const SUPPLY_MASK: nat := 0xC000000003FFFFFFFFFFFFFC0000000000000000000000000000000000000001
  const BORROW_MASK: nat := 0xfffffffffffffffffffffffc0000000000000000000000000000000000000001
  const RAW_SUPPLY_MASK: nat := 0xffffffffffffffffffffffffffffffffffffffffffffffff0000000000000000
  const FREE_SUPPLY_MASK: nat := 0xffffffffffffffffffffffffffffffff0000000000000000ffffffffffffffff
  const RAW_BORROW_MASK: nat := 0xffffffffffffffff0000000000000000ffffffffffffffffffffffffffffffff
  const FREE_BORROW_MASK: nat := 0x0000000000000000ffffffffffffffffffffffffffffffffffffffffffffffff
  const CONFIG_MASK: nat := 0xfe000000000000000000000000000000000000000000000003fff0003fff0000
  const LAST_PRICE_MASK: nat := 0xfffffffffffffffffffffffffffffffffffffffffffe0000000001ffffffffff
  const PRICES_MASK: nat := 0xfffffffffffffffffffffffffc00000000000000000000000000000000000001
  const ORACLE_MASK: nat := 0xfffffffffffffff8000000000000000000000000000000000000000000000001

  lemma LowDoublings()
    ensures Pow2(0) == 1 && Pow2(1) == 2 && Pow2(2) == 4 && Pow2(4) == 16 && Pow2(8) == 0x100 && Pow2(16) == 0x1_0000
  {
    Pow2Add(1, 1);
    Pow2Add(2, 2);
    Pow2Add(4, 4);
    Pow2Add(8, 8);
  }

  lemma Doublings()
    ensures Pow2(0) == 1 && Pow2(1) == 2 && Pow2(2) == 4 && Pow2(4) == 16 && Pow2(8) == 0x100 && Pow2(16) == 0x1_0000
    ensures Pow2(32) == 0x1_0000_0000 && Pow2(64) == 0x1_0000000000000000
    ensures Pow2(128) == 0x1_0000000000000000_0000000000000000
  {
    LowDoublings();
    Pow2Add(16, 16);
    Pow2Add(32, 32);
    Pow2Add(64, 64);
  }

  lemma Powers()
    ensures Pow2(7) == 0x80
    ensures Pow2(14) == 0x4000
    ensures Pow2(41) == 0x20000000000
    ensures Pow2(44) == 0x100000000000
    ensures Pow2(56) == 0x100000000000000
    ensures Pow2(61) == 0x2000000000000000
    ensures Pow2(81) == 0x200000000000000000000
    ensures Pow2(94) == 0x400000000000000000000000
    ensures Pow2(102) == 0x40000000000000000000000000
  {
    Doublings();
    Pow2Add(4, 2);
    Pow2Add(6, 1);
    Pow2Add(8, 4);
    Pow2Add(12, 2);
    Pow2Add(32, 8);
    Pow2Add(40, 1);
    Pow2Add(40, 4);
    Pow2Add(32, 16);
    Pow2Add(48, 8);
    Pow2Add(56, 4);
    Pow2Add(60, 1);
    Pow2Add(64, 16);
    Pow2Add(80, 1);
    Pow2Add(80, 8);
    Pow2Add(88, 4);
    Pow2Add(92, 2);
    Pow2Add(64, 32);
    Pow2Add(96, 4);
    Pow2Add(100, 2);
  }

  lemma LargePowers()
    ensures Pow2(154) == 0x400000000000000000000000000000000000000
    ensures Pow2(162) == 0x40000000000000000000000000000000000000000
    ensures Pow2(175) == 0x80000000000000000000000000000000000000000000
    ensures Pow2(192) == 0x1000000000000000000000000000000000000000000000000
    ensures Pow2(195) == 0x8000000000000000000000000000000000000000000000000
    ensures Pow2(249) == 0x200000000000000000000000000000000000000000000000000000000000000
    ensures Pow2(254) == 0x4000000000000000000000000000000000000000000000000000000000000000
  {
    Doublings();
    Pow2Add(128, 16);
    Pow2Add(144, 8);
    Pow2Add(152, 2);
    Pow2Add(128, 32);
    Pow2Add(160, 2);
    Pow2Add(160, 8);
    Pow2Add(168, 4);
    Pow2Add(172, 2);
    Pow2Add(174, 1);
    Pow2Add(128, 64);
    Pow2Add(192, 2);
    Pow2Add(194, 1);
    Pow2Add(192, 32);
    Pow2Add(224, 16);
    Pow2Add(240, 8);
    Pow2Add(248, 1);
    Pow2Add(248, 4);
    Pow2Add(252, 2);
  }

  lemma SupplyMaskBits()
    ensures forall k: nat :: Bit(SUPPLY_MASK, k) <==> k < 1 || 162 <= k < 218 || 254 <= k < 256
  {
    hide Bit, Pow2;
    Doublings();
    Powers();
    LargePowers();
    RunOnTop(0x1, 0, 0x0, 1, true);
    RunOnTop(0x1, 1, 0x1, 161, false);
    RunOnTop(0x3fffffffffffffc0000000000000000000000000000000000000001, 162, 0x1, 56, true);
    RunOnTop(0x3fffffffffffffc0000000000000000000000000000000000000001, 218,
             0x3fffffffffffffc0000000000000000000000000000000000000001, 36, false);
    RunOnTop(0xc000000003fffffffffffffc0000000000000000000000000000000000000001, 254,
             0x3fffffffffffffc0000000000000000000000000000000000000001, 2, true);
  }

  lemma BorrowMaskBits()
    ensures forall k: nat :: Bit(BORROW_MASK, k) <==> k < 1 || 162 <= k < 256
  {
    hide Bit, Pow2;
    Doublings();
    Powers();
    LargePowers();
    RunOnTop(0x1, 0, 0x0, 1, true);
    RunOnTop(0x1, 1, 0x1, 161, false);
    RunOnTop(0xfffffffffffffffffffffffc0000000000000000000000000000000000000001, 162, 0x1, 94, true);
  }

  lemma RawSupplyMaskBits()
    ensures forall k: nat :: Bit(RAW_SUPPLY_MASK, k) <==> 64 <= k < 256
  {
    hide Bit, Pow2;
    Doublings();
    LargePowers();
    RunOnTop(0x0, 0, 0x0, 64, false);
    RunOnTop(0xffffffffffffffffffffffffffffffffffffffffffffffff0000000000000000, 64, 0x0, 192, true);
  }

  lemma FreeSupplyMaskBits()
    ensures forall k: nat :: Bit(FREE_SUPPLY_MASK, k) <==> k < 64 || 128 <= k < 256
  {
    hide Bit, Pow2;
    Doublings();
    RunOnTop(0xffffffffffffffff, 0, 0x0, 64, true);
    RunOnTop(0xffffffffffffffff, 64, 0xffffffffffffffff, 64, false);
    RunOnTop(0xffffffffffffffffffffffffffffffff0000000000000000ffffffffffffffff, 128, 0xffffffffffffffff, 128, true);
  }

  lemma RawBorrowMaskBits()
    ensures forall k: nat :: Bit(RAW_BORROW_MASK, k) <==> k < 128 || 192 <= k < 256
  {
    hide Bit, Pow2;
    Doublings();
    LargePowers();
    RunOnTop(0xffffffffffffffffffffffffffffffff, 0, 0x0, 128, true);
    RunOnTop(0xffffffffffffffffffffffffffffffff, 128, 0xffffffffffffffffffffffffffffffff, 64, false);
    RunOnTop(0xffffffffffffffff0000000000000000ffffffffffffffffffffffffffffffff, 192,
             0xffffffffffffffffffffffffffffffff, 64, true);
  }

  lemma FreeBorrowMaskBits()
    ensures forall k: nat :: Bit(FREE_BORROW_MASK, k) <==> k < 192
  {
    hide Bit, Pow2;
    Doublings();
    LargePowers();
    RunOnTop(0xffffffffffffffffffffffffffffffffffffffffffffffff, 0, 0x0, 192, true);
    RunOnTop(0xffffffffffffffffffffffffffffffffffffffffffffffff, 192,
             0xffffffffffffffffffffffffffffffffffffffffffffffff, 64, false);
  }

  lemma ConfigMaskBits()
    ensures forall k: nat :: Bit(CONFIG_MASK, k) <==> 16 <= k < 30 || 44 <= k < 58 || 249 <= k < 256
  {
    hide Bit, Pow2;
    Doublings();
    Powers();
    LargePowers();
    RunOnTop(0x0, 0, 0x0, 16, false);
    RunOnTop(0x3fff0000, 16, 0x0, 14, true);
    RunOnTop(0x3fff0000, 30, 0x3fff0000, 14, false);
    RunOnTop(0x3fff0003fff0000, 44, 0x3fff0000, 14, true);
    RunOnTop(0x3fff0003fff0000, 58, 0x3fff0003fff0000, 191, false);
    RunOnTop(0xfe000000000000000000000000000000000000000000000003fff0003fff0000, 249, 0x3fff0003fff0000, 7, true);
  }

  lemma LastPriceMaskBits()
    ensures forall k: nat :: Bit(LAST_PRICE_MASK, k) <==> k < 41 || 81 <= k < 256
  {
    hide Bit, Pow2;
    Doublings();
    Powers();
    LargePowers();
    RunOnTop(0x1ffffffffff, 0, 0x0, 41, true);
    RunOnTop(0x1ffffffffff, 41, 0x1ffffffffff, 40, false);
    RunOnTop(0xfffffffffffffffffffffffffffffffffffffffffffe0000000001ffffffffff, 81, 0x1ffffffffff, 175, true);
  }

  lemma PricesMaskBits()
    ensures forall k: nat :: Bit(PRICES_MASK, k) <==> k < 1 || 154 <= k < 256
  {
    hide Bit, Pow2;
    Doublings();
    Powers();
    LargePowers();
    RunOnTop(0x1, 0, 0x0, 1, true);
    RunOnTop(0x1, 1, 0x1, 153, false);
    RunOnTop(0xfffffffffffffffffffffffffc00000000000000000000000000000000000001, 154, 0x1, 102, true);
  }

  lemma OracleMaskBits()
    ensures forall k: nat :: Bit(ORACLE_MASK, k) <==> k < 1 || 195 <= k < 256
  {
    hide Bit, Pow2;
    Doublings();
    Powers();
    LargePowers();
    RunOnTop(0x1, 0, 0x0, 1, true);
    RunOnTop(0x1, 1, 0x1, 194, false);
    RunOnTop(0xfffffffffffffff8000000000000000000000000000000000000000000000001, 195, 0x1, 61, true);
  }
}
