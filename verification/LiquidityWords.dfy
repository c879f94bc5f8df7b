/** What each write-back of the Liquidity layer leaves in its word: every field it writes decodes
    to the value written, every other bit is what it was, and no value overflows its field. */
module LiquidityWords {
  import opened Arith
  import opened Bits
  import opened Words
  import opened Liquidity

  const CLOCK_BITS: nat := 33

  /** The slots cover the cleared runs [1, 162) and [218, 254) of a supply word. */
  lemma SupplyCleared(amount: nat, limit: nat, ts: nat, decay: Decay)
    ensures Clears(SUPPLY_MASK, SupplySlots(amount, limit, ts, decay))
  {
    hide Bit;
    SupplyMaskBits();
    var slots := SupplySlots(amount, limit, ts, decay);
    forall k: nat | k < 256 ensures Bit(SUPPLY_MASK, k) <==> !Covered(slots, k) {
      if 1 <= k < 65 { assert slots[0].Covers(k); }
      else if 65 <= k < 129 { assert slots[1].Covers(k); }
      else if 129 <= k < 162 { assert slots[2].Covers(k); }
      else if 218 <= k < 244 { assert slots[3].Covers(k); }
      else if 244 <= k < 254 { assert slots[4].Covers(k); }
    }
  }

  lemma SupplyWritten(word: nat, amount: nat, limit: nat, ts: nat, decay: Decay)
    requires amount < Pow2(64) && limit < Pow2(64) && ts < Pow2(CLOCK_BITS)
    requires decay.amount < Pow2(26) && decay.checkpoints < Pow2(10)
    ensures var w := WriteBack(word, SUPPLY_MASK, SupplySlots(amount, limit, ts, decay));
            && Field(w, 1, 64) == amount && Field(w, 65, 64) == limit && Field(w, 129, CLOCK_BITS) == ts
            && Field(w, 218, 26) == decay.amount && Field(w, 244, 10) == decay.checkpoints
            && (forall k: nat :: k == 0 || 162 <= k < 218 || 254 <= k < 256 ==> Bit(w, k) == Bit(word, k))
            && Field(w, 0, 1) == Field(word, 0, 1)
  {
    hide Bit, Pow2, WriteBack, Field;
    var slots := SupplySlots(amount, limit, ts, decay);
    SupplyCleared(amount, limit, ts, decay);
    WriteBackField(word, SUPPLY_MASK, slots, 0);
    WriteBackField(word, SUPPLY_MASK, slots, 1);
    WriteBackField(word, SUPPLY_MASK, slots, 2);
    WriteBackField(word, SUPPLY_MASK, slots, 3);
    WriteBackField(word, SUPPLY_MASK, slots, 4);
    WriteBackKeepsField(word, SUPPLY_MASK, slots, 0, 1);
    forall k: nat | k == 0 || 162 <= k < 218 || 254 <= k < 256
      ensures Bit(WriteBack(word, SUPPLY_MASK, slots), k) == Bit(word, k)
    {
      WriteBackKeeps(word, SUPPLY_MASK, slots, k);
    }
  }

  lemma BorrowCleared(amount: nat, limit: nat, ts: nat)
    ensures Clears(BORROW_MASK, BorrowSlots(amount, limit, ts))
  {
    hide Bit;
    BorrowMaskBits();
    var slots := BorrowSlots(amount, limit, ts);
    forall k: nat | k < 256 ensures Bit(BORROW_MASK, k) <==> !Covered(slots, k) {
      if 1 <= k < 65 { assert slots[0].Covers(k); }
      else if 65 <= k < 129 { assert slots[1].Covers(k); }
      else if 129 <= k < 162 { assert slots[2].Covers(k); }
    }
  }

  lemma BorrowWritten(word: nat, amount: nat, limit: nat, ts: nat)
    requires amount < Pow2(64) && limit < Pow2(64) && ts < Pow2(CLOCK_BITS)
    ensures var w := WriteBack(word, BORROW_MASK, BorrowSlots(amount, limit, ts));
            && Field(w, 1, 64) == amount && Field(w, 65, 64) == limit && Field(w, 129, CLOCK_BITS) == ts
            && (forall k: nat :: k == 0 || 162 <= k < 256 ==> Bit(w, k) == Bit(word, k))
            && Field(w, 0, 1) == Field(word, 0, 1)
  {
    hide Bit, Pow2, WriteBack, Field;
    var slots := BorrowSlots(amount, limit, ts);
    BorrowCleared(amount, limit, ts);
    WriteBackField(word, BORROW_MASK, slots, 0);
    WriteBackField(word, BORROW_MASK, slots, 1);
    WriteBackField(word, BORROW_MASK, slots, 2);
    WriteBackKeepsField(word, BORROW_MASK, slots, 0, 1);
    forall k: nat | k == 0 || 162 <= k < 256
      ensures Bit(WriteBack(word, BORROW_MASK, slots), k) == Bit(word, k)
    {
      WriteBackKeeps(word, BORROW_MASK, slots, k);
    }
  }

  /** The mask of each of the four totals. */
  function TotalMask(i: nat): nat
    requires i < 4
  {
    if i == 0 then RAW_SUPPLY_MASK else if i == 1 then FREE_SUPPLY_MASK
    else if i == 2 then RAW_BORROW_MASK else FREE_BORROW_MASK
  }

  lemma TotalCleared(i: nat, big: nat)
    requires i < 4
    ensures Clears(TotalMask(i), [Slot(64 * i, 64, big)])
  {
    hide Bit;
    RawSupplyMaskBits();
    FreeSupplyMaskBits();
    RawBorrowMaskBits();
    FreeBorrowMaskBits();
    var slots := [Slot(64 * i, 64, big)];
    forall k: nat | k < 256 ensures Bit(TotalMask(i), k) <==> !Covered(slots, k) {
      if 64 * i <= k < 64 * i + 64 { assert slots[0].Covers(k); }
    }
  }

  /** One total is written and the other three keep their bits. */
  lemma TotalWritten(word: nat, i: nat, big: nat)
    requires i < 4 && big < Pow2(64)
    ensures var w := WriteBack(word, TotalMask(i), [Slot(64 * i, 64, big)]);
            && Field(w, 64 * i, 64) == big
            && forall k: nat :: k < 256 && !(64 * i <= k < 64 * i + 64) ==> Bit(w, k) == Bit(word, k)
  {
    hide Bit, Pow2, WriteBack, Field, TotalMask;
    var slots := [Slot(64 * i, 64, big)];
    TotalCleared(i, big);
    WriteBackField(word, TotalMask(i), slots, 0);
    forall k: nat | k < 256 && !(64 * i <= k < 64 * i + 64)
      ensures Bit(WriteBack(word, TotalMask(i), slots), k) == Bit(word, k)
    {
      WriteBackKeeps(word, TotalMask(i), slots, k);
    }
  }

  lemma ConfigCleared(rate: nat, util: nat, ts: nat, p: Prices, supplyRatio: nat, borrowRatio: nat)
    requires 0 <= p.supply && 0 <= p.borrow
    ensures Clears(CONFIG_MASK, ConfigSlots(rate, util, ts, p, supplyRatio, borrowRatio))
  {
    hide Bit;
    ConfigMaskBits();
    var slots := ConfigSlots(rate, util, ts, p, supplyRatio, borrowRatio);
    forall k: nat | k < 256 ensures Bit(CONFIG_MASK, k) <==> !Covered(slots, k) {
      if k < 16 { assert slots[0].Covers(k); }
      else if 30 <= k < 44 { assert slots[1].Covers(k); }
      else if 58 <= k < 91 { assert slots[2].Covers(k); }
      else if 91 <= k < 155 { assert slots[3].Covers(k); }
      else if 155 <= k < 219 { assert slots[4].Covers(k); }
      else if 219 <= k < 234 { assert slots[5].Covers(k); }
      else if 234 <= k < 249 { assert slots[6].Covers(k); }
    }
  }

  lemma ConfigWritten(cfg: nat, rate: nat, util: nat, ts: nat, p: Prices, supplyRatio: nat, borrowRatio: nat)
    requires 0 <= p.supply < Pow2(64) && 0 <= p.borrow < Pow2(64)
    requires rate < Pow2(16) && util < Pow2(14) && ts < Pow2(CLOCK_BITS)
    requires supplyRatio < Pow2(15) && borrowRatio < Pow2(15)
    ensures var w := WriteBack(cfg, CONFIG_MASK, ConfigSlots(rate, util, ts, p, supplyRatio, borrowRatio));
            && Rate(w) == rate && Utilization(w) == util && ConfigStamp(w) == ts
            && SupplyPrice(w) == p.supply && BorrowPrice(w) == p.borrow
            && SupplyRatio(w) == supplyRatio && BorrowRatio(w) == borrowRatio
            && Fee(w) == Fee(cfg)
            && (forall k: nat :: 16 <= k < 30 || 44 <= k < 58 || 249 <= k < 256 ==> Bit(w, k) == Bit(cfg, k))
  {
    hide Bit, Pow2, WriteBack, Field;
    var slots := ConfigSlots(rate, util, ts, p, supplyRatio, borrowRatio);
    ConfigCleared(rate, util, ts, p, supplyRatio, borrowRatio);
    WriteBackField(cfg, CONFIG_MASK, slots, 0);
    WriteBackField(cfg, CONFIG_MASK, slots, 1);
    WriteBackField(cfg, CONFIG_MASK, slots, 2);
    WriteBackField(cfg, CONFIG_MASK, slots, 3);
    WriteBackField(cfg, CONFIG_MASK, slots, 4);
    WriteBackField(cfg, CONFIG_MASK, slots, 5);
    WriteBackField(cfg, CONFIG_MASK, slots, 6);
    WriteBackKeepsField(cfg, CONFIG_MASK, slots, 16, 14);
    forall k: nat | 16 <= k < 30 || 44 <= k < 58 || 249 <= k < 256
      ensures Bit(WriteBack(cfg, CONFIG_MASK, slots), k) == Bit(cfg, k)
    {
      WriteBackKeeps(cfg, CONFIG_MASK, slots, k);
    }
  }
}
