/** What recording a swap leaves in the pool's word: each field written decodes to the value
    written, the block's reference price and center move only with the block, and every other bit
    is what it was. */
module FluidWords {
  import opened Arith
  import opened Bits
  import opened BigNumber
  import opened Words
  import opened LiquidityWords
  import opened FluidPool

  lemma PriceCleared(price: nat)
    ensures Clears(LAST_PRICE_MASK, PriceSlots(price))
  {
    hide Bit;
    LastPriceMaskBits();
    var slots := PriceSlots(price);
    forall k: nat | k < 256 ensures Bit(LAST_PRICE_MASK, k) <==> !Covered(slots, k) {
      if 41 <= k < 81 { assert slots[0].Covers(k); }
    }
  }

  lemma PriceWritten(vars: nat, price: nat)
    requires price < Pow2(40)
    ensures var w := WriteBack(vars, LAST_PRICE_MASK, PriceSlots(price));
            && Field(w, 41, 40) == price
            && Field(w, 1, 40) == Field(vars, 1, 40) && Field(w, 81, 40) == Field(vars, 81, 40)
            && Field(w, 121, CLOCK_BITS) == Field(vars, 121, CLOCK_BITS)
            && (forall k: nat :: k < 41 || 81 <= k < 256 ==> Bit(w, k) == Bit(vars, k))
  {
    hide Bit, Pow2, WriteBack, Field;
    var slots := PriceSlots(price);
    PriceCleared(price);
    WriteBackField(vars, LAST_PRICE_MASK, slots, 0);
    WriteBackKeepsField(vars, LAST_PRICE_MASK, slots, 1, 40);
    WriteBackKeepsField(vars, LAST_PRICE_MASK, slots, 81, 40);
    WriteBackKeepsField(vars, LAST_PRICE_MASK, slots, 121, CLOCK_BITS);
    forall k: nat | k < 41 || 81 <= k < 256
      ensures Bit(WriteBack(vars, LAST_PRICE_MASK, slots), k) == Bit(vars, k)
    {
      WriteBackKeeps(vars, LAST_PRICE_MASK, slots, k);
    }
  }

  lemma BlockCleared(vars: nat, price: nat, center: nat, ts: nat)
    ensures Clears(PRICES_MASK, BlockSlots(vars, price, center, ts))
  {
    hide Bit, Field;
    PricesMaskBits();
    var slots := BlockSlots(vars, price, center, ts);
    forall k: nat | k < 256 ensures Bit(PRICES_MASK, k) <==> !Covered(slots, k) {
      if 1 <= k < 41 { assert slots[0].Covers(k); }
      else if 41 <= k < 81 { assert slots[1].Covers(k); }
      else if 81 <= k < 121 { assert slots[2].Covers(k); }
      else if 121 <= k < 154 { assert slots[3].Covers(k); }
    }
  }

  lemma BlockWritten(vars: nat, price: nat, center: nat, ts: nat)
    requires price < Pow2(40) && center < Pow2(40) && ts < Pow2(CLOCK_BITS)
    ensures var w := WriteBack(vars, PRICES_MASK, BlockSlots(vars, price, center, ts));
            && Field(w, 1, 40) == Field(vars, 41, 40) && Field(w, 41, 40) == price && Field(w, 81, 40) == center
            && Field(w, 121, CLOCK_BITS) == ts
            && (forall k: nat :: k == 0 || 154 <= k < 256 ==> Bit(w, k) == Bit(vars, k))
  {
    hide Bit, Pow2, WriteBack, Field;
    var slots := BlockSlots(vars, price, center, ts);
    FieldBound(vars, 41, 40);
    BlockCleared(vars, price, center, ts);
    WriteBackField(vars, PRICES_MASK, slots, 0);
    WriteBackField(vars, PRICES_MASK, slots, 1);
    WriteBackField(vars, PRICES_MASK, slots, 2);
    WriteBackField(vars, PRICES_MASK, slots, 3);
    forall k: nat | k == 0 || 154 <= k < 256
      ensures Bit(WriteBack(vars, PRICES_MASK, slots), k) == Bit(vars, k)
    {
      WriteBackKeeps(vars, PRICES_MASK, slots, k);
    }
  }

  lemma OracleCleared(vars: nat, price: nat, center: nat, ts: nat, elapsed: nat)
    ensures Clears(ORACLE_MASK, OracleSlots(vars, price, center, ts, elapsed))
  {
    hide Bit, Field;
    OracleMaskBits();
    var slots := OracleSlots(vars, price, center, ts, elapsed);
    forall k: nat | k < 256 ensures Bit(ORACLE_MASK, k) <==> !Covered(slots, k) {
      if 1 <= k < 41 { assert slots[0].Covers(k); }
      else if 41 <= k < 81 { assert slots[1].Covers(k); }
      else if 81 <= k < 121 { assert slots[2].Covers(k); }
      else if 121 <= k < 154 { assert slots[3].Covers(k); }
      else if 154 <= k < 176 { assert slots[4].Covers(k); }
      else if 176 <= k < 179 { assert slots[5].Covers(k); }
      else if 179 <= k < 195 { assert slots[6].Covers(k); }
    }
  }

  /** With the oracle on, the elapsed time is recorded too and the oracle's own position is kept. */
  lemma OracleWritten(vars: nat, price: nat, center: nat, ts: nat, elapsed: nat)
    requires price < Pow2(40) && center < Pow2(40) && ts < Pow2(CLOCK_BITS) && elapsed < Pow2(22)
    ensures var w := WriteBack(vars, ORACLE_MASK, OracleSlots(vars, price, center, ts, elapsed));
            && Field(w, 1, 40) == Field(vars, 41, 40) && Field(w, 41, 40) == price && Field(w, 81, 40) == center
            && Field(w, 121, CLOCK_BITS) == ts && Field(w, 154, 22) == elapsed
            && Field(w, 176, 3) == Field(vars, 176, 3) && Field(w, 179, 16) == Field(vars, 179, 16)
            && (forall k: nat :: k == 0 || 195 <= k < 256 ==> Bit(w, k) == Bit(vars, k))
  {
    hide Bit, Pow2, WriteBack, Field;
    var slots := OracleSlots(vars, price, center, ts, elapsed);
    FieldBound(vars, 41, 40);
    FieldBound(vars, 176, 3);
    FieldBound(vars, 179, 16);
    OracleCleared(vars, price, center, ts, elapsed);
    WriteBackField(vars, ORACLE_MASK, slots, 0);
    WriteBackField(vars, ORACLE_MASK, slots, 1);
    WriteBackField(vars, ORACLE_MASK, slots, 2);
    WriteBackField(vars, ORACLE_MASK, slots, 3);
    WriteBackField(vars, ORACLE_MASK, slots, 4);
    WriteBackField(vars, ORACLE_MASK, slots, 5);
    WriteBackField(vars, ORACLE_MASK, slots, 6);
    forall k: nat | k == 0 || 195 <= k < 256
      ensures Bit(WriteBack(vars, ORACLE_MASK, slots), k) == Bit(vars, k)
    {
      WriteBackKeeps(vars, ORACLE_MASK, slots, k);
    }
  }

  // ----- recording a price -----

  /** A price within five per cent of its reference, as the oracle measures it. */
  ghost predicate InBand(reference: nat, price: int) {
    && 0 < price
    && ORACLE_PRECISION - ORACLE_LIMIT <= reference * ORACLE_PRECISION / price <= ORACLE_PRECISION + ORACLE_LIMIT
  }

  /** The bits a recording leaves alone: beside the last price in a block's later swaps, beside the
      prices and the time in its first; with the oracle on also the elapsed time is written. */
  ghost predicate RecordedFrame(vars: nat, w: nat, ts: int) {
    if SwapStamp(vars) == ts then SameRange(vars, w, 0, 41) && SameRange(vars, w, 81, 256)
    else if Field(vars, 195, 1) == 0 then SameRange(vars, w, 0, 1) && SameRange(vars, w, 154, 256)
    else
      && SameRange(vars, w, 0, 1) && SameRange(vars, w, 195, 256)
      && Field(w, 154, 22) == Min(ts - SwapStamp(vars), X22)
      && Field(w, 176, 3) == Field(vars, 176, 3) && Field(w, 179, 16) == Field(vars, 179, 16)
  }

  lemma SameBlockWritten(vars: nat, center: nat, price: int)
    requires SameBlock(vars, center, price).Ok?
    ensures var w := SameBlock(vars, center, price).value;
            && InBand(OlderPrice(vars), price) && LastPrice(w) == RoundedDown(price, PRICE_COEFFICIENT_SIZE)
            && OlderPrice(w) == OlderPrice(vars) && StoredCenter(w) == StoredCenter(vars)
            && SwapStamp(w) == SwapStamp(vars) && RecordedFrame(vars, w, SwapStamp(vars))
  {
    hide Field, FromBig, WriteBack, Bit, Pow2, ToBig, RoundedDown;
    var big := ToBig(price, PRICE_COEFFICIENT_SIZE, false).value;
    DownIsRounded(price, PRICE_COEFFICIENT_SIZE);
    PriceWritten(vars, big);
  }

  lemma NewBlockWritten(vars: nat, center: nat, price: int, ts: nat)
    requires ts < Pow2(CLOCK_BITS) && NewBlock(vars, center, price, ts).Ok?
    ensures var w := NewBlock(vars, center, price, ts).value;
            && InBand(LastPrice(vars), price) && LastPrice(w) == RoundedDown(price, PRICE_COEFFICIENT_SIZE)
            && OlderPrice(w) == LastPrice(vars) && StoredCenter(w) == RoundedDown(center, PRICE_COEFFICIENT_SIZE)
            && SwapStamp(w) == ts && (SwapStamp(vars) != ts ==> RecordedFrame(vars, w, ts))
  {
    hide Field, FromBig, WriteBack, Bit, Pow2, ToBig, RoundedDown;
    var big := ToBig(price, PRICE_COEFFICIENT_SIZE, false).value;
    var bigCenter := ToBig(center, PRICE_COEFFICIENT_SIZE, false).value;
    DownIsRounded(price, PRICE_COEFFICIENT_SIZE);
    DownIsRounded(center, PRICE_COEFFICIENT_SIZE);
    if Field(vars, 195, 1) == 0 {
      BlockWritten(vars, big, bigCenter, ts);
    } else {
      ElapsedFits();
      OracleWritten(vars, big, bigCenter, ts, Min(ts - SwapStamp(vars), X22));
    }
  }

  lemma ElapsedFits()
    ensures X22 < Pow2(22)
  {
    Powers();
    Pow2Add(14, 7);
  }

  /** With a recorded time not in the future the elapsed time is never negative. */
  lemma RecordedNeverUnderflows(vars: nat, center: nat, price: int, ts: nat)
    requires SwapStamp(vars) <= ts
    ensures Recorded(vars, center, price, ts) != Err(Underflow)
  {
    hide Field, FromBig, WriteBack, Pow2, BitLength, Shr, Shl;
  }

  /** In the block's first swap the last price becomes the reference; in the others nothing but the
      last price moves. The accepted price is within the band of the reference it leaves behind. */
  lemma RecordedWritten(vars: nat, center: nat, price: int, ts: nat)
    requires ts < Pow2(CLOCK_BITS) && Recorded(vars, center, price, ts).Ok?
    ensures var w := Recorded(vars, center, price, ts).value;
            && SwapStamp(w) == ts && InBand(OlderPrice(w), price) && RecordedFrame(vars, w, ts)
            && LastPrice(w) == RoundedDown(price, PRICE_COEFFICIENT_SIZE)
            && OlderPrice(w) == (if SwapStamp(vars) == ts then OlderPrice(vars) else LastPrice(vars))
            && StoredCenter(w) ==
               (if SwapStamp(vars) == ts then StoredCenter(vars) else RoundedDown(center, PRICE_COEFFICIENT_SIZE))
  {
    hide Field, FromBig, SameBlock, NewBlock, RoundedDown, Pow2, RecordedFrame;
    if SwapStamp(vars) == ts {
      SameBlockWritten(vars, center, price);
    } else {
      NewBlockWritten(vars, center, price, ts);
    }
  }
}
