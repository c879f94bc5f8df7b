/** `operate` as the layer performs it, step by step on local variables, proved equal to the
    functions whose properties are shown elsewhere. */
module LiquiditySteps {
  import opened Arith
  import opened Bits
  import opened BigNumber
  import opened Words
  import opened Liquidity

  /** The decaying part of the limit at the time of the operation. */
  method DecaySteps(data: nat, ts: nat) returns (r: Result<Decay>)
    ensures r == Decayed(data, ts)
  {
    hide Field, FromBig;
    var decay: nat, checkpoints: nat := DecayAmount(data), DecayCheckpoints(data);
    if decay > 0 {
      var decayed := ts * 10 / DECAY_CHECKPOINT_TENTHS - Stamp(data) * 10 / DECAY_CHECKPOINT_TENTHS;
      if decayed < checkpoints {
        if checkpoints == 0 { return Err(DivisionByZero); }
        ShareAtMost(decay, decayed, checkpoints);
        decay := decay - decay * decayed / checkpoints;
        checkpoints := checkpoints - decayed;
      } else {
        decay, checkpoints := 0, 0;
      }
    }
    return Ok(Decay(decay, checkpoints));
  }

  method SupplyMoveSteps(data: nat, start: nat, amount: int, price: int) returns (r: Result<Move>)
    ensures r == SupplyMove(data, start, amount, price)
  {
    hide Field, FloorDiv;
    var user, raw, free: int := start, 0, 0;
    if WithInterest(data) {
      if price == 0 { return Err(DivisionByZero); }
      if amount > 0 {
        raw := FloorDiv(amount * PRICE_UNIT, price);
        user := user + raw;
      } else {
        raw := -FloorDiv(-amount * PRICE_UNIT + price - 1, price);
        if -raw > user { return Err(Revert("withdraw more than supply")); }
        user := user - -raw;
      }
    } else {
      free := amount;
      if free > 0 {
        user := user + free;
      } else {
        if -free > user { return Err(Revert("withdraw more than supply")); }
        user := user - -free;
      }
    }
    return Ok(Move(raw, free, user));
  }

  /** Decay, conversion, limit check and new limit of a supply or withdrawal. */
  method PlanSteps(data: nat, amount: int, price: int, ts: nat) returns (r: Result<SupplyPlan>)
    ensures r == PlanSupply(data, amount, price, ts)
  {
    hide Field, FromBig, WithdrawalLimitBefore, WithdrawalLimitAfter, Decayed, SupplyMove, WeightedCheckpoints;
    var d := DecaySteps(data, ts);
    if d.Err? { return Err(d.error); }
    var decay, checkpoints := d.value.amount, d.value.checkpoints;
    var before: nat :- WithdrawalLimitBefore(data, Amount(data), ts);
    var m := SupplyMoveSteps(data, Amount(data), amount, price);
    if m.Err? { return Err(m.error); }
    var user := m.value.user;
    if user < 0 { return Err(Underflow); }
    var expand := false;
    if amount < 0 {
      if user < before { return Err(Revert("withdrawal limit reached")); }
      if decay > 0 {
        var withdrawn := -(m.value.raw + m.value.free);
        if withdrawn > decay {
          before := if before > decay then before - decay else 0;
          decay := 0;
        } else {
          before := if before > withdrawn then before - withdrawn else 0;
          decay := decay - withdrawn;
        }
        expand := true;
      }
    }
    var after := WithdrawalLimitAfter(data, user, before);
    if after == 0 {
      decay := 0;
    } else if before != after {
      if amount > 0 {
        if before == 0 { before := BaseLimit(data); }
        if after > before {
          var pushed := after - before;
          checkpoints := WeightedCheckpoints(checkpoints, decay, pushed);
          if checkpoints < MIN_DECAY_CHECKPOINTS { checkpoints := MIN_DECAY_CHECKPOINTS; }
          decay := decay + pushed;
        } else {
          decay, checkpoints := 0, 0;
        }
      } else if expand {
        var notPushed := if after > before then after - before else 0;
        decay := decay + notPushed;
      }
    }
    return Ok(SupplyPlan(m.value, after, Decay(decay, checkpoints)));
  }

  /** The supply side of an operation. */
  method SupplySteps(tok: Token, amount: int, price: int, ts: nat) returns (r: Result<Entries>)
    ensures r == SupplySide(tok, amount, price, ts)
  {
    hide Field, FromBig, ToBig, WriteBack, PlanSupply;
    var books := OpenBooks(tok.totals);
    if amount == 0 { return Ok(Entries(tok.supply, tok.borrow, books)); }
    var data := tok.supply;
    if data == 0 { return Err(Revert("user not defined")); }
    if UserPaused(data) { return Err(Revert("user paused")); }
    var plan := PlanSteps(data, amount, price, ts);
    if plan.Err? { return Err(plan.error); }
    var leg := StoreSteps(data, plan.value, ts);
    if leg.Err? { return Err(leg.error); }
    var raw, free := leg.value.raw, leg.value.free;
    if free == 0 {
      var total: int := books.rawSupply;
      if raw > 0 {
        if RatioExceeded(raw, total, true) { return Err(Revert("operate amount ratio excess")); }
        total := total + raw;
      } else {
        if RatioExceeded(-raw, total, false) { return Err(Revert("operate amount ratio excess")); }
        total := if total > -raw then total - -raw else 0;
      }
      var big :- StoredBig(total, false);
      books := books.(word := WriteBack(books.word, RAW_SUPPLY_MASK, [Slot(0, 64, big)]), rawSupply := total);
    } else {
      var total: int := books.freeSupply;
      if free > 0 {
        if RatioExceeded(free, total, true) { return Err(Revert("operate amount ratio excess")); }
        total := total + free;
      } else {
        if RatioExceeded(-free, total, false) { return Err(Revert("operate amount ratio excess")); }
        total := if total > -free then total - -free else 0;
      }
      if total > TOKEN_CAP { return Err(Revert("total supply overflow")); }
      var big :- StoredBig(total, false);
      books := books.(word := WriteBack(books.word, FREE_SUPPLY_MASK, [Slot(64, 64, big)]), freeSupply := total);
    }
    if books.word == tok.totals { return Err(Revert("operate amount insufficient")); }
    return Ok(Entries(leg.value.word, tok.borrow, books));
  }

  method StoreSteps(data: nat, plan: SupplyPlan, ts: nat) returns (r: Result<Leg>)
    ensures r == StoreSupply(data, plan, ts)
  {
    hide Field, FromBig, ToBig, WriteBack;
    var decay, checkpoints := plan.decay.amount, plan.decay.checkpoints;
    if decay < SMALLEST_DECAY {
      decay, checkpoints := 0, 0;
    } else {
      decay :- ToBig(decay, DECAY_COEFFICIENT_SIZE, false);
      if checkpoints > TOTAL_DECAY_CHECKPOINTS {
        checkpoints := TOTAL_DECAY_CHECKPOINTS;
      } else if checkpoints == 0 {
        checkpoints := 1;
      }
    }
    var big :- StoredBig(plan.move.user, false);
    if Field(data, 1, 64) == big { return Err(Revert("operate amount insufficient")); }
    var limit :- StoredBig(plan.after, false);
    var slots := SupplySlots(big, limit, ts, Decay(decay, checkpoints));
    return Ok(Leg(WriteBack(data, SUPPLY_MASK, slots), plan.move.raw, plan.move.free));
  }

  /** The borrow side of an operation. */
  method BorrowSteps(e: Entries, amount: int, price: int, ts: nat) returns (r: Result<Entries>)
    ensures r == BorrowSide(e, amount, price, ts)
  {
    hide Field, FromBig, ToBig, WriteBack, BorrowLimitBefore, BorrowLimitAfter;
    if amount == 0 { return Ok(e); }
    var data, books := e.borrow, e.books;
    if data == 0 { return Err(Revert("user not defined")); }
    if UserPaused(data) { return Err(Revert("user paused")); }
    var user: int := Amount(data);
    var limit :- BorrowLimitBefore(data, user, ts);
    var raw, free := 0, 0;
    if WithInterest(data) {
      if price == 0 { return Err(DivisionByZero); }
      if amount > 0 {
        raw := -FloorDiv(-(amount * PRICE_UNIT), price);
        user := user + raw;
      } else {
        raw := TruncDiv(amount * PRICE_UNIT, price);
        if -raw > user { return Err(Revert("payback more than borrow")); }
        user := user - -raw;
      }
    } else {
      free := amount;
      if free > 0 {
        user := user + free;
      } else {
        if -free > user { return Err(Revert("payback more than borrow")); }
        user := user - -free;
      }
    }
    if user < 0 { return Err(Underflow); }
    if amount > 0 && user > limit { return Err(Revert("borrow limit reached")); }
    limit := BorrowLimitAfter(data, user, limit);
    var userBig :- StoredBig(user, true);
    if Field(data, 1, 64) == userBig { return Err(Revert("operate amount insufficient")); }
    var limitBig :- StoredBig(limit, false);
    var word := WriteBack(data, BORROW_MASK, BorrowSlots(userBig, limitBig, ts));
    var totals := BorrowTotalSteps(books, raw, free);
    if totals.Err? { return Err(totals.error); }
    if totals.value.word == books.word { return Err(Revert("operate amount insufficient")); }
    return Ok(e.(borrow := word, books := totals.value));
  }

  method BorrowTotalSteps(start: Books, raw: int, free: int) returns (r: Result<Books>)
    ensures r == if free == 0 then MovedRawBorrow(start, raw) else MovedFreeBorrow(start, free)
  {
    hide ToBig, WriteBack;
    var books := start;
    if free == 0 {
      var total: int := books.rawBorrow;
      if raw > 0 {
        if RatioExceeded(raw, total, true) { return Err(Revert("operate amount ratio excess")); }
        total := total + raw;
      } else {
        if RatioExceeded(-raw, total, false) { return Err(Revert("operate amount ratio excess")); }
        total := if total > -raw then total - -raw else 0;
      }
      var big :- StoredBig(total, true);
      books := books.(word := WriteBack(books.word, RAW_BORROW_MASK, [Slot(128, 64, big)]), rawBorrow := total);
    } else {
      var total: int := books.freeBorrow;
      if free > 0 {
        if RatioExceeded(free, total, true) { return Err(Revert("operate amount ratio excess")); }
        total := total + free;
      } else {
        if RatioExceeded(-free, total, false) { return Err(Revert("operate amount ratio excess")); }
        total := if total > -free then total - -free else 0;
      }
      if total > TOKEN_CAP { return Err(Revert("total borrow overflow")); }
      var big :- StoredBig(total, true);
      books := books.(word := WriteBack(books.word, FREE_BORROW_MASK, [Slot(192, 64, big)]), freeBorrow := total);
    }
    return Ok(books);
  }

  /** Ratios, utilization and the configuration word after both sides. */
  method ConfigSteps(tok: Token, b: Books, p: Prices, deposit: bool, borrow: bool, ts: nat) returns (r: Result<nat>)
    ensures r == ConfigAfter(tok.config, tok.configs2, tok.rateData, b, p, deposit, borrow, ts)
  {
    hide Field, WriteBack, BorrowRate, RewrittenConfig;
    var cfg := tok.config;
    var supplyWith := b.rawSupply * p.supply / PRICE_UNIT;
    if supplyWith > TOKEN_CAP && deposit { return Err(Revert("total supply overflow")); }
    var supplyRatio :- PackedRatio(b.freeSupply, supplyWith);
    var borrowWith := b.rawBorrow * p.borrow / PRICE_UNIT;
    if borrowWith > TOKEN_CAP && borrow { return Err(Revert("total borrow overflow")); }
    var borrowRatio :- PackedRatio(b.freeBorrow, borrowWith);
    var supply, debt := b.freeSupply + supplyWith, b.freeBorrow + borrowWith;
    var util := 0;
    if supply > 0 {
      util := debt * FOUR / supply;
      if borrow {
        var most := if UsesConfigs2(cfg) then Field(tok.configs2, 0, 14) else FOUR;
        if util > most { return Err(Revert("max utilization reached")); }
      }
    }
    var write := ts > ConfigStamp(cfg) + FORCE_WRITE_AFTER;
    if !write {
      write := Abs(util - Utilization(cfg)) > Threshold(cfg);
      if !write {
        write := RatioMoved(SupplyRatio(cfg), supplyRatio, Threshold(cfg));
        if !write { write := RatioMoved(BorrowRatio(cfg), borrowRatio, Threshold(cfg)); }
      }
    }
    if write { cfg :- RewrittenConfig(cfg, tok.rateData, ts, p, util, supplyRatio, borrowRatio); }
    return Ok(cfg);
  }

  method OperateSteps(tok: Token, supplyAmount: int, borrowAmount: int, ts: nat, pulled: int) returns (r: Result<Token>)
    ensures r == Operate(tok, supplyAmount, borrowAmount, ts, pulled)
  {
    hide Field, Shr, ExchangePrices, SupplySide, BorrowSide, ConfigAfter;
    if supplyAmount == 0 && borrowAmount == 0 { return Err(Revert("operate amounts zero")); }
    if Shr(tok.config, 250) > 0 { return Err(Revert("token paused")); }
    var p :- ExchangePrices(tok.config, ts);
    var balance := tok.balance + pulled;
    var e := SupplySteps(tok, supplyAmount, p.supply, ts);
    if e.Ok? { e := BorrowSteps(e.value, borrowAmount, p.borrow, ts); }
    if e.Err? { return Err(e.error); }
    var cfg := ConfigSteps(tok, e.value.books, p, supplyAmount > 0, borrowAmount > 0, ts);
    if cfg.Err? { return Err(cfg.error); }
    var out := 0;
    if supplyAmount < 0 { out := -supplyAmount; }
    if borrowAmount > 0 { out := out + borrowAmount; }
    if out > balance { return Err(Revert("liquidity layer balance")); }
    balance := balance - out;
    return Ok(tok.(config := cfg.value, totals := e.value.books.word, supply := e.value.supply,
                   borrow := e.value.borrow, balance := balance));
  }
}
