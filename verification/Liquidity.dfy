/** Fluid's Liquidity layer for one token and one user: exchange prices, expanding and decaying
    limits, and `operate`, on the packed words the layer stores. */
module Liquidity {
  import opened Arith
  import opened Bits
  import opened BigNumber
  import opened Words

  const FOUR: nat := 10_000
  const E27: nat := 1_000_000_000_000_000_000_000_000_000
  const E54: nat := E27 * E27
  const TWELVE: nat := 1_000_000_000_000
  const PRICE_UNIT: nat := 1_000_000_000_000
  const SECONDS_PER_YEAR: nat := 31_536_000
  const FORCE_WRITE_AFTER: nat := 86_400
  const TOKEN_CAP: nat := 0x7fffffff_ffffffff_ffffffff_ffffffff
  const RATIO_DEPOSIT_BORROW: nat := 10_000
  const RATIO_WITHDRAW_PAYBACK: nat := 2
  const RATIO_CHECK_FROM: nat := 0x1_0000_00000000_00000000
  const TOTAL_DECAY_CHECKPOINTS: nat := 1000
  const MIN_DECAY_CHECKPOINTS: nat := 80
  const DECAY_CHECKPOINT_TENTHS: nat := 36
  const SMALLEST_DECAY: nat := 10
  const X16: nat := 0xffff
  const X14: nat := 0x3fff
  const X64: nat := 0xffffffff_ffffffff

  // ----- fields of the user words -----

  predicate WithInterest(word: nat) {
    Field(word, 0, 1) == 1
  }

  function Amount(word: nat): nat {
    FromBig(Field(word, 1, 64))
  }

  /** The withdrawal limit of a supply word, the borrow limit of a borrow word. */
  function StoredLimit(word: nat): nat {
    FromBig(Field(word, 65, 64))
  }

  function Stamp(word: nat): nat {
    Field(word, 129, 33)
  }

  function ExpandPercent(word: nat): nat {
    Field(word, 162, 14)
  }

  function ExpandDuration(word: nat): nat {
    Field(word, 176, 24)
  }

  function BaseLimit(word: nat): nat {
    FromBig(Field(word, 200, 18))
  }

  function MaxLimit(word: nat): nat {
    FromBig(Field(word, 218, 18))
  }

  function DecayAmount(word: nat): nat {
    FromBig(Field(word, 218, 26))
  }

  function DecayCheckpoints(word: nat): nat {
    Field(word, 244, 10)
  }

  predicate UserPaused(word: nat) {
    Field(word, 255, 1) == 1
  }

  // ----- fields of the exchange price and configuration word -----

  function Rate(cfg: nat): nat {
    Field(cfg, 0, 16)
  }

  function Fee(cfg: nat): nat {
    Field(cfg, 16, 14)
  }

  function Utilization(cfg: nat): nat {
    Field(cfg, 30, 14)
  }

  function Threshold(cfg: nat): nat {
    Field(cfg, 44, 14)
  }

  function ConfigStamp(cfg: nat): nat {
    Field(cfg, 58, 33)
  }

  function SupplyPrice(cfg: nat): nat {
    Field(cfg, 91, 64)
  }

  function BorrowPrice(cfg: nat): nat {
    Field(cfg, 155, 64)
  }

  function SupplyRatio(cfg: nat): nat {
    Field(cfg, 219, 15)
  }

  function BorrowRatio(cfg: nat): nat {
    Field(cfg, 234, 15)
  }

  predicate UsesConfigs2(cfg: nat) {
    Field(cfg, 249, 1) == 1
  }

  // ----- exchange prices -----

  datatype Prices = Prices(supply: int, borrow: int)

  /** The supplied part of utilization, from the packed ratio of free to interest supply. */
  function SupplyShare(cfg: nat): int
    requires SupplyRatio(cfg) != 1
  {
    var t := SupplyRatio(cfg);
    if t % 2 == 1 then Utilization(cfg) * (E27 + E27 * FOUR / (t / 2)) / FOUR
    else E27 * Utilization(cfg) * (FOUR + t / 2) / (FOUR * FOUR)
  }

  /** The share of borrows that pays interest. */
  function BorrowShare(cfg: nat): int {
    var h := BorrowRatio(cfg) / 2;
    if BorrowRatio(cfg) % 2 == 1 then h * E27 / (FOUR + h) else E27 - h * E27 / (FOUR + h)
  }

  function SupplyRate(cfg: nat): int
    requires SupplyRatio(cfg) != 1
  {
    Rate(cfg) * (FOUR * SupplyShare(cfg) * BorrowShare(cfg) / E54) * (FOUR - Fee(cfg))
  }

  function ExchangePrices(cfg: nat, ts: int): Result<Prices> {
    var s, b := SupplyPrice(cfg), BorrowPrice(cfg);
    var secs := ts - ConfigStamp(cfg);
    if s == 0 || b == 0 then Err(Revert("exchange price zero"))
    else if secs == 0 || Rate(cfg) == 0 || BorrowRatio(cfg) == 1 then Ok(Prices(s, b))
    else
      var b' := b + b * Rate(cfg) * secs / (SECONDS_PER_YEAR * FOUR);
      if SupplyRatio(cfg) == 1 then Ok(Prices(s, b'))
      else Ok(Prices(s + s * SupplyRate(cfg) * secs / (SECONDS_PER_YEAR * FOUR * FOUR * FOUR), b'))
  }

  // ----- limits -----

  /** The amount that must stay supplied before an operation. */
  function WithdrawalLimitBefore(word: nat, user: nat, ts: int): Result<nat> {
    var last := StoredLimit(word);
    if last == 0 then Ok(0)
    else if ExpandDuration(word) == 0 then Err(DivisionByZero)
    else
      var most := ExpandPercent(word) * user / FOUR;
      var t := most * (ts - Stamp(word)) / ExpandDuration(word);
      var current := if last > t then last - t else 0;
      Ok(if user - most > current then user - most else current)
  }

  function WithdrawalLimitAfter(word: nat, user: nat, newLimit: nat): nat {
    if user < BaseLimit(word) then 0
    else
      var minimum := user - user * ExpandPercent(word) / FOUR;
      if minimum > newLimit then minimum else newLimit
  }

  function BorrowLimitBefore(word: nat, user: nat, ts: int): Result<int> {
    var expansion := user * ExpandPercent(word) / FOUR;
    if user + expansion < BaseLimit(word) then Ok(BaseLimit(word))
    else if ExpandDuration(word) == 0 then Err(DivisionByZero)
    else
      var current := expansion * (ts - Stamp(word)) / ExpandDuration(word) + StoredLimit(word);
      var capped := if current > user + expansion then user + expansion else current;
      Ok(if capped > MaxLimit(word) then MaxLimit(word) else capped)
  }

  function BorrowLimitAfter(word: nat, user: nat, newLimit: int): int {
    var limit := user + user * ExpandPercent(word) / FOUR;
    if limit < BaseLimit(word) then BaseLimit(word)
    else
      var capped := if limit > MaxLimit(word) then MaxLimit(word) else limit;
      if newLimit > capped then capped else newLimit
  }

  // ----- the borrow rate -----

  function RateLine(util: int, y1: int, y2: int, x1: int, x2: int): Result<nat> {
    if x2 == x1 then Err(DivisionByZero)
    else
      var slope := TruncDiv((y2 - y1) * TWELVE, x2 - x1);
      var v := slope * util + (y1 * TWELVE - slope * x1);
      if v < 0 then Err(Revert("borrow rate negative")) else Ok(v / TWELVE)
  }

  function RatePoint(rateData: nat, lo: nat): nat {
    Field(rateData, lo, 16)
  }

  function BorrowRate(rateData: nat, util: int): (r: Result<nat>)
    ensures r.Ok? ==> r.value <= X16
  {
    var version := Field(rateData, 0, 4);
    var raw :-
      if version == 1 then
        var kink := RatePoint(rateData, 20);
        if util < kink then RateLine(util, RatePoint(rateData, 4), RatePoint(rateData, 36), 0, kink)
        else RateLine(util, RatePoint(rateData, 36), RatePoint(rateData, 52), kink, FOUR)
      else if version == 2 then
        var k1, k2 := RatePoint(rateData, 20), RatePoint(rateData, 52);
        if util < k1 then RateLine(util, RatePoint(rateData, 4), RatePoint(rateData, 36), 0, k1)
        else if util < k2 then RateLine(util, RatePoint(rateData, 36), RatePoint(rateData, 68), k1, k2)
        else RateLine(util, RatePoint(rateData, 68), RatePoint(rateData, 84), k2, FOUR)
      else Err(Revert("unsupported rate version"));
    Ok(if raw <= X16 then raw else X16)
  }

  // ----- the supply side -----

  function StoredBig(n: int, up: bool): Result<nat> {
    if n < 0 then Err(Underflow) else ToBig(n, COEFFICIENT_SIZE, up)
  }

  datatype Decay = Decay(amount: nat, checkpoints: nat)

  /** The pushed-up part of the limit that has not decayed yet. */
  function Decayed(word: nat, ts: nat): Result<Decay> {
    var amount, left := DecayAmount(word), DecayCheckpoints(word);
    var passed := ts * 10 / DECAY_CHECKPOINT_TENTHS - Stamp(word) * 10 / DECAY_CHECKPOINT_TENTHS;
    if amount == 0 then Ok(Decay(0, left))
    else if passed >= left then Ok(Decay(0, 0))
    else if left == 0 then Err(DivisionByZero)
    else
      ShareAtMost(amount, passed, left);
      Ok(Decay(amount - amount * passed / left, left - passed))
  }

  lemma ShareAtMost(amount: nat, part: int, whole: nat)
    requires part <= whole && 0 < whole
    ensures amount * part / whole <= amount
  {
    MulMono(part, whole, amount);
    QuotientAtMost(amount * part, whole, amount);
  }

  /** An amount converted to the user's units, and the user's balance after it. */
  datatype Move = Move(raw: int, free: int, user: int)

  function SupplyMove(word: nat, user: nat, amount: int, price: int): Result<Move> {
    if WithInterest(word) then
      if price == 0 then Err(DivisionByZero)
      else if amount > 0 then
        var raw := FloorDiv(amount * PRICE_UNIT, price);
        Ok(Move(raw, 0, user + raw))
      else
        var taken := FloorDiv(-amount * PRICE_UNIT + price - 1, price);
        if taken > user then Err(Revert("withdraw more than supply")) else Ok(Move(-taken, 0, user - taken))
    else if amount > 0 then Ok(Move(0, amount, user + amount))
    else if -amount > user then Err(Revert("withdraw more than supply"))
    else Ok(Move(0, amount, user + amount))
  }

  datatype Limit = Limit(required: nat, decay: nat, expand: bool)

  function Above(a: int, b: int): nat {
    if a > b then a - b else 0
  }

  /** A withdrawal takes from the decaying part of the limit first. */
  function AfterWithdrawal(amount: int, withdrawn: int, required: nat, decay: nat): Limit {
    if amount < 0 && decay > 0 then
      if withdrawn > decay then Limit(Above(required, decay), 0, true)
      else Limit(Above(required, withdrawn), decay - withdrawn, true)
    else Limit(required, decay, false)
  }

  /** The decaying part after the new limit is known. */
  function DecayAfter(word: nat, amount: int, l: Limit, after: nat, checkpoints: nat): Decay {
    if after == 0 then Decay(0, checkpoints)
    else if l.required == after then Decay(l.decay, checkpoints)
    else if amount > 0 then
      var from := if l.required == 0 then BaseLimit(word) else l.required;
      if after > from then
        var pushed := after - from;
        var mean := WeightedCheckpoints(checkpoints, l.decay, pushed);
        Decay(l.decay + pushed, if mean < MIN_DECAY_CHECKPOINTS then MIN_DECAY_CHECKPOINTS else mean)
      else Decay(0, 0)
    else if l.expand then Decay(l.decay + Above(after, l.required), checkpoints)
    else Decay(l.decay, checkpoints)
  }

  function WeightedCheckpoints(checkpoints: nat, decay: nat, pushed: nat): nat
    requires 0 < pushed
  {
    MulMono2(0, checkpoints, 0, decay);
    QuotientBounds(checkpoints * decay + TOTAL_DECAY_CHECKPOINTS * pushed, decay + pushed);
    (checkpoints * decay + TOTAL_DECAY_CHECKPOINTS * pushed) / (decay + pushed)
  }

  /** The decaying part as stored: nothing below ten units, and between 1 and 1000 checkpoints. */
  function StoredDecay(d: Decay): (r: Result<Decay>)
    ensures r.Ok? ==> r.value.checkpoints <= TOTAL_DECAY_CHECKPOINTS
  {
    if d.amount < SMALLEST_DECAY then Ok(Decay(0, 0))
    else
      var big :- ToBig(d.amount, DECAY_COEFFICIENT_SIZE, false);
      Ok(Decay(big, if d.checkpoints > TOTAL_DECAY_CHECKPOINTS then TOTAL_DECAY_CHECKPOINTS
                    else if d.checkpoints == 0 then 1 else d.checkpoints))
  }

  function SupplySlots(amount: nat, limit: nat, ts: nat, decay: Decay): seq<Slot> {
    [Slot(1, 64, amount), Slot(65, 64, limit), Slot(129, 33, ts),
     Slot(218, 26, decay.amount), Slot(244, 10, decay.checkpoints)]
  }

  /** A user word after an operation, and the amount in both kinds of units. */
  datatype Leg = Leg(word: nat, raw: int, free: int)

  /** What a supply or withdrawal decides before anything is stored. */
  datatype SupplyPlan = SupplyPlan(move: Move, after: nat, decay: Decay)

  function PlanSupply(word: nat, amount: int, price: int, ts: nat): Result<SupplyPlan> {
    var user := Amount(word);
    var d :- Decayed(word, ts);
    var required :- WithdrawalLimitBefore(word, user, ts);
    var m :- SupplyMove(word, user, amount, price);
    if m.user < 0 then Err(Underflow)
    else if amount < 0 && m.user < required then Err(Revert("withdrawal limit reached"))
    else
      var l := AfterWithdrawal(amount, -(m.raw + m.free), required, d.amount);
      var after := WithdrawalLimitAfter(word, m.user, l.required);
      Ok(SupplyPlan(m, after, DecayAfter(word, amount, l, after, d.checkpoints)))
  }

  function StoreSupply(word: nat, plan: SupplyPlan, ts: nat): Result<Leg> {
    var decay :- StoredDecay(plan.decay);
    var big :- StoredBig(plan.move.user, false);
    if Field(word, 1, 64) == big then Err(Revert("operate amount insufficient"))
    else
      var limit :- StoredBig(plan.after, false);
      Ok(Leg(WriteBack(word, SUPPLY_MASK, SupplySlots(big, limit, ts, decay)), plan.move.raw, plan.move.free))
  }

  function SupplyLeg(word: nat, amount: int, price: int, ts: nat): Result<Leg> {
    if word == 0 then Err(Revert("user not defined"))
    else if UserPaused(word) then Err(Revert("user paused"))
    else
      var plan :- PlanSupply(word, amount, price, ts);
      StoreSupply(word, plan, ts)
  }

  // ----- the borrow side -----

  function BorrowMove(word: nat, user: nat, amount: int, price: int): Result<Move> {
    if WithInterest(word) then
      if price == 0 then Err(DivisionByZero)
      else if amount > 0 then
        var raw := -FloorDiv(-(amount * PRICE_UNIT), price);
        Ok(Move(raw, 0, user + raw))
      else
        var raw := TruncDiv(amount * PRICE_UNIT, price);
        if -raw > user then Err(Revert("payback more than borrow")) else Ok(Move(raw, 0, user + raw))
    else if amount > 0 then Ok(Move(0, amount, user + amount))
    else if -amount > user then Err(Revert("payback more than borrow"))
    else Ok(Move(0, amount, user + amount))
  }

  function BorrowSlots(amount: nat, limit: nat, ts: nat): seq<Slot> {
    [Slot(1, 64, amount), Slot(65, 64, limit), Slot(129, 33, ts)]
  }

  function BorrowLeg(word: nat, amount: int, price: int, ts: nat): Result<Leg> {
    if word == 0 then Err(Revert("user not defined"))
    else if UserPaused(word) then Err(Revert("user paused"))
    else
      var user := Amount(word);
      var limit :- BorrowLimitBefore(word, user, ts);
      var m :- BorrowMove(word, user, amount, price);
      if m.user < 0 then Err(Underflow)
      else if amount > 0 && m.user > limit then Err(Revert("borrow limit reached"))
      else
        var big :- StoredBig(m.user, true);
        if Field(word, 1, 64) == big then Err(Revert("operate amount insufficient"))
        else
          var after :- StoredBig(BorrowLimitAfter(word, m.user, limit), false);
          Ok(Leg(WriteBack(word, BORROW_MASK, BorrowSlots(big, after, ts)), m.raw, m.free))
  }

  // ----- totals -----

  /** The layer's totals for the token, decoded, next to the packed word. */
  datatype Books = Books(word: nat, rawSupply: int, freeSupply: int, rawBorrow: int, freeBorrow: int)

  function OpenBooks(word: nat): Books {
    Books(word, FromBig(Field(word, 0, 64)), FromBig(Field(word, 64, 64)), FromBig(Field(word, 128, 64)),
          FromBig(Shr(word, 192)))
  }

  function RatioExceeded(amount: int, existing: int, depositBorrow: bool): bool {
    var allowed := if depositBorrow then RATIO_DEPOSIT_BORROW * existing else existing / RATIO_WITHDRAW_PAYBACK;
    amount > RATIO_CHECK_FROM && amount > allowed
  }

  /** A total moved by a signed amount, never below zero. */
  function MovedTotal(total: int, delta: int): Result<int> {
    if delta > 0 then
      if RatioExceeded(delta, total, true) then Err(Revert("operate amount ratio excess")) else Ok(total + delta)
    else
      if RatioExceeded(-delta, total, false) then Err(Revert("operate amount ratio excess"))
      else Ok(Above(total, -delta))
  }

  function MovedRawSupply(b: Books, raw: int): Result<Books> {
    var total :- MovedTotal(b.rawSupply, raw);
    var big :- StoredBig(total, false);
    Ok(b.(word := WriteBack(b.word, RAW_SUPPLY_MASK, [Slot(0, 64, big)]), rawSupply := total))
  }

  function MovedFreeSupply(b: Books, free: int): Result<Books> {
    var total :- MovedTotal(b.freeSupply, free);
    if total > TOKEN_CAP then Err(Revert("total supply overflow"))
    else
      var big :- StoredBig(total, false);
      Ok(b.(word := WriteBack(b.word, FREE_SUPPLY_MASK, [Slot(64, 64, big)]), freeSupply := total))
  }

  function MovedRawBorrow(b: Books, raw: int): Result<Books> {
    var total :- MovedTotal(b.rawBorrow, raw);
    var big :- StoredBig(total, true);
    Ok(b.(word := WriteBack(b.word, RAW_BORROW_MASK, [Slot(128, 64, big)]), rawBorrow := total))
  }

  function MovedFreeBorrow(b: Books, free: int): Result<Books> {
    var total :- MovedTotal(b.freeBorrow, free);
    if total > TOKEN_CAP then Err(Revert("total borrow overflow"))
    else
      var big :- StoredBig(total, true);
      Ok(b.(word := WriteBack(b.word, FREE_BORROW_MASK, [Slot(192, 64, big)]), freeBorrow := total))
  }

  function BookedSupply(b: Books, leg: Leg): Result<Books> {
    var b' :- if leg.free == 0 then MovedRawSupply(b, leg.raw) else MovedFreeSupply(b, leg.free);
    if b'.word == b.word then Err(Revert("operate amount insufficient")) else Ok(b')
  }

  function BookedBorrow(b: Books, leg: Leg): Result<Books> {
    var b' :- if leg.free == 0 then MovedRawBorrow(b, leg.raw) else MovedFreeBorrow(b, leg.free);
    if b'.word == b.word then Err(Revert("operate amount insufficient")) else Ok(b')
  }

  // ----- utilization and the configuration word -----

  /** The smaller over the larger of two totals in units of 1/10000, the lowest bit telling which. */
  function PackedRatio(free: int, with: int): Result<int> {
    if with > free then (if with == 0 then Err(DivisionByZero) else Ok(FloorDiv(free * FOUR, with) * 2))
    else if with < free then (if free == 0 then Err(DivisionByZero) else Ok(FloorDiv(with * FOUR, free) * 2 + 1))
    else Ok(if free + with > 0 then FOUR * 2 else 0)
  }

  predicate RatioMoved(last: nat, now: int, threshold: nat) {
    last % 2 != now % 2 || Abs(now / 2 - last / 2) > threshold
  }

  /** Whether the configuration word is rewritten. */
  predicate MustWrite(cfg: nat, ts: int, util: int, supplyRatio: int, borrowRatio: int) {
    || ts > ConfigStamp(cfg) + FORCE_WRITE_AFTER
    || Abs(util - Utilization(cfg)) > Threshold(cfg)
    || RatioMoved(SupplyRatio(cfg), supplyRatio, Threshold(cfg))
    || RatioMoved(BorrowRatio(cfg), borrowRatio, Threshold(cfg))
  }

  function ConfigSlots(rate: nat, util: nat, ts: nat, p: Prices, supplyRatio: nat, borrowRatio: nat): seq<Slot>
    requires 0 <= p.supply && 0 <= p.borrow
  {
    [Slot(0, 16, rate), Slot(30, 14, util), Slot(58, 33, ts), Slot(91, 64, p.supply), Slot(155, 64, p.borrow),
     Slot(219, 15, supplyRatio), Slot(234, 15, borrowRatio)]
  }

  function RewrittenConfig(cfg: nat, rateData: nat, ts: nat, p: Prices, util: int, supplyRatio: int, borrowRatio: int)
    : Result<nat>
  {
    var rate :- BorrowRate(rateData, util);
    if p.supply > X64 || p.borrow > X64 then Err(Revert("exchange price overflow"))
    else if util > X14 then Err(Revert("utilization overflow"))
    else if p.supply < 0 || p.borrow < 0 || util < 0 || supplyRatio < 0 || borrowRatio < 0 then Err(Underflow)
    else Ok(WriteBack(cfg, CONFIG_MASK, ConfigSlots(rate, util, ts, p, supplyRatio, borrowRatio)))
  }

  /** Amounts with interest at current prices, and the two packed ratios. */
  datatype Levels = Levels(supply: int, borrow: int, supplyRatio: int, borrowRatio: int)

  function LevelsOf(b: Books, p: Prices, deposit: bool, borrow: bool): Result<Levels> {
    var supplyWith := b.rawSupply * p.supply / PRICE_UNIT;
    var borrowWith := b.rawBorrow * p.borrow / PRICE_UNIT;
    if supplyWith > TOKEN_CAP && deposit then Err(Revert("total supply overflow"))
    else
      var supplyRatio :- PackedRatio(b.freeSupply, supplyWith);
      if borrowWith > TOKEN_CAP && borrow then Err(Revert("total borrow overflow"))
      else
        var borrowRatio :- PackedRatio(b.freeBorrow, borrowWith);
        Ok(Levels(b.freeSupply + supplyWith, b.freeBorrow + borrowWith, supplyRatio, borrowRatio))
  }

  function UtilizationOf(l: Levels): int {
    if l.supply > 0 then l.borrow * FOUR / l.supply else 0
  }

  function MaxUtilization(cfg: nat, configs2: nat): nat {
    if UsesConfigs2(cfg) then Field(configs2, 0, 14) else FOUR
  }

  function ConfigAfter(cfg: nat, configs2: nat, rateData: nat, b: Books, p: Prices,
                       deposit: bool, borrow: bool, ts: nat): Result<nat>
  {
    var l :- LevelsOf(b, p, deposit, borrow);
    var util := UtilizationOf(l);
    if l.supply > 0 && borrow && util > MaxUtilization(cfg, configs2) then Err(Revert("max utilization reached"))
    else if MustWrite(cfg, ts, util, l.supplyRatio, l.borrowRatio)
    then RewrittenConfig(cfg, rateData, ts, p, util, l.supplyRatio, l.borrowRatio)
    else Ok(cfg)
  }

  // ----- operate -----

  /** What the layer stores about one token: configuration, totals, rates, the user's supply and debt,
      and the cash it holds. */
  datatype Token = Token(config: nat, totals: nat, configs2: nat, rateData: nat, supply: nat, borrow: nat, balance: int)

  /** User words and totals after both sides of an operation. */
  datatype Entries = Entries(supply: nat, borrow: nat, books: Books)

  function SupplySide(tok: Token, amount: int, price: int, ts: nat): Result<Entries> {
    var books := OpenBooks(tok.totals);
    if amount == 0 then Ok(Entries(tok.supply, tok.borrow, books))
    else
      var leg :- SupplyLeg(tok.supply, amount, price, ts);
      var b :- BookedSupply(books, leg);
      Ok(Entries(leg.word, tok.borrow, b))
  }

  function BorrowSide(e: Entries, amount: int, price: int, ts: nat): Result<Entries> {
    if amount == 0 then Ok(e)
    else
      var leg :- BorrowLeg(e.borrow, amount, price, ts);
      var b :- BookedBorrow(e.books, leg);
      Ok(e.(borrow := leg.word, books := b))
  }

  function PaidOut(supplyAmount: int, borrowAmount: int): int {
    (if supplyAmount < 0 then -supplyAmount else 0) + (if borrowAmount > 0 then borrowAmount else 0)
  }

  function Operate(tok: Token, supplyAmount: int, borrowAmount: int, ts: nat, pulled: int): Result<Token> {
    if supplyAmount == 0 && borrowAmount == 0 then Err(Revert("operate amounts zero"))
    else if Shr(tok.config, 250) > 0 then Err(Revert("token paused"))
    else
      var p :- ExchangePrices(tok.config, ts);
      var e1 :- SupplySide(tok, supplyAmount, p.supply, ts);
      var e :- BorrowSide(e1, borrowAmount, p.borrow, ts);
      var cfg :- ConfigAfter(tok.config, tok.configs2, tok.rateData, e.books, p,
                             supplyAmount > 0, borrowAmount > 0, ts);
      var out := PaidOut(supplyAmount, borrowAmount);
      if out > tok.balance + pulled then Err(Revert("liquidity layer balance"))
      else Ok(tok.(config := cfg, totals := e.books.word, supply := e.supply, borrow := e.borrow,
                   balance := tok.balance + pulled - out))
  }
}
