/** Weighted pools over whole swaps and runs of swaps: fee, decimals and roundings included, the
    weighted product never falls, so an equal-weight pool cannot be drained by trading. */
module BalancerRuns {
  import opened Arith
  import opened Balancer

  // ----- one swap -----

  /** A whole exact-in swap, in the tokens' own units: the pool is credited with all of dx. */
  lemma SwapInKeepsProduct(i: nat, j: nat, dx: nat, balances: seq<nat>, weights: seq<nat>, scaling: seq<nat>,
                           fee: nat, e: nat)
    requires |balances| == |weights| == |scaling| && i < |balances| && j < |balances|
    requires 0 < scaling[i] && 0 < scaling[j] && fee <= WAD
    requires FastExponent(e) && DivDown(weights[i], weights[j]) == Ok(e * WAD)
    requires SwapGivenIn(i, j, dx, balances, weights, scaling, fee, true).Ok?
    ensures var out := SwapGivenIn(i, j, dx, balances, weights, scaling, fee, true).value;
            && out <= balances[j]
            && Power(balances[i] * scaling[i], e) * (balances[j] * scaling[j])
            <= Power((balances[i] + dx) * scaling[i], e) * ((balances[j] - out) * scaling[j])
  {
    hide CalcOutGivenIn;
    var bi, bj, si, sj := balances[i], balances[j], scaling[i], scaling[j];
    AfterFeeNonNegative(dx, fee);
    var net := dx - MulUp(dx, fee);
    OutKeepsProduct(bi * si, weights[i], bj * sj, weights[j], net * si, e);
    var raw := CalcOutGivenIn(bi * si, weights[i], bj * sj, weights[j], net * si, true).value;
    QuotientBounds(raw, sj);
    CreditAndRoundOut(bi, si, dx, net, bj, sj, raw, raw / sj, e);
  }

  /** Crediting more in and paying less out only raises the product. */
  lemma CreditAndRoundOut(bi: nat, si: nat, dx: nat, net: nat, bj: nat, sj: nat, raw: nat, out: nat, e: nat)
    requires FastExponent(e) && 0 < sj && net <= dx && raw <= bj * sj && out * sj <= raw
    requires Power(bi * si, e) * (bj * sj) <= Power(bi * si + net * si, e) * (bj * sj - raw)
    ensures out <= bj
    ensures Power(bi * si, e) * (bj * sj) <= Power((bi + dx) * si, e) * ((bj - out) * sj)
  {
    MulCancel(out, bj, sj);
    MulMono(net, dx, si);
    assert (bi + dx) * si == bi * si + dx * si;
    assert (bj - out) * sj == bj * sj - out * sj;
    PowerMono(bi * si + net * si, (bi + dx) * si, e);
    MulMono2(Power(bi * si + net * si, e), Power((bi + dx) * si, e), bj * sj - raw, (bj - out) * sj);
  }

  /** A whole exact-out swap. */
  lemma SwapOutKeepsProduct(i: nat, j: nat, dy: nat, balances: seq<nat>, weights: seq<nat>, scaling: seq<nat>,
                            fee: nat, e: nat)
    requires |balances| == |weights| == |scaling| && i < |balances| && j < |balances|
    requires 0 < scaling[i] && 0 < scaling[j] && fee <= WAD
    requires FastExponent(e) && DivUp(weights[j], weights[i]) == Ok(e * WAD)
    requires SwapGivenOut(i, j, dy, balances, weights, scaling, fee, true).Ok?
    ensures dy <= balances[j]
    ensures var paid := SwapGivenOut(i, j, dy, balances, weights, scaling, fee, true).value;
            (balances[i] * scaling[i]) * Power(balances[j] * scaling[j], e)
            <= ((balances[i] + paid) * scaling[i]) * Power((balances[j] - dy) * scaling[j], e)
  {
    hide CalcInGivenOut;
    var bi, bj, si, sj := balances[i], balances[j], scaling[i], scaling[j];
    InKeepsProduct(bi * si, weights[i], bj * sj, weights[j], dy * sj, e);
    var raw := CalcInGivenOut(bi * si, weights[i], bj * sj, weights[j], dy * sj, true).value;
    var paid := SwapGivenOut(i, j, dy, balances, weights, scaling, fee, true).value;
    FeeRaises(RoundUp(raw, si), Complement(fee), paid);
    ChargeAndRoundIn(bi, si, raw, RoundUp(raw, si), paid, bj, sj, dy, e);
  }

  lemma ChargeAndRoundIn(bi: nat, si: nat, raw: nat, net: nat, paid: nat, bj: nat, sj: nat, dy: nat, e: nat)
    requires FastExponent(e) && 0 < sj && raw <= net * si && net <= paid && dy * sj <= bj * sj
    requires (bi * si) * Power(bj * sj, e) <= (bi * si + raw) * Power(bj * sj - dy * sj, e)
    ensures dy <= bj
    ensures (bi * si) * Power(bj * sj, e) <= ((bi + paid) * si) * Power((bj - dy) * sj, e)
  {
    MulCancel(dy, bj, sj);
    MulMono(net, paid, si);
    assert (bi + paid) * si == bi * si + paid * si;
    assert (bj - dy) * sj == bj * sj - dy * sj;
    MulMono(bi * si + raw, (bi + paid) * si, Power((bj - dy) * sj, e));
  }

  lemma FeeRaises(net: nat, keep: nat, paid: nat)
    requires keep <= WAD && net * WAD <= paid * keep
    ensures net <= paid
  {
    MulMono(keep, WAD, paid);
    MulCancel(net, paid, WAD);
  }

  // ----- equal weights -----

  /** A pool of equal weights with the fast path on. */
  datatype Pool = Pool(weight: nat, scaling: seq<nat>, fee: nat) {
    ghost predicate Valid() {
      0 < weight && fee <= WAD && forall k :: 0 <= k < |scaling| ==> 0 < scaling[k]
    }

    function Weights(): (w: seq<nat>)
      ensures |w| == |scaling| && forall k :: 0 <= k < |w| ==> w[k] == weight
    {
      seq(|scaling|, _ => weight)
    }
  }

  datatype Swap = GivenIn(i: nat, j: nat, dx: nat) | GivenOut(i: nat, j: nat, dy: nat)

  /** Balances after a swap: what was paid in, what was taken out, and nothing else. */
  function Apply(p: Pool, balances: seq<nat>, s: Swap): Result<seq<int>>
    requires p.Valid() && |balances| == |p.scaling| && s.i < |balances| && s.j < |balances|
  {
    match s
    case GivenIn(i, j, dx) =>
      var out :- SwapGivenIn(i, j, dx, balances, p.Weights(), p.scaling, p.fee, true);
      Ok(balances[i := balances[i] + dx][j := balances[j] - out])
    case GivenOut(i, j, dy) =>
      var paid :- SwapGivenOut(i, j, dy, balances, p.Weights(), p.scaling, p.fee, true);
      Ok(balances[i := balances[i] + paid][j := balances[j] - dy])
  }

  lemma EqualWeights(w: nat)
    requires 0 < w
    ensures DivDown(w, w) == Ok(1 * WAD) && DivUp(w, w) == Ok(1 * WAD)
  {
    QuotientUnique(w * WAD, w, WAD);
    QuotientUnique(w * WAD - 1, w, WAD - 1);
  }

  /** After a swap, balances u of i and v of j replace the old ones, with no smaller a product. */
  lemma ApplyKeepsPair(p: Pool, balances: seq<nat>, s: Swap)
    requires p.Valid() && |balances| == |p.scaling| && s.i < |balances| && s.j < |balances| && s.i != s.j
    requires Apply(p, balances, s).Ok?
    ensures var b := Apply(p, balances, s).value;
            && |b| == |balances| && 0 <= b[s.i] && 0 <= b[s.j]
            && b == balances[s.i := b[s.i]][s.j := b[s.j]]
            && (balances[s.i] * p.scaling[s.i]) * (balances[s.j] * p.scaling[s.j])
            <= (b[s.i] * p.scaling[s.i]) * (b[s.j] * p.scaling[s.j])
  {
    EqualWeights(p.weight);
    match s
    case GivenIn(i, j, dx) => SwapInKeepsProduct(i, j, dx, balances, p.Weights(), p.scaling, p.fee, 1);
    case GivenOut(i, j, dy) => SwapOutKeepsProduct(i, j, dy, balances, p.Weights(), p.scaling, p.fee, 1);
  }

  // ----- the product of all balances -----

  ghost function Scaled(b: nat, s: nat): nat {
    b * s
  }

  ghost function Product(balances: seq<nat>, scaling: seq<nat>): nat
    requires |balances| == |scaling|
  {
    if balances == [] then 1
    else Scaled(balances[0], scaling[0]) * Product(balances[1..], scaling[1..])
  }

  /** Replacing one balance scales the product by the ratio of the two. */
  lemma {:induction false} ProductUpdate(b: seq<nat>, s: seq<nat>, i: nat, v: nat)
    requires |b| == |s| && i < |b|
    ensures Product(b[i := v], s) * Scaled(b[i], s[i]) == Product(b, s) * Scaled(v, s[i])
  {
    if i == 0 {
      assert b[i := v][1..] == b[1..];
      Swap3(Scaled(v, s[0]), Product(b[1..], s[1..]), Scaled(b[0], s[0]));
    } else {
      assert b[i := v][1..] == b[1..][i - 1 := v];
      ProductUpdate(b[1..], s[1..], i - 1, v);
      var h := Scaled(b[0], s[0]);
      Factor(h, Product(b[1..][i - 1 := v], s[1..]), Scaled(b[i], s[i]), Product(b[1..], s[1..]), Scaled(v, s[i]));
    }
  }

  lemma Swap3(a: nat, p: nat, c: nat)
    ensures (a * p) * c == (c * p) * a
  {
  }

  lemma Factor(h: nat, p: nat, x: nat, q: nat, y: nat)
    requires p * x == q * y
    ensures (h * p) * x == (h * q) * y
  {
    assert (h * p) * x == h * (p * x);
    assert (h * q) * y == h * (q * y);
  }

  lemma {:induction false} ProductPositive(b: seq<nat>, s: seq<nat>)
    requires |b| == |s| && forall k :: 0 <= k < |b| ==> 0 < b[k] && 0 < s[k]
    ensures 0 < Product(b, s)
  {
    if b != [] {
      ProductPositive(b[1..], s[1..]);
      MulMonoStrict(0, b[0], s[0]);
      MulMonoStrict(0, Scaled(b[0], s[0]), Product(b[1..], s[1..]));
    }
  }

  lemma {:induction false} ProductMono(b: seq<nat>, c: seq<nat>, s: seq<nat>)
    requires |b| == |c| == |s| && forall k :: 0 <= k < |b| ==> b[k] <= c[k]
    ensures Product(b, s) <= Product(c, s)
  {
    if b != [] {
      ProductMono(b[1..], c[1..], s[1..]);
      MulMono(b[0], c[0], s[0]);
      MulMono2(Scaled(b[0], s[0]), Scaled(c[0], s[0]), Product(b[1..], s[1..]), Product(c[1..], s[1..]));
    }
  }

  lemma {:induction false} ProductZero(b: seq<nat>, s: seq<nat>, i: nat)
    requires |b| == |s| && i < |b| && Scaled(b[i], s[i]) == 0
    ensures Product(b, s) == 0
  {
    if i > 0 { ProductZero(b[1..], s[1..], i - 1); }
  }

  /** Replacing two balances by a pair of no smaller product does not lower the whole. */
  lemma ProductOfPair(b: seq<nat>, s: seq<nat>, i: nat, j: nat, u: nat, v: nat)
    requires |b| == |s| && i < |b| && j < |b| && i != j
    requires Scaled(b[i], s[i]) * Scaled(b[j], s[j]) <= Scaled(u, s[i]) * Scaled(v, s[j])
    ensures Product(b, s) <= Product(b[i := u][j := v], s)
  {
    var x, y := Scaled(b[i], s[i]), Scaled(b[j], s[j]);
    if x == 0 {
      ProductZero(b, s, i);
    } else if y == 0 {
      ProductZero(b, s, j);
    } else {
      ProductUpdate(b, s, i, u);
      ProductUpdate(b[i := u], s, j, v);
      PairRatio(Product(b, s), Product(b[i := u], s), Product(b[i := u][j := v], s), x, y,
                Scaled(u, s[i]), Scaled(v, s[j]));
    }
  }

  lemma PairRatio(p: nat, q: nat, r: nat, x: nat, y: nat, u: nat, v: nat)
    requires 0 < x && 0 < y && q * x == p * u && r * y == q * v && x * y <= u * v
    ensures p <= r
  {
    assert (r * y) * x == (q * x) * v == p * (u * v) by {
      assert (q * v) * x == (q * x) * v;
      assert (p * u) * v == p * (u * v);
    }
    assert (r * y) * x == r * (x * y);
    MulMono(x * y, u * v, p);
    assert 0 < x * y by { MulMonoStrict(0, x, y); }
    MulCancel(p, r, x * y);
  }

  // ----- runs -----

  ghost predicate Applies(p: Pool, b: seq<nat>, s: Swap, b': seq<nat>) {
    && p.Valid() && |b| == |p.scaling| == |b'| && s.i < |b| && s.j < |b| && s.i != s.j
    && Apply(p, b, s) == Ok(b')
  }

  /** A run of swaps, exact in or exact out, between any pairs of tokens. */
  datatype Run = Start(balances: seq<nat>) | Then(before: Run, swap: Swap, balances: seq<nat>) {
    ghost predicate Valid(p: Pool) {
      match this
      case Start(b) => p.Valid() && |b| == |p.scaling|
      case Then(before, swap, b) => before.Valid(p) && Applies(p, before.balances, swap, b)
    }

    ghost function First(): seq<nat> {
      match this
      case Start(b) => b
      case Then(before, _, _) => before.First()
    }
  }

  lemma StepKeepsProduct(p: Pool, b: seq<nat>, s: Swap, b': seq<nat>)
    requires Applies(p, b, s, b')
    ensures Product(b, p.scaling) <= Product(b', p.scaling)
  {
    ApplyKeepsPair(p, b, s);
    ProductOfPair(b, p.scaling, s.i, s.j, b'[s.i], b'[s.j]);
    assert b[s.i := b'[s.i]][s.j := b'[s.j]] == b';
  }

  /** No run of swaps lowers the product of an equal-weight pool's balances. */
  lemma {:induction false} RunKeepsProduct(p: Pool, run: Run)
    requires run.Valid(p)
    ensures |run.First()| == |run.balances| == |p.scaling|
    ensures Product(run.First(), p.scaling) <= Product(run.balances, p.scaling)
  {
    if run.Then? {
      RunKeepsProduct(p, run.before);
      StepKeepsProduct(p, run.before.balances, run.swap, run.balances);
    }
  }

  /** No run of swaps takes a token out for nothing: if no other balance has grown, the last one
      has not shrunk. */
  lemma NoFreeTokens(p: Pool, run: Run, i: nat)
    requires run.Valid(p) && i < |p.scaling|
    requires forall k :: 0 <= k < |run.First()| ==> 0 < run.First()[k]
    requires |run.First()| == |run.balances|
    requires forall k :: 0 <= k < |run.First()| && k != i ==> run.balances[k] <= run.First()[k]
    ensures run.First()[i] <= run.balances[i]
  {
    RunKeepsProduct(p, run);
    LastCannotShrink(run.First(), run.balances, p.scaling, i);
  }

  lemma LastCannotShrink(b: seq<nat>, c: seq<nat>, s: seq<nat>, i: nat)
    requires |b| == |c| == |s| && i < |b| && Product(b, s) <= Product(c, s)
    requires forall k :: 0 <= k < |b| ==> 0 < b[k] && 0 < s[k]
    requires forall k :: 0 <= k < |b| && k != i ==> c[k] <= b[k]
    ensures b[i] <= c[i]
  {
    var d := b[i := c[i]];
    ProductMono(c, d, s);
    ProductUpdate(b, s, i, c[i]);
    ProductPositive(b, s);
    ScaledRatio(Product(b, s), Product(d, s), b[i], c[i], s[i]);
  }

  lemma ScaledRatio(p: nat, q: nat, x: nat, y: nat, s: nat)
    requires 0 < p <= q && 0 < s && q * Scaled(x, s) == p * Scaled(y, s)
    ensures x <= y
  {
    MulMono(p, q, Scaled(x, s));
    MulCancel(Scaled(x, s), Scaled(y, s), p);
    MulCancel(x, y, s);
  }

  /** Two swaps that leave no other balance larger leave the last one no smaller. */
  lemma TwoStepsLose(p: Pool, b: seq<nat>, s1: Swap, b1: seq<nat>, s2: Swap, b2: seq<nat>, i: nat)
    requires Applies(p, b, s1, b1) && Applies(p, b1, s2, b2) && i < |b|
    requires forall k :: 0 <= k < |b| ==> 0 < b[k]
    requires forall k :: 0 <= k < |b| && k != i ==> b2[k] <= b[k]
    ensures b[i] <= b2[i]
  {
    StepKeepsProduct(p, b, s1, b1);
    StepKeepsProduct(p, b1, s2, b2);
    LastCannotShrink(b, b2, p.scaling, i);
  }

  lemma GivenInApplies(p: Pool, b: seq<nat>, i: nat, j: nat, dx: nat)
    requires p.Valid() && |b| == |p.scaling| && i < |b| && j < |b| && i != j
    requires SwapGivenIn(i, j, dx, b, p.Weights(), p.scaling, p.fee, true).Ok?
    ensures var out := SwapGivenIn(i, j, dx, b, p.Weights(), p.scaling, p.fee, true).value;
            out <= b[j] && Applies(p, b, GivenIn(i, j, dx), b[i := b[i] + dx][j := b[j] - out])
  {
    ApplyKeepsPair(p, b, GivenIn(i, j, dx));
  }

  /** Selling dx and selling the proceeds back never returns more than dx. */
  lemma RoundTripLoses(p: Pool, b: seq<nat>, i: nat, j: nat, dx: nat, out: nat, back: nat)
    requires p.Valid() && |b| == |p.scaling| && i < |b| && j < |b| && i != j
    requires forall k :: 0 <= k < |b| ==> 0 < b[k]
    requires SwapGivenIn(i, j, dx, b, p.Weights(), p.scaling, p.fee, true) == Ok(out) && out <= b[j]
    requires SwapGivenIn(j, i, out, b[i := b[i] + dx][j := b[j] - out], p.Weights(), p.scaling, p.fee, true) == Ok(back)
    ensures back <= dx
  {
    GivenInApplies(p, b, i, j, dx);
    var b1: seq<nat> := b[i := b[i] + dx][j := b[j] - out];
    GivenInApplies(p, b1, j, i, out);
    var b2: seq<nat> := b1[j := b1[j] + out][i := b1[i] - back];
    TwoStepsLose(p, b, GivenIn(i, j, dx), b1, GivenIn(j, i, out), b2, i);
  }
}
