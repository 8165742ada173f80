/** What the forward pass computes, component by component: residual sums around
    a mean of values that is weighted by exponentials of scaled products, and a
    gated projection. A reference without masks, flat indices or softmax. */
module ForwardMeaning {
  import opened FlatIndex
  import opened CausalModel
  import Numbers

  // ------------------------------------------------------------------- the reference

  function Component(v: Vec, i: nat): real { if i < |v| then v[i] else 0.0 }

  /** The scalar product of two vectors, over their first `n` components. */
  function Product(a: Vec, b: Vec, n: nat): real {
    if n == 0 then 0.0 else Product(a, b, n - 1) + Component(a, n - 1) * Component(b, n - 1)
  }

  function Place(xs: seq<Vec>, s: nat): Vec { if s < |xs| then xs[s] else [] }

  /** Components `h * headDim` and on of a projection. */
  function HeadOf(v: Vec, h: nat, headDim: nat): Vec {
    seq(headDim, d requires 0 <= d => Component(v, h * headDim + d))
  }

  /** The unnormalised weight of position `s` for position `t` in a query head,
      which attends through one key/value head of its group. */
  function Weight(w: Weights, l: Layer, xs: seq<Vec>, h: nat, t: nat, s: nat): real
    requires Grouped(w)
  {
    var q := w.rope(l.qNorm(HeadOf(l.q(Place(xs, t)), h, w.headDim)), t);
    var k := w.rope(l.kNorm(HeadOf(l.k(Place(xs, s)), h / (w.nHead / w.nKvHead), w.headDim)), s);
    w.exp(Numbers.Times(Product(q, k, |q|), w.scale))
  }

  /** Component `d` of a position's value in a query head. */
  function ValueOf(w: Weights, l: Layer, xs: seq<Vec>, h: nat, s: nat, d: nat): real
    requires Grouped(w)
  {
    Component(l.v(Place(xs, s)), h / (w.nHead / w.nKvHead) * w.headDim + d)
  }

  /** The weights of the first `n` positions. */
  function TotalWeight(w: Weights, l: Layer, xs: seq<Vec>, h: nat, t: nat, n: nat): real
    requires Grouped(w)
  {
    if n == 0 then 0.0 else TotalWeight(w, l, xs, h, t, n - 1) + Weight(w, l, xs, h, t, n - 1)
  }

  /** The weighted values of the first `n` positions. */
  function WeightedSum(w: Weights, l: Layer, xs: seq<Vec>, h: nat, t: nat, d: nat, n: nat): real
    requires Grouped(w)
  {
    if n == 0 then 0.0
    else
      WeightedSum(w, l, xs, h, t, d, n - 1)
      + Numbers.Times(Weight(w, l, xs, h, t, n - 1), ValueOf(w, l, xs, h, n - 1, d))
  }

  /** A component of a head is the weighted mean of the values up to its position. */
  predicate HeadComponent(w: Weights, l: Layer, xs: seq<Vec>, t: nat, h: nat, d: nat, merged: Vec)
    requires Grouped(w)
  {
    Numbers.Times(Component(merged, h * w.headDim + d), TotalWeight(w, l, xs, h, t, t + 1))
    == WeightedSum(w, l, xs, h, t, d, t + 1)
  }

  /** The heads of a position, one after another. */
  predicate IsAttention(w: Weights, l: Layer, xs: seq<Vec>, t: nat, merged: Vec)
    requires Grouped(w)
  {
    && |merged| == w.nHead * w.headDim
    && forall h: nat, d: nat | h < w.nHead && d < w.headDim :: HeadComponent(w, l, xs, t, h, d, merged)
  }

  function Normed(l: Layer, xs: seq<Vec>): seq<Vec> {
    seq(|xs|, s requires 0 <= s < |xs| => l.attnNorm(xs[s]))
  }

  /** Position `t` after a layer: what was there, plus the projected heads, plus
      the gated projection of that sum. */
  predicate LayerParts(w: Weights, l: Layer, xs: seq<Vec>, t: nat, merged: Vec, mid: Vec, inner: Vec, y: Vec)
    requires Grouped(w) && t < |xs|
  {
    && IsAttention(w, l, Normed(l, xs), t, merged)
    && |mid| == |xs[t]|
    && (forall d :: 0 <= d < |mid| ==> mid[d] == xs[t][d] + Component(l.o(merged), d))
    && var (gate, up) := (l.gate(l.postNorm(mid)), l.up(l.postNorm(mid)));
       && |inner| == |gate|
       && (forall i :: 0 <= i < |inner| ==> inner[i] == Numbers.Times(w.silu(gate[i]), Component(up, i)))
       && |y| == |mid|
       && (forall d :: 0 <= d < |y| ==> y[d] == mid[d] + Component(l.down(inner), d))
  }

  ghost predicate PositionStep(w: Weights, l: Layer, xs: seq<Vec>, t: nat, y: Vec)
    requires Grouped(w) && t < |xs|
  {
    exists merged, mid, inner :: LayerParts(w, l, xs, t, merged, mid, inner, y)
  }

  ghost predicate LayerStep(w: Weights, l: Layer, xs: seq<Vec>, ys: seq<Vec>)
    requires Grouped(w)
  {
    && |ys| == |xs|
    && forall t: nat | t < |xs| :: PositionStep(w, l, xs, t, ys[t])
  }

  /** The states of a pass: the embedded tokens, and then one state a layer. */
  ghost predicate States(w: Weights, ids: seq<nat>, states: seq<seq<Vec>>)
    requires Grouped(w)
  {
    && |states| == |w.layers| + 1
    && |states[0]| == |ids| && (forall t :: 0 <= t < |ids| ==> states[0][t] == w.embed(ids[t]))
    && forall k: nat | k < |w.layers| :: LayerStep(w, w.layers[k], states[k], states[k + 1])
  }

  ghost predicate Computes(w: Weights, ids: seq<nat>, hidden: seq<Vec>)
    requires Grouped(w)
  {
    && |hidden| == |ids|
    && exists states :: States(w, ids, states) && |states[|w.layers|]| == |ids|
         && forall t :: 0 <= t < |ids| ==> hidden[t] == w.finalNorm(states[|w.layers|][t])
  }

  // ------------------------------------------------------------------ sums of products

  lemma {:induction false} DotIsProduct(a: Vec, b: Vec, n: nat)
    requires n <= |a|
    ensures Sum(Times(a, b)[..n]) == Product(a, b, n)
  {
    if n > 0 {
      DotIsProduct(a, b, n - 1);
      assert Times(a, b)[..n][..n - 1] == Times(a, b)[..n - 1];
    }
  }

  lemma {:induction false} TotalIsSum(w: Weights, l: Layer, xs: seq<Vec>, h: nat, t: nat, v: Vec)
    requires Grouped(w) && forall s: nat :: s < |v| ==> v[s] == Weight(w, l, xs, h, t, s)
    ensures Sum(v) == TotalWeight(w, l, xs, h, t, |v|)
  {
    if v != [] {
      TotalIsSum(w, l, xs, h, t, v[..|v| - 1]);
    }
  }

  lemma {:induction false} WeightedIsSum(w: Weights, l: Layer, xs: seq<Vec>, h: nat, t: nat, d: nat, v: Vec)
    requires Grouped(w)
    requires forall s: nat :: s < |v| ==>
      v[s] == Numbers.Times(Weight(w, l, xs, h, t, s), ValueOf(w, l, xs, h, s, d))
    ensures Sum(v) == WeightedSum(w, l, xs, h, t, d, |v|)
  {
    if v != [] {
      WeightedIsSum(w, l, xs, h, t, d, v[..|v| - 1]);
    }
  }

  lemma {:induction false} SumTimes(v: Vec, u: Vec, c: real)
    requires |v| == |u| && forall i :: 0 <= i < |v| ==> Numbers.Times(v[i], c) == u[i]
    ensures Numbers.Times(Sum(v), c) == Sum(u)
  {
    if v != [] {
      var n := |v| - 1;
      SumTimes(v[..n], u[..n], c);
      assert (Sum(v[..n]) + v[n]) * c == Sum(v[..n]) * c + v[n] * c;
    }
  }

  ghost predicate Positive(exp: real -> real) { forall x :: exp(x) > 0.0 }

  lemma {:induction false} TotalPositive(w: Weights, l: Layer, xs: seq<Vec>, h: nat, t: nat, n: nat)
    requires Grouped(w) && Positive(w.exp)
    ensures n > 0 ==> TotalWeight(w, l, xs, h, t, n) > 0.0
    ensures TotalWeight(w, l, xs, h, t, n) >= 0.0
  {
    if n > 0 {
      TotalPositive(w, l, xs, h, t, n - 1);
    }
  }

  // ---------------------------------------------------------------- attention weights

  lemma HeadSliceIsHeadOf(v: Vec, h: nat, headDim: nat)
    ensures HeadSlice(v, h, headDim) == HeadOf(v, h, headDim)
  {
    var (a, b) := (HeadSlice(v, h, headDim), HeadOf(v, h, headDim));
    forall d | 0 <= d < headDim ensures a[d] == b[d] {
      var i: nat := h * headDim + d;
      assert a[d] == At(v, i) == Component(v, i) == b[d];
    }
    assert a == b;
  }

  lemma WeightOfProduct(w: Weights, l: Layer, xs: seq<Vec>, h: nat, t: nat, s: nat)
    requires Grouped(w) && t < |xs| && s < |xs|
    ensures Weight(w, l, xs, h, t, s)
         == w.exp(Numbers.Times(Dot(Query(w, l, xs[t], h, t), Key(w, l, xs[s], h, s)), w.scale))
  {
    var (q, k) := (Query(w, l, xs[t], h, t), Key(w, l, xs[s], h, s));
    HeadSliceIsHeadOf(l.q(xs[t]), h, w.headDim);
    HeadSliceIsHeadOf(l.k(xs[s]), KvHead(w, h), w.headDim);
    DotIsProduct(q, k, |q|);
    assert Times(q, k)[..|q|] == Times(q, k);
    assert Dot(q, k) == Product(q, k, |q|);
    hide Sum, Times, HeadSlice, HeadOf, Product;
  }

  lemma ScoreIsWeight(w: Weights, l: Layer, xs: seq<Vec>, h: nat, t: nat, s: nat)
    requires Grouped(w) && t < |xs| && s < |xs|
    ensures ExpOf(w.exp, Scores(w, l, xs, CausalMask(|xs|), h, t)[s])
         == if s <= t then Weight(w, l, xs, h, t, s) else 0.0
  {
    hide CausalMask, Flat, Dot, Query, Key, Weight;
    MaskAt(|xs|, t, s);
    WeightOfProduct(w, l, xs, h, t, s);
    FlatBound(t, |xs|, |xs|, s);
    var product := Dot(Query(w, l, xs[t], h, t), Key(w, l, xs[s], h, s)) * w.scale;
    assert Scores(w, l, xs, CausalMask(|xs|), h, t)[s] == ScoreAt(w, l, xs, CausalMask(|xs|), h, t, s);
    assert ScoreAt(w, l, xs, CausalMask(|xs|), h, t, s) == if s <= t then Fin(product) else NegInf;
  }

  /** The exponentials of a position's scores: its weights, then zeros. */
  lemma ExpsAreWeights(w: Weights, l: Layer, xs: seq<Vec>, h: nat, t: nat)
    requires Grouped(w) && t < |xs|
    ensures var e := Exps(w.exp, Scores(w, l, xs, CausalMask(|xs|), h, t));
      && (forall s: nat :: s < |xs| ==> e[s] == if s <= t then Weight(w, l, xs, h, t, s) else 0.0)
      && Sum(e) == TotalWeight(w, l, xs, h, t, t + 1)
  {
    var e := Exps(w.exp, Scores(w, l, xs, CausalMask(|xs|), h, t));
    forall s: nat | s < |xs| ensures e[s] == if s <= t then Weight(w, l, xs, h, t, s) else 0.0 {
      hide Scores, CausalMask, Weight, ExpOf;
      ScoreIsWeight(w, l, xs, h, t, s);
    }
    hide Scores, Exps, Weight, CausalMask, Positive, TotalWeight;
    assert e == e[..t + 1] + e[t + 1..];
    SumZeros(e[..t + 1], e[t + 1..]);
    TotalIsSum(w, l, xs, h, t, e[..t + 1]);
  }

  lemma ExpsPositive(w: Weights, l: Layer, xs: seq<Vec>, h: nat, t: nat)
    requires Grouped(w) && t < |xs| && Positive(w.exp)
    ensures var e := Exps(w.exp, Scores(w, l, xs, CausalMask(|xs|), h, t));
      Sum(e) > 0.0 && forall s :: 0 <= s < |xs| ==> e[s] >= 0.0 && (e[s] == 0.0 <==> s > t)
  {
    hide Scores, CausalMask, Exps, Weight, Positive, Sum, TotalWeight;
    ExpsAreWeights(w, l, xs, h, t);
    TotalPositive(w, l, xs, h, t, t + 1);
    forall s: nat | s < |xs| ensures Weight(w, l, xs, h, t, s) > 0.0 {
      WeightPositive(w, l, xs, h, t, s);
    }
  }

  lemma WeightPositive(w: Weights, l: Layer, xs: seq<Vec>, h: nat, t: nat, s: nat)
    requires Grouped(w) && Positive(w.exp)
    ensures Weight(w, l, xs, h, t, s) > 0.0
  {
  }

  /** A position's attention weights are not negative, add up to one, and are
      zero for what follows it. */
  lemma AttentionWeights(w: Weights, l: Layer, xs: seq<Vec>, h: nat, t: nat)
    requires Grouped(w) && t < |xs| && Positive(w.exp)
    ensures var probs := Softmax(w.exp, Scores(w, l, xs, CausalMask(|xs|), h, t));
      && Sum(probs) == 1.0
      && forall s :: 0 <= s < |xs| ==> probs[s] >= 0.0 && (probs[s] == 0.0 <==> s > t)
  {
    hide Scores, CausalMask, Exps, Softmax, Sum, TotalWeight, Weight, Positive;
    var scores := Scores(w, l, xs, CausalMask(|xs|), h, t);
    var (e, probs) := (Exps(w.exp, scores), Softmax(w.exp, scores));
    ExpsPositive(w, l, xs, h, t);
    forall s | 0 <= s < |xs|
      ensures Numbers.Times(probs[s], Sum(e)) == e[s] && probs[s] >= 0.0 && (probs[s] == 0.0 <==> s > t)
    {
      SoftmaxAt(w.exp, scores, s);
    }
    SumTimes(probs, e, Sum(e));
    OneQuotient(Sum(probs), Sum(e));
  }

  lemma SoftmaxAt(exp: real -> real, scores: seq<Score>, s: nat)
    requires s < |scores| && Sum(Exps(exp, scores)) > 0.0 && Exps(exp, scores)[s] >= 0.0
    ensures var (p, e) := (Softmax(exp, scores)[s], Exps(exp, scores));
      Numbers.Times(p, Sum(e)) == e[s] && p >= 0.0 && (p == 0.0 <==> e[s] == 0.0)
  {
    var (e, total) := (Exps(exp, scores)[s], Sum(Exps(exp, scores)));
    assert Softmax(exp, scores)[s] == e / total;
    hide Softmax, Exps, Sum;
    Quotient(e, total);
  }

  lemma Quotient(a: real, b: real)
    requires b > 0.0 && a >= 0.0
    ensures Numbers.Times(a / b, b) == a && a / b >= 0.0 && (a / b == 0.0 <==> a == 0.0)
  {
  }

  lemma OneQuotient(a: real, b: real)
    requires b > 0.0 && Numbers.Times(a, b) == b
    ensures a == 1.0
  {
    assert Numbers.Times(a - 1.0, b) == Numbers.Times(a, b) - b;
    assert a < 1.0 ==> Numbers.Times(1.0 - a, b) == b - Numbers.Times(a, b);
  }

  lemma Reordered(a: real, b: real, c: real)
    ensures Numbers.Times(Numbers.Times(a, b), c) == Numbers.Times(Numbers.Times(a, c), b)
  {
  }

  lemma TimesAt(a: Vec, b: Vec, i: nat)
    requires i < |a| && |a| == |b|
    ensures Times(a, b)[i] == Numbers.Times(a[i], b[i])
  {
  }

  /** The mean under softmax weights, with its denominator multiplied out. */
  lemma WeightedMean(exp: real -> real, scores: seq<Score>, values: Vec)
    requires |values| == |scores| && Sum(Exps(exp, scores)) > 0.0
    requires forall s :: 0 <= s < |scores| ==> Exps(exp, scores)[s] >= 0.0
    ensures Numbers.Times(Dot(Softmax(exp, scores), values), Sum(Exps(exp, scores))) == Dot(Exps(exp, scores), values)
  {
    var (e, probs) := (Exps(exp, scores), Softmax(exp, scores));
    var (v, u) := (Times(probs, values), Times(e, values));
    hide Softmax, Exps, Sum, Times, Numbers.Times;
    forall s | 0 <= s < |scores| ensures Numbers.Times(v[s], Sum(e)) == u[s] {
      SoftmaxAt(exp, scores, s);
      TimesAt(probs, values, s);
      TimesAt(e, values, s);
      Reordered(probs[s], values[s], Sum(e));
    }
    SumTimes(v, u, Sum(e));
  }

  lemma WeightedHead(w: Weights, l: Layer, xs: seq<Vec>, h: nat, t: nat, d: nat, e: Vec, values: Vec)
    requires Grouped(w) && t < |xs| == |e| == |values|
    requires forall s: nat :: s < |xs| ==> e[s] == if s <= t then Weight(w, l, xs, h, t, s) else 0.0
    requires forall s: nat :: s < |xs| ==> values[s] == ValueOf(w, l, xs, h, s, d)
    ensures Dot(e, values) == WeightedSum(w, l, xs, h, t, d, t + 1)
  {
    var products := Times(e, values);
    hide Weight, ValueOf, Times, Sum, Numbers.Times;
    forall s: nat | s < |xs|
      ensures products[s] ==
        if s <= t then Numbers.Times(Weight(w, l, xs, h, t, s), ValueOf(w, l, xs, h, s, d)) else 0.0
    {
      TimesAt(e, values, s);
    }
    assert products == products[..t + 1] + products[t + 1..];
    SumZeros(products[..t + 1], products[t + 1..]);
    WeightedIsSum(w, l, xs, h, t, d, products[..t + 1]);
  }

  /** The heads of a position are what the reference says. */
  lemma HeadMeans(w: Weights, l: Layer, xs: seq<Vec>, t: nat, h: nat, d: nat)
    requires Grouped(w) && t < |xs| && d < w.headDim && Positive(w.exp)
    ensures |HeadOut(w, l, xs, CausalMask(|xs|), h, t)| == w.headDim
    ensures Numbers.Times(HeadOut(w, l, xs, CausalMask(|xs|), h, t)[d], TotalWeight(w, l, xs, h, t, t + 1))
         == WeightedSum(w, l, xs, h, t, d, t + 1)
  {
    var scores := Scores(w, l, xs, CausalMask(|xs|), h, t);
    var (e, values) := (Exps(w.exp, scores), Values(w, l, xs, h, d));
    forall s: nat | s < |xs| ensures values[s] == ValueOf(w, l, xs, h, s, d) {
      ValueIsComponent(w, l, xs, h, s, d);
    }
    hide Scores, CausalMask, Exps, Softmax, Values, Weight, ValueOf, TotalWeight, WeightedSum, Positive, Sum, Dot;
    ExpsAreWeights(w, l, xs, h, t);
    ExpsPositive(w, l, xs, h, t);
    WeightedMean(w.exp, scores, values);
    WeightedHead(w, l, xs, h, t, d, e, values);
  }

  lemma ValueIsComponent(w: Weights, l: Layer, xs: seq<Vec>, h: nat, s: nat, d: nat)
    requires Grouped(w) && s < |xs| && d < w.headDim
    ensures At(Value(w, l, xs[s], h), d) == ValueOf(w, l, xs, h, s, d)
  {
  }

  // ------------------------------------------------------------------ the whole pass

  lemma AttentionMeans(w: Weights, l: Layer, xs: seq<Vec>, t: nat)
    requires Grouped(w) && t < |xs| && Positive(w.exp)
    ensures IsAttention(w, l, xs, t, Merged(w, l, xs, CausalMask(|xs|), t))
  {
    var merged := Merged(w, l, xs, CausalMask(|xs|), t);
    hide CausalMask, HeadOut, TotalWeight, WeightedSum, Positive;
    forall h: nat, d: nat | h < w.nHead && d < w.headDim ensures HeadComponent(w, l, xs, t, h, d, merged) {
      HeadMeans(w, l, xs, t, h, d);
      FlatBound(h, w.nHead, w.headDim, d);
      FlatParts(h, w.headDim, d);
    }
  }

  /** Attention is determined by the reference: a mean has one value. */
  lemma AttentionUnique(w: Weights, l: Layer, xs: seq<Vec>, t: nat, a: Vec, b: Vec)
    requires Grouped(w) && Positive(w.exp)
    requires IsAttention(w, l, xs, t, a) && IsAttention(w, l, xs, t, b)
    ensures a == b
  {
    forall i | 0 <= i < |a| ensures a[i] == b[i] {
      var (h, d) := (i / w.headDim, i % w.headDim);
      assert i == h * w.headDim + d;
      HeadBelow(i, w.nHead, w.headDim);
      assert HeadComponent(w, l, xs, t, h, d, a) && HeadComponent(w, l, xs, t, h, d, b);
      TotalPositive(w, l, xs, h, t, t + 1);
      hide TotalWeight, WeightedSum, Positive;
      SameQuotient(a[i], b[i], TotalWeight(w, l, xs, h, t, t + 1));
    }
  }

  lemma HeadBelow(i: nat, n: nat, width: nat)
    requires width > 0 && i < n * width
    ensures i / width < n && i % width < width && i == i / width * width + i % width
  {
  }

  lemma SameQuotient(a: real, b: real, c: real)
    requires c > 0.0 && Numbers.Times(a, c) == Numbers.Times(b, c)
    ensures a == b
  {
    assert Numbers.Times(a - b, c) == Numbers.Times(a, c) - Numbers.Times(b, c);
    assert Numbers.Times(b - a, c) == Numbers.Times(b, c) - Numbers.Times(a, c);
  }

  /** A layer of the model does a step of the reference at every position. */
  lemma LayerMeans(w: Weights, l: Layer, xs: seq<Vec>)
    requires Grouped(w) && Positive(w.exp)
    ensures LayerStep(w, l, xs, LayerForward(w, l, xs, CausalMask(|xs|)))
  {
    var ys := LayerForward(w, l, xs, CausalMask(|xs|));
    hide PositionStep, LayerAt, CausalMask;
    forall t: nat | t < |xs| ensures PositionStep(w, l, xs, t, ys[t]) {
      LayerAtMeans(w, l, xs, t);
    }
  }

  /** A residual sum, component by component. */
  lemma AddMeans(a: Vec, b: Vec)
    ensures |Add(a, b)| == |a| && forall d :: 0 <= d < |a| ==> Add(a, b)[d] == a[d] + Component(b, d)
  {
  }

  lemma GatedMeans(w: Weights, gate: Vec, up: Vec)
    ensures var inner := Times(seq(|gate|, i requires 0 <= i < |gate| => w.silu(gate[i])), up);
      |inner| == |gate|
      && forall i :: 0 <= i < |gate| ==> inner[i] == Numbers.Times(w.silu(gate[i]), Component(up, i))
  {
  }

  lemma LayerAtMeans(w: Weights, l: Layer, xs: seq<Vec>, t: nat)
    requires Grouped(w) && Positive(w.exp) && t < |xs|
    ensures PositionStep(w, l, xs, t, LayerAt(w, l, xs, CausalMask(|xs|), t))
  {
    var normed := Map(l.attnNorm, xs);
    assert normed == Normed(l, xs);
    hide IsAttention, Merged, CausalMask, Map, Normed, Add, Times, Numbers.Times, Component;
    var merged := Merged(w, l, normed, CausalMask(|xs|), t);
    AttentionMeans(w, l, normed, t);
    var mid := Add(xs[t], l.o(merged));
    AddMeans(xs[t], l.o(merged));
    var (gate, up) := (l.gate(l.postNorm(mid)), l.up(l.postNorm(mid)));
    var inner := Times(seq(|gate|, i requires 0 <= i < |gate| => w.silu(gate[i])), up);
    GatedMeans(w, gate, up);
    AddMeans(mid, l.down(inner));
    assert LayerParts(w, l, xs, t, merged, mid, inner, LayerAt(w, l, xs, CausalMask(|xs|), t));
  }

  lemma PartsUnique(w: Weights, l: Layer, xs: seq<Vec>, t: nat, merged: Vec, mid: Vec, inner: Vec, y: Vec,
                    merged': Vec, mid': Vec, inner': Vec, y': Vec)
    requires Grouped(w) && Positive(w.exp) && t < |xs|
    requires LayerParts(w, l, xs, t, merged, mid, inner, y) && LayerParts(w, l, xs, t, merged', mid', inner', y')
    ensures y == y'
  {
    AttentionUnique(w, l, Normed(l, xs), t, merged, merged');
    assert mid == mid';
    assert inner == inner';
  }

  lemma StepUnique(w: Weights, l: Layer, xs: seq<Vec>, ys: seq<Vec>, zs: seq<Vec>)
    requires Grouped(w) && Positive(w.exp) && LayerStep(w, l, xs, ys) && LayerStep(w, l, xs, zs)
    ensures ys == zs
  {
    hide LayerParts;
    forall t: nat | t < |xs| ensures ys[t] == zs[t] {
      assert PositionStep(w, l, xs, t, ys[t]) && PositionStep(w, l, xs, t, zs[t]);
      var merged, mid, inner :| LayerParts(w, l, xs, t, merged, mid, inner, ys[t]);
      var merged', mid', inner' :| LayerParts(w, l, xs, t, merged', mid', inner', zs[t]);
      PartsUnique(w, l, xs, t, merged, mid, inner, ys[t], merged', mid', inner', zs[t]);
    }
  }

  /** The states a pass goes through. */
  lemma {:induction false} LayersMeans(w: Weights, ids: seq<nat>, n: nat) returns (states: seq<seq<Vec>>)
    requires Grouped(w) && Positive(w.exp) && n <= |w.layers|
    ensures |states| == n + 1 && states[0] == Embedded(w, ids)
    ensures forall k :: 0 <= k <= n ==> |states[k]| == |ids|
    ensures forall k: nat | k < n :: LayerStep(w, w.layers[k], states[k], states[k + 1])
    ensures states[n] == Layers(w, w.layers[..n], Embedded(w, ids), CausalMask(|ids|))
  {
    hide LayerStep, CausalMask, LayerForward;
    if n == 0 {
      states := [Embedded(w, ids)];
    } else {
      var init := LayersMeans(w, ids, n - 1);
      assert w.layers[..n][..n - 1] == w.layers[..n - 1];
      LayerMeans(w, w.layers[n - 1], init[n - 1]);
      states := init + [LayerForward(w, w.layers[n - 1], init[n - 1], CausalMask(|ids|))];
    }
  }

  lemma {:induction false} StatesUnique(w: Weights, ids: seq<nat>, a: seq<seq<Vec>>, b: seq<seq<Vec>>, k: nat)
    requires Grouped(w) && Positive(w.exp) && States(w, ids, a) && States(w, ids, b) && k <= |w.layers|
    ensures a[k] == b[k]
  {
    hide LayerStep;
    if k == 0 {
      assert a[0] == b[0];
    } else {
      StatesUnique(w, ids, a, b, k - 1);
      StepUnique(w, w.layers[k - 1], a[k - 1], a[k], b[k]);
    }
  }

  /** With a positive exponential, the forward pass is exactly what the reference
      describes: embedded tokens, a step a layer, the final norm. */
  lemma ForwardMeans(w: Weights, ids: seq<nat>, hidden: seq<Vec>)
    requires Grouped(w) && Positive(w.exp)
    ensures Computes(w, ids, hidden) <==> hidden == Forward(w, ids)
  {
    var n := |w.layers|;
    var states := LayersMeans(w, ids, n);
    assert w.layers[..n] == w.layers;
    assert States(w, ids, states);
    hide LayerStep;
    if Computes(w, ids, hidden) {
      var other :| States(w, ids, other) && |other[n]| == |ids|
        && forall t :: 0 <= t < |ids| ==> hidden[t] == w.finalNorm(other[n][t]);
      StatesUnique(w, ids, states, other, n);
      assert hidden == Forward(w, ids);
    }
  }

  // ----------------------------------------------------------- two consequences

  /** The values of the first `n` positions, unweighted. */
  function ValueSum(w: Weights, l: Layer, xs: seq<Vec>, h: nat, d: nat, n: nat): real
    requires Grouped(w)
  {
    if n == 0 then 0.0 else ValueSum(w, l, xs, h, d, n - 1) + ValueOf(w, l, xs, h, n - 1, d)
  }

  lemma {:induction false} SumsOfEqualWeights(w: Weights, l: Layer, xs: seq<Vec>, h: nat, t: nat, d: nat, n: nat,
                                              c: real)
    requires Grouped(w) && forall s: nat :: s < n ==> Weight(w, l, xs, h, t, s) == c
    ensures TotalWeight(w, l, xs, h, t, n) == Numbers.Times(n as real, c)
    ensures WeightedSum(w, l, xs, h, t, d, n) == Numbers.Times(ValueSum(w, l, xs, h, d, n), c)
  {
    hide Weight, ValueOf;
    if n > 0 {
      SumsOfEqualWeights(w, l, xs, h, t, d, n - 1, c);
      assert (n - 1) as real + 1.0 == n as real;
      var (v, last) := (ValueSum(w, l, xs, h, d, n - 1), ValueOf(w, l, xs, h, n - 1, d));
      assert Numbers.Times(v + last, c) == Numbers.Times(v, c) + Numbers.Times(c, last);
      assert Numbers.Times((n - 1) as real + 1.0, c) == Numbers.Times((n - 1) as real, c) + c;
    }
  }

  /** With equal scores, a head's component is the plain mean of the values up
      to its position. */
  lemma EqualScoresMean(w: Weights, l: Layer, xs: seq<Vec>, t: nat, h: nat, d: nat, c: real)
    requires Grouped(w) && t < |xs| && d < w.headDim && Positive(w.exp)
    requires forall s :: 0 <= s <= t ==> Scores(w, l, xs, CausalMask(|xs|), h, t)[s] == Fin(c)
    ensures |HeadOut(w, l, xs, CausalMask(|xs|), h, t)| == w.headDim
    ensures HeadOut(w, l, xs, CausalMask(|xs|), h, t)[d] == ValueSum(w, l, xs, h, d, t + 1) / (t + 1) as real
  {
    hide CausalMask, Scores, HeadOut, Weight, ValueSum, Positive;
    HeadMeans(w, l, xs, t, h, d);
    forall s: nat | s <= t ensures Weight(w, l, xs, h, t, s) == w.exp(c) {
      ScoreIsWeight(w, l, xs, h, t, s);
    }
    SumsOfEqualWeights(w, l, xs, h, t, d, t + 1, w.exp(c));
    WeightPositive(w, l, xs, h, t, 0);
    hide TotalWeight, WeightedSum;
    MeanOf(HeadOut(w, l, xs, CausalMask(|xs|), h, t)[d], ValueSum(w, l, xs, h, d, t + 1), (t + 1) as real, w.exp(c));
  }

  lemma MeanOf(a: real, sum: real, n: real, c: real)
    requires n > 0.0 && c > 0.0 && Numbers.Times(a, Numbers.Times(n, c)) == Numbers.Times(sum, c)
    ensures a == sum / n
  {
    assert Numbers.Times(a, Numbers.Times(n, c)) == Numbers.Times(Numbers.Times(a, n), c);
    SameQuotient(Numbers.Times(a, n), sum, c);
    assert sum / n * n == sum;
    SameQuotient(a, sum / n, n);
  }

  /** One layer of one head that weighs all positions alike and passes values on. */
  function PlainLayer(): Layer {
    Layer(x => x, _ => [], _ => [], x => x, x => x, x => x, x => x, _ => [], _ => [], _ => [], x => x)
  }

  function PlainWeights(): Weights {
    Weights(id => if id == 1 then [6.0, 8.0] else if id == 2 then [8.0, 6.0] else [0.0, 0.0],
            [PlainLayer()], x => x, (x, _) => x, 1, 1, 2, 1.0, _ => 1.0, x => x)
  }

  /** The state of a last token is not its own alone: two sequences with one last
      token, whose first tokens attention tells apart. */
  lemma ContextReachesLastToken()
    ensures Grouped(PlainWeights()) && Positive(PlainWeights().exp)
    ensures Forward(PlainWeights(), [1, 0])[1] == [3.0, 4.0]
    ensures Forward(PlainWeights(), [2, 0])[1] == [4.0, 3.0]
  {
    PlainForward(1, 6.0, 8.0);
    PlainForward(2, 8.0, 6.0);
  }

  lemma PlainForward(id: nat, a: real, b: real)
    requires id > 0 && PlainWeights().embed(id) == [a, b]
    ensures Forward(PlainWeights(), [id, 0])[1] == [a / 2.0, b / 2.0]
  {
    var (w, l, ids) := (PlainWeights(), PlainLayer(), [id, 0]);
    var xs: seq<Vec> := [[a, b], [0.0, 0.0]];
    var ys: seq<Vec> := [[2.0 * a, 2.0 * b], [a / 2.0, b / 2.0]];
    assert Normed(l, xs) == xs;
    PlainStep(xs, a, b);
    assert LayerStep(w, l, xs, ys);
    assert States(w, ids, [xs, ys]);
    assert Computes(w, ids, ys);
    ForwardMeans(w, ids, ys);
  }

  lemma PlainHead(xs: seq<Vec>, a: real, b: real, t: nat, merged: Vec)
    requires xs == [[a, b], [0.0, 0.0]] && t < 2
    requires merged == if t == 0 then [a, b] else [a / 2.0, b / 2.0]
    ensures IsAttention(PlainWeights(), PlainLayer(), xs, t, merged)
  {
    var (w, l) := (PlainWeights(), PlainLayer());
    forall h: nat, d: nat | h < w.nHead && d < w.headDim ensures HeadComponent(w, l, xs, t, h, d, merged) {
      SumsOfEqualWeights(w, l, xs, 0, t, d, t + 1, 1.0);
      assert ValueOf(w, l, xs, 0, 0, d) == xs[0][d] && ValueOf(w, l, xs, 0, 1, d) == 0.0;
      assert ValueSum(w, l, xs, 0, d, 1) == ValueSum(w, l, xs, 0, d, 0) + ValueOf(w, l, xs, 0, 0, d);
      assert ValueSum(w, l, xs, 0, d, 2) == ValueSum(w, l, xs, 0, d, 1) + ValueOf(w, l, xs, 0, 1, d);
      assert h * w.headDim + d == d && Component(merged, d) == xs[0][d] / (t + 1) as real;
    }
  }

  lemma PlainStep(xs: seq<Vec>, a: real, b: real)
    requires xs == [[a, b], [0.0, 0.0]]
    ensures PositionStep(PlainWeights(), PlainLayer(), xs, 0, [2.0 * a, 2.0 * b])
    ensures PositionStep(PlainWeights(), PlainLayer(), xs, 1, [a / 2.0, b / 2.0])
  {
    var (w, l) := (PlainWeights(), PlainLayer());
    assert Normed(l, xs) == xs;
    PlainHead(xs, a, b, 0, [a, b]);
    PlainHead(xs, a, b, 1, [a / 2.0, b / 2.0]);
    hide IsAttention;
    assert LayerParts(w, l, xs, 0, [a, b], [2.0 * a, 2.0 * b], [], [2.0 * a, 2.0 * b]);
    assert LayerParts(w, l, xs, 1, [a / 2.0, b / 2.0], [a / 2.0, b / 2.0], [], [a / 2.0, b / 2.0]);
  }
}
