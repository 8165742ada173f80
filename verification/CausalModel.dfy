/** The transformer behind the embedder: masked attention over a sequence, layer
    after layer. Projections, norms and the rotary rotation are arbitrary
    functions of one position, which is all the causal argument needs. */
module CausalModel {
  import opened FlatIndex

  type Vec = seq<real>

  datatype Layer = Layer(
    attnNorm: Vec -> Vec,
    q: Vec -> Vec,
    k: Vec -> Vec,
    v: Vec -> Vec,
    o: Vec -> Vec,
    qNorm: Vec -> Vec,
    kNorm: Vec -> Vec,
    gate: Vec -> Vec,
    up: Vec -> Vec,
    down: Vec -> Vec,
    postNorm: Vec -> Vec)

  datatype Weights = Weights(
    embed: nat -> Vec,
    layers: seq<Layer>,
    finalNorm: Vec -> Vec,
    rope: (Vec, nat) -> Vec,
    nHead: nat,
    nKvHead: nat,
    headDim: nat,
    scale: real,
    exp: real -> real,
    silu: real -> real)

  /** Query heads come in equal groups, one for each key/value head. */
  predicate Grouped(w: Weights) { 0 < w.nKvHead <= w.nHead && w.nHead % w.nKvHead == 0 && 0 < w.headDim }

  /** An attention score; the mask is the source of the infinite ones. */
  datatype Score = NegInf | Fin(value: real)

  // ------------------------------------------------------------------- vectors

  function At(v: Vec, i: int): real { if 0 <= i < |v| then v[i] else 0.0 }

  function Add(a: Vec, b: Vec): Vec { seq(|a|, i => At(a, i) + At(b, i)) }

  function Sum(v: Vec): real {
    if v == [] then 0.0 else Sum(v[..|v| - 1]) + v[|v| - 1]
  }

  function Times(a: Vec, b: Vec): (r: Vec)
    ensures |r| == |a|
  {
    seq(|a|, i => At(a, i) * At(b, i))
  }

  function Dot(a: Vec, b: Vec): real { Sum(Times(a, b)) }

  /** Head `h` of a projection whose heads lie one after another. */
  function HeadSlice(v: Vec, h: nat, headDim: nat): Vec {
    seq(headDim, d => At(v, h * headDim + d))
  }

  // ----------------------------------------------------------------- attention

  /** The mask of a sequence, row after row: nothing attends to what follows it. */
  function CausalMask(n: nat): (mask: seq<Score>)
    ensures |mask| == n * n
  {
    seq(n * n, i requires 0 <= i < n * n => if n > 0 && i % n <= i / n then Fin(0.0) else NegInf)
  }

  function Masked(score: real, mask: Score): Score {
    if mask.Fin? then Fin(score + mask.value) else NegInf
  }

  function ExpOf(exp: real -> real, s: Score): real { if s.Fin? then exp(s.value) else 0.0 }

  function Exps(exp: real -> real, scores: seq<Score>): (r: Vec)
    ensures |r| == |scores|
  {
    seq(|scores|, i requires 0 <= i < |scores| => ExpOf(exp, scores[i]))
  }

  function Ratio(a: real, b: real): real { if b == 0.0 then 0.0 else a / b }

  function Softmax(exp: real -> real, scores: seq<Score>): (r: Vec)
    ensures |r| == |scores|
  {
    var e := Exps(exp, scores);
    seq(|e|, i requires 0 <= i < |e| => Ratio(e[i], Sum(e)))
  }

  /** The key/value head that a query head attends through. */
  function KvHead(w: Weights, h: nat): nat
    requires Grouped(w)
  {
    h / (w.nHead / w.nKvHead)
  }

  function Query(w: Weights, l: Layer, x: Vec, h: nat, t: nat): Vec {
    w.rope(l.qNorm(HeadSlice(l.q(x), h, w.headDim)), t)
  }

  function Key(w: Weights, l: Layer, x: Vec, h: nat, t: nat): Vec
    requires Grouped(w)
  {
    w.rope(l.kNorm(HeadSlice(l.k(x), KvHead(w, h), w.headDim)), t)
  }

  function Value(w: Weights, l: Layer, x: Vec, h: nat): Vec
    requires Grouped(w)
  {
    HeadSlice(l.v(x), KvHead(w, h), w.headDim)
  }

  /** The masked score of position `t` against position `s`. */
  function ScoreAt(w: Weights, l: Layer, xs: seq<Vec>, mask: seq<Score>, h: nat, t: nat, s: nat): Score
    requires Grouped(w) && t < |xs| && s < |xs| && |mask| == |xs| * |xs|
  {
    FlatBound(t, |xs|, |xs|, s);
    Masked(Dot(Query(w, l, xs[t], h, t), Key(w, l, xs[s], h, s)) * w.scale, mask[Flat(t, |xs|, s)])
  }

  function Scores(w: Weights, l: Layer, xs: seq<Vec>, mask: seq<Score>, h: nat, t: nat): (r: seq<Score>)
    requires Grouped(w) && t < |xs| && |mask| == |xs| * |xs|
    ensures |r| == |xs|
  {
    seq(|xs|, s requires 0 <= s < |xs| => ScoreAt(w, l, xs, mask, h, t, s))
  }

  /** Component `d` of the values of every position. */
  function Values(w: Weights, l: Layer, xs: seq<Vec>, h: nat, d: nat): (r: Vec)
    requires Grouped(w)
    ensures |r| == |xs|
  {
    seq(|xs|, s requires 0 <= s < |xs| => At(Value(w, l, xs[s], h), d))
  }

  function HeadOut(w: Weights, l: Layer, xs: seq<Vec>, mask: seq<Score>, h: nat, t: nat): Vec
    requires Grouped(w) && t < |xs| && |mask| == |xs| * |xs|
  {
    var probs := Softmax(w.exp, Scores(w, l, xs, mask, h, t));
    seq(w.headDim, d requires 0 <= d => Dot(probs, Values(w, l, xs, h, d)))
  }

  /** The heads of position `t` merged and projected. */
  function Attend(w: Weights, l: Layer, xs: seq<Vec>, mask: seq<Score>, t: nat): Vec
    requires Grouped(w) && t < |xs| && |mask| == |xs| * |xs|
  {
    l.o(Merged(w, l, xs, mask, t))
  }

  function Merged(w: Weights, l: Layer, xs: seq<Vec>, mask: seq<Score>, t: nat): (r: Vec)
    requires Grouped(w) && t < |xs| && |mask| == |xs| * |xs|
    ensures |r| == w.nHead * w.headDim
  {
    seq(w.nHead * w.headDim, i requires 0 <= i =>
      At(HeadOut(w, l, xs, mask, i / w.headDim, t), i % w.headDim))
  }

  // --------------------------------------------------------------------- layers

  function Mlp(w: Weights, l: Layer, x: Vec): Vec {
    var gate := l.gate(x);
    l.down(Times(seq(|gate|, i requires 0 <= i < |gate| => w.silu(gate[i])), l.up(x)))
  }

  function Map(f: Vec -> Vec, xs: seq<Vec>): (r: seq<Vec>)
    ensures |r| == |xs|
  {
    seq(|xs|, i requires 0 <= i < |xs| => f(xs[i]))
  }

  function LayerAt(w: Weights, l: Layer, xs: seq<Vec>, mask: seq<Score>, t: nat): Vec
    requires Grouped(w) && t < |xs| && |mask| == |xs| * |xs|
  {
    var x := Add(xs[t], Attend(w, l, Map(l.attnNorm, xs), mask, t));
    Add(x, Mlp(w, l, l.postNorm(x)))
  }

  function LayerForward(w: Weights, l: Layer, xs: seq<Vec>, mask: seq<Score>): (r: seq<Vec>)
    requires Grouped(w) && |mask| == |xs| * |xs|
    ensures |r| == |xs|
  {
    seq(|xs|, t requires 0 <= t < |xs| => LayerAt(w, l, xs, mask, t))
  }

  function Layers(w: Weights, layers: seq<Layer>, xs: seq<Vec>, mask: seq<Score>): (r: seq<Vec>)
    requires Grouped(w) && |mask| == |xs| * |xs|
    ensures |r| == |xs|
  {
    if layers == [] then xs
    else LayerForward(w, layers[|layers| - 1], Layers(w, layers[..|layers| - 1], xs, mask), mask)
  }

  function Embedded(w: Weights, ids: seq<nat>): (xs: seq<Vec>)
    ensures |xs| == |ids| && forall i :: 0 <= i < |ids| ==> xs[i] == w.embed(ids[i])
  {
    seq(|ids|, i requires 0 <= i < |ids| => w.embed(ids[i]))
  }

  /** The forward pass of one sequence of token ids: a hidden state for each. */
  function Forward(w: Weights, ids: seq<nat>): (r: seq<Vec>)
    requires Grouped(w)
    ensures |r| == |ids|
  {
    Map(w.finalNorm, Layers(w, w.layers, Embedded(w, ids), CausalMask(|ids|)))
  }

  // ------------------------------------------------------- why padding is inert

  lemma MaskAt(n: nat, t: nat, s: nat)
    requires t < n && s < n
    ensures Flat(t, n, s) < n * n
    ensures CausalMask(n)[Flat(t, n, s)] == if s <= t then Fin(0.0) else NegInf
  {
    FlatBound(t, n, n, s);
    FlatParts(t, n, s);
  }

  lemma {:induction false} SumZeros(a: Vec, b: Vec)
    requires forall i :: 0 <= i < |b| ==> b[i] == 0.0
    ensures Sum(a + b) == Sum(a)
  {
    if b == [] {
      assert a + b == a;
    } else {
      assert (a + b)[..|a + b| - 1] == a + b[..|b| - 1];
      SumZeros(a, b[..|b| - 1]);
    }
  }

  /** The scores of a position are those against its own prefix, and then
      nothing but minus infinity. */
  lemma ScoresOfPrefix(w: Weights, l: Layer, xs: seq<Vec>, n: nat, h: nat, t: nat)
    requires Grouped(w) && t < n <= |xs|
    ensures Scores(w, l, xs, CausalMask(|xs|), h, t)[..n] == Scores(w, l, xs[..n], CausalMask(n), h, t)
    ensures forall s :: n <= s < |xs| ==> Scores(w, l, xs, CausalMask(|xs|), h, t)[s] == NegInf
  {
    hide CausalMask, Flat, Dot, Query, Key;
    var whole := Scores(w, l, xs, CausalMask(|xs|), h, t);
    var part := Scores(w, l, xs[..n], CausalMask(n), h, t);
    forall s | 0 <= s < |xs| ensures whole[s] == if s < n then part[s] else NegInf {
      MaskAt(|xs|, t, s);
      if s < n {
        MaskAt(n, t, s);
        assert xs[..n][t] == xs[t] && xs[..n][s] == xs[s];
      }
    }
  }

  /** Scores of minus infinity take no weight and leave the other weights alone. */
  lemma SoftmaxOfPrefix(exp: real -> real, scores: seq<Score>, n: nat)
    requires n <= |scores| && forall s :: n <= s < |scores| ==> scores[s] == NegInf
    ensures Softmax(exp, scores)[..n] == Softmax(exp, scores[..n])
    ensures forall s :: n <= s < |scores| ==> Softmax(exp, scores)[s] == 0.0
  {
    var e := Exps(exp, scores);
    assert e == e[..n] + e[n..];
    SumZeros(e[..n], e[n..]);
    assert e[..n] == Exps(exp, scores[..n]);
  }

  lemma DotOfPrefix(a: Vec, b: Vec, n: nat)
    requires |a| == |b| && n <= |a| && forall i :: n <= i < |a| ==> a[i] == 0.0
    ensures Dot(a, b) == Dot(a[..n], b[..n])
  {
    var p := Times(a, b);
    assert p == p[..n] + p[n..];
    assert forall i :: 0 <= i < |p[n..]| ==> p[n..][i] == a[n + i] * b[n + i] == 0.0;
    SumZeros(p[..n], p[n..]);
    forall i | 0 <= i < n ensures p[..n][i] == Times(a[..n], b[..n])[i] {
      assert At(a[..n], i) == At(a, i) && At(b[..n], i) == At(b, i);
    }
    assert p[..n] == Times(a[..n], b[..n]);
  }

  lemma HeadOutOfPrefix(w: Weights, l: Layer, xs: seq<Vec>, n: nat, h: nat, t: nat)
    requires Grouped(w) && t < n <= |xs|
    ensures HeadOut(w, l, xs, CausalMask(|xs|), h, t) == HeadOut(w, l, xs[..n], CausalMask(n), h, t)
  {
    var scores := Scores(w, l, xs, CausalMask(|xs|), h, t);
    ScoresOfPrefix(w, l, xs, n, h, t);
    SoftmaxOfPrefix(w.exp, scores, n);
    var probs := Softmax(w.exp, scores);
    forall d: nat | d < w.headDim
      ensures Dot(probs, Values(w, l, xs, h, d)) == Dot(probs[..n], Values(w, l, xs[..n], h, d))
    {
      DotOfPrefix(probs, Values(w, l, xs, h, d), n);
      assert Values(w, l, xs, h, d)[..n] == Values(w, l, xs[..n], h, d);
    }
  }

  lemma AttendOfPrefix(w: Weights, l: Layer, xs: seq<Vec>, n: nat, t: nat)
    requires Grouped(w) && t < n <= |xs|
    ensures Attend(w, l, xs, CausalMask(|xs|), t) == Attend(w, l, xs[..n], CausalMask(n), t)
  {
    var (whole, part) := (Merged(w, l, xs, CausalMask(|xs|), t), Merged(w, l, xs[..n], CausalMask(n), t));
    hide HeadOut, CausalMask;
    forall i | 0 <= i < |whole| ensures whole[i] == part[i] {
      HeadOutOfPrefix(w, l, xs, n, i / w.headDim, t);
    }
    assert whole == part;
  }

  lemma LayerOfPrefix(w: Weights, l: Layer, xs: seq<Vec>, n: nat)
    requires Grouped(w) && n <= |xs|
    ensures LayerForward(w, l, xs, CausalMask(|xs|))[..n] == LayerForward(w, l, xs[..n], CausalMask(n))
  {
    assert Map(l.attnNorm, xs)[..n] == Map(l.attnNorm, xs[..n]);
    forall t | 0 <= t < n
      ensures LayerAt(w, l, xs, CausalMask(|xs|), t) == LayerAt(w, l, xs[..n], CausalMask(n), t)
    {
      AttendOfPrefix(w, l, Map(l.attnNorm, xs), n, t);
    }
  }

  lemma {:induction false} LayersOfPrefix(w: Weights, layers: seq<Layer>, xs: seq<Vec>, n: nat)
    requires Grouped(w) && n <= |xs|
    ensures Layers(w, layers, xs, CausalMask(|xs|))[..n] == Layers(w, layers, xs[..n], CausalMask(n))
  {
    if layers != [] {
      var init := layers[..|layers| - 1];
      LayersOfPrefix(w, init, xs, n);
      LayerOfPrefix(w, layers[|layers| - 1], Layers(w, init, xs, CausalMask(|xs|)), n);
    }
  }

  /** The hidden state of a position depends on the tokens up to it and on no
      others: cutting a sequence short, or padding it, changes nothing before
      the cut. */
  lemma ForwardOfPrefix(w: Weights, ids: seq<nat>, n: nat)
    requires Grouped(w) && n <= |ids|
    ensures Forward(w, ids)[..n] == Forward(w, ids[..n])
  {
    var xs := Embedded(w, ids);
    assert xs[..n] == Embedded(w, ids[..n]);
    LayersOfPrefix(w, w.layers, xs, n);
  }

  /** Right padding never reaches the last real token. */
  lemma PaddingInert(w: Weights, ids: seq<nat>, padding: seq<nat>)
    requires Grouped(w) && ids != []
    ensures Forward(w, ids + padding)[|ids| - 1] == Forward(w, ids)[|ids| - 1]
  {
    ForwardOfPrefix(w, ids + padding, |ids|);
    assert (ids + padding)[..|ids|] == ids;
    assert Forward(w, ids + padding)[..|ids|][|ids| - 1] == Forward(w, ids + padding)[|ids| - 1];
  }
}
