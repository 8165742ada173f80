/** The forward pass of a padded batch: one pass over the positions of all rows,
    which lie one after another, under one mask for every row. */
module BatchModel {
  import opened FlatIndex
  import opened CausalModel

  /** Whether a flat buffer holds `b` rows of `n` positions. */
  predicate Rows(xs: seq<Vec>, b: nat, n: nat) { |xs| == b * n }

  /** The masked score of two positions of one row. */
  function BatchScoreAt(w: Weights, l: Layer, xs: seq<Vec>, b: nat, n: nat, mask: seq<Score>,
                        h: nat, row: nat, t: nat, s: nat): Score
    requires Grouped(w) && Rows(xs, b, n) && row < b && t < n && s < n && |mask| == n * n
  {
    FlatBound(row, b, n, t);
    FlatBound(row, b, n, s);
    FlatBound(t, n, n, s);
    Masked(Dot(Query(w, l, xs[Flat(row, n, t)], h, t), Key(w, l, xs[Flat(row, n, s)], h, s)) * w.scale,
           mask[Flat(t, n, s)])
  }

  function BatchScores(w: Weights, l: Layer, xs: seq<Vec>, b: nat, n: nat, mask: seq<Score>,
                       h: nat, row: nat, t: nat): (r: seq<Score>)
    requires Grouped(w) && Rows(xs, b, n) && row < b && t < n && |mask| == n * n
    ensures |r| == n
  {
    seq(n, s requires 0 <= s < n => BatchScoreAt(w, l, xs, b, n, mask, h, row, t, s))
  }

  function ValueAt(w: Weights, l: Layer, xs: seq<Vec>, b: nat, n: nat, h: nat, d: nat, row: nat, s: nat): real
    requires Grouped(w) && Rows(xs, b, n) && row < b && s < n
  {
    FlatBound(row, b, n, s);
    At(Value(w, l, xs[Flat(row, n, s)], h), d)
  }

  function BatchValues(w: Weights, l: Layer, xs: seq<Vec>, b: nat, n: nat, h: nat, d: nat, row: nat): (r: Vec)
    requires Grouped(w) && Rows(xs, b, n) && row < b
    ensures |r| == n
  {
    seq(n, s requires 0 <= s < n => ValueAt(w, l, xs, b, n, h, d, row, s))
  }

  function BatchHeadOut(w: Weights, l: Layer, xs: seq<Vec>, b: nat, n: nat, mask: seq<Score>,
                        h: nat, row: nat, t: nat): Vec
    requires Grouped(w) && Rows(xs, b, n) && row < b && t < n && |mask| == n * n
  {
    var probs := Softmax(w.exp, BatchScores(w, l, xs, b, n, mask, h, row, t));
    seq(w.headDim, d requires 0 <= d => Dot(probs, BatchValues(w, l, xs, b, n, h, d, row)))
  }

  function BatchMerged(w: Weights, l: Layer, xs: seq<Vec>, b: nat, n: nat, mask: seq<Score>,
                       row: nat, t: nat): (r: Vec)
    requires Grouped(w) && Rows(xs, b, n) && row < b && t < n && |mask| == n * n
    ensures |r| == w.nHead * w.headDim
  {
    seq(w.nHead * w.headDim, i requires 0 <= i =>
      At(BatchHeadOut(w, l, xs, b, n, mask, i / w.headDim, row, t), i % w.headDim))
  }

  /** A layer at position `t` of a row. */
  function BatchLayerAt(w: Weights, l: Layer, xs: seq<Vec>, b: nat, n: nat, mask: seq<Score>, row: nat, t: nat): Vec
    requires Grouped(w) && Rows(xs, b, n) && row < b && t < n && |mask| == n * n
  {
    FlatBound(row, b, n, t);
    var x := Add(xs[Flat(row, n, t)], l.o(BatchMerged(w, l, Map(l.attnNorm, xs), b, n, mask, row, t)));
    Add(x, Mlp(w, l, l.postNorm(x)))
  }

  function BatchLayer(w: Weights, l: Layer, xs: seq<Vec>, b: nat, n: nat, mask: seq<Score>): (r: seq<Vec>)
    requires Grouped(w) && Rows(xs, b, n) && |mask| == n * n
    ensures Rows(r, b, n)
  {
    seq(|xs|, p requires 0 <= p < |xs| =>
      RowOfPlace(p, b, n);
      BatchLayerAt(w, l, xs, b, n, mask, p / n, p % n))
  }

  function BatchLayers(w: Weights, layers: seq<Layer>, xs: seq<Vec>, b: nat, n: nat, mask: seq<Score>): (r: seq<Vec>)
    requires Grouped(w) && Rows(xs, b, n) && |mask| == n * n
    ensures Rows(r, b, n)
  {
    if layers == [] then xs
    else BatchLayer(w, layers[|layers| - 1], BatchLayers(w, layers[..|layers| - 1], xs, b, n, mask), b, n, mask)
  }

  /** The pass over a padded buffer of token ids: a hidden state for each place. */
  function BatchForward(w: Weights, flat: seq<nat>, b: nat, n: nat): (r: seq<Vec>)
    requires Grouped(w) && |flat| == b * n
    ensures Rows(r, b, n)
  {
    Map(w.finalNorm, BatchLayers(w, w.layers, Embedded(w, flat), b, n, CausalMask(n)))
  }

  lemma RowOfPlace(p: nat, b: nat, n: nat)
    requires p < b * n
    ensures n > 0 && p / n < b && p % n < n
  {
  }

  // -------------------------------------------------- why rows do not see each other

  function Row<T>(xs: seq<T>, n: nat, row: nat): (r: seq<T>)
    requires row * n <= row * n + n <= |xs|
    ensures |r| == n && forall t :: 0 <= t < n ==> r[t] == xs[row * n + t]
  {
    xs[row * n..row * n + n]
  }

  lemma RowFits(b: nat, row: nat, n: nat)
    requires row < b
    ensures row * n <= row * n + n <= b * n
  {
    Distribute(b, row, n);
    MultipleAtLeast(b - row, n);
  }

  lemma ScoresOfRow(w: Weights, l: Layer, xs: seq<Vec>, b: nat, n: nat, mask: seq<Score>, h: nat, row: nat, t: nat)
    requires Grouped(w) && Rows(xs, b, n) && row < b && t < n && |mask| == n * n
    ensures row * n <= row * n + n <= |xs|
    ensures BatchScores(w, l, xs, b, n, mask, h, row, t) == Scores(w, l, Row(xs, n, row), mask, h, t)
  {
    RowFits(b, row, n);
    var alone := Row(xs, n, row);
    hide Dot, Query, Key, Row;
    forall s: nat | s < n
      ensures BatchScoreAt(w, l, xs, b, n, mask, h, row, t, s) == ScoreAt(w, l, alone, mask, h, t, s)
    {
      assert alone[t] == xs[Flat(row, n, t)] && alone[s] == xs[Flat(row, n, s)];
    }
  }

  lemma ValuesOfRow(w: Weights, l: Layer, xs: seq<Vec>, b: nat, n: nat, h: nat, d: nat, row: nat)
    requires Grouped(w) && Rows(xs, b, n) && row < b
    ensures row * n <= row * n + n <= |xs|
    ensures BatchValues(w, l, xs, b, n, h, d, row) == Values(w, l, Row(xs, n, row), h, d)
  {
    RowFits(b, row, n);
    hide Value, Row;
  }

  lemma HeadOutOfRow(w: Weights, l: Layer, xs: seq<Vec>, b: nat, n: nat, mask: seq<Score>, h: nat, row: nat, t: nat)
    requires Grouped(w) && Rows(xs, b, n) && row < b && t < n && |mask| == n * n
    ensures row * n <= row * n + n <= |xs|
    ensures BatchHeadOut(w, l, xs, b, n, mask, h, row, t) == HeadOut(w, l, Row(xs, n, row), mask, h, t)
  {
    ScoresOfRow(w, l, xs, b, n, mask, h, row, t);
    forall d: nat | d < w.headDim
      ensures BatchValues(w, l, xs, b, n, h, d, row) == Values(w, l, Row(xs, n, row), h, d)
    {
      ValuesOfRow(w, l, xs, b, n, h, d, row);
    }
    hide BatchScores, Scores, BatchValues, Values, Row, Softmax, Dot;
  }

  lemma MergedOfRow(w: Weights, l: Layer, xs: seq<Vec>, b: nat, n: nat, mask: seq<Score>, row: nat, t: nat)
    requires Grouped(w) && Rows(xs, b, n) && row < b && t < n && |mask| == n * n
    ensures row * n <= row * n + n <= |xs|
    ensures BatchMerged(w, l, xs, b, n, mask, row, t) == Merged(w, l, Row(xs, n, row), mask, t)
  {
    RowFits(b, row, n);
    hide BatchHeadOut, HeadOut, Row;
    var (whole, alone) := (BatchMerged(w, l, xs, b, n, mask, row, t), Merged(w, l, Row(xs, n, row), mask, t));
    forall i | 0 <= i < |whole| ensures whole[i] == alone[i] {
      HeadOutOfRow(w, l, xs, b, n, mask, i / w.headDim, row, t);
    }
    assert whole == alone;
  }

  /** A layer leaves in a row what it leaves in that row alone. */
  lemma LayerOfRow(w: Weights, l: Layer, xs: seq<Vec>, b: nat, n: nat, mask: seq<Score>, row: nat)
    requires Grouped(w) && Rows(xs, b, n) && row < b && |mask| == n * n
    ensures row * n <= row * n + n <= |xs|
    ensures Row(BatchLayer(w, l, xs, b, n, mask), n, row) == LayerForward(w, l, Row(xs, n, row), mask)
  {
    RowFits(b, row, n);
    var (whole, alone) := (Row(BatchLayer(w, l, xs, b, n, mask), n, row), Row(xs, n, row));
    assert Row(Map(l.attnNorm, xs), n, row) == Map(l.attnNorm, alone);
    forall t: nat | t < n ensures whole[t] == LayerAt(w, l, alone, mask, t) {
      FlatBound(row, b, n, t);
      FlatParts(row, n, t);
      PlaceOfLayer(w, l, xs, b, n, mask, row, t);
      MergedOfRow(w, l, Map(l.attnNorm, xs), b, n, mask, row, t);
      hide BatchMerged, Merged, Mlp, Add, Row, Map;
      assert alone[t] == xs[Flat(row, n, t)];
    }
  }

  lemma PlaceOfLayer(w: Weights, l: Layer, xs: seq<Vec>, b: nat, n: nat, mask: seq<Score>, row: nat, t: nat)
    requires Grouped(w) && Rows(xs, b, n) && row < b && t < n && |mask| == n * n
    ensures Flat(row, n, t) < |xs|
    ensures BatchLayer(w, l, xs, b, n, mask)[Flat(row, n, t)] == BatchLayerAt(w, l, xs, b, n, mask, row, t)
  {
    FlatBound(row, b, n, t);
    FlatParts(row, n, t);
    hide BatchLayerAt;
  }

  lemma {:induction false} LayersOfRow(w: Weights, layers: seq<Layer>, xs: seq<Vec>, b: nat, n: nat,
      mask: seq<Score>, row: nat)
    requires Grouped(w) && Rows(xs, b, n) && row < b && |mask| == n * n
    ensures row * n <= row * n + n <= |xs|
    ensures Row(BatchLayers(w, layers, xs, b, n, mask), n, row) == Layers(w, layers, Row(xs, n, row), mask)
  {
    RowFits(b, row, n);
    hide LayerForward, BatchLayer, Row;
    if layers != [] {
      var init := layers[..|layers| - 1];
      LayersOfRow(w, init, xs, b, n, mask, row);
      LayerOfRow(w, layers[|layers| - 1], BatchLayers(w, init, xs, b, n, mask), b, n, mask, row);
    }
  }

  /** The batched pass gives every row the hidden states it gets on its own. */
  lemma ForwardOfRow(w: Weights, flat: seq<nat>, b: nat, n: nat, row: nat)
    requires Grouped(w) && |flat| == b * n && row < b
    ensures row * n <= row * n + n <= |flat|
    ensures Row(BatchForward(w, flat, b, n), n, row) == Forward(w, Row(flat, n, row))
  {
    RowFits(b, row, n);
    var xs := Embedded(w, flat);
    LayersOfRow(w, w.layers, xs, b, n, CausalMask(n), row);
    assert Row(xs, n, row) == Embedded(w, Row(flat, n, row));
    var hidden := BatchLayers(w, w.layers, xs, b, n, CausalMask(n));
    hide Layers, BatchLayers, CausalMask;
    assert Row(Map(w.finalNorm, hidden), n, row) == Map(w.finalNorm, Row(hidden, n, row));
  }
}
