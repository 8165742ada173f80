/** Expanding key/value heads for grouped-query attention, on the flat buffer of
    a contiguous tensor: concatenate along the sequence axis, then reshape. */
module RepeatKv {
  import opened Text
  import opened FlatIndex
  import opened CausalModel

  /** A contiguous tensor of four axes. */
  datatype Tensor4 = Tensor4(d0: nat, d1: nat, d2: nat, d3: nat, data: seq<real>)

  predicate Shaped(x: Tensor4) { |x.data| == x.d0 * x.d1 * x.d2 * x.d3 }

  function Index(x: Tensor4, a: nat, b: nat, c: nat, d: nat): nat {
    Flat(Flat(Flat(a, x.d1, b), x.d2, c), x.d3, d)
  }

  lemma IndexBound(x: Tensor4, a: nat, b: nat, c: nat, d: nat)
    requires a < x.d0 && b < x.d1 && c < x.d2 && d < x.d3
    ensures Index(x, a, b, c, d) < x.d0 * x.d1 * x.d2 * x.d3
  {
    FlatBound(a, x.d0, x.d1, b);
    FlatBound(Flat(a, x.d1, b), x.d0 * x.d1, x.d2, c);
    FlatBound(Flat(Flat(a, x.d1, b), x.d2, c), x.d0 * x.d1 * x.d2, x.d3, d);
  }

  function Element(x: Tensor4, a: nat, b: nat, c: nat, d: nat): real
    requires Shaped(x) && a < x.d0 && b < x.d1 && c < x.d2 && d < x.d3
  {
    IndexBound(x, a, b, c, d);
    x.data[Index(x, a, b, c, d)]
  }

  /** What stands at an index of `n` copies joined along the sequence axis: the
      rows of each head repeat with period `d2`. */
  function CatSource(x: Tensor4, n: nat, i: nat): nat
    requires x.d3 > 0 && n > 0 && x.d2 > 0
  {
    var row := i / x.d3;
    MultipleAtLeast(n, x.d2);
    Flat(Flat(row / (n * x.d2), x.d2, row % (n * x.d2) % x.d2), x.d3, i % x.d3)
  }

  function CatSequence(x: Tensor4, n: nat): Tensor4
    requires n > 0
  {
    Tensor4(x.d0, x.d1, n * x.d2, x.d3,
      seq(x.d0 * x.d1 * (n * x.d2) * x.d3, i requires 0 <= i =>
        if x.d3 > 0 && x.d2 > 0 then At(x.data, CatSource(x, n, i)) else 0.0))
  }

  function Reshape(x: Tensor4, d0: nat, d1: nat, d2: nat, d3: nat): Option<Tensor4> {
    if |x.data| == d0 * d1 * d2 * d3 then Some(Tensor4(d0, d1, d2, d3, x.data)) else None
  }

  /** Joining no tensors at all is an error. */
  function RepeatKv(x: Tensor4, n: nat): Option<Tensor4> {
    if n == 1 then Some(x)
    else if n == 0 then None
    else Reshape(CatSequence(x, n), x.d0, x.d1 * n, x.d2, x.d3)
  }

  lemma SizesAgree(a: nat, b: nat, n: nat, c: nat, d: nat)
    ensures a * b * (n * c) * d == a * (b * n) * c * d
  {
    assert b * (n * c) == (b * n) * c;
    assert a * b * (n * c) == a * (b * (n * c));
    assert a * ((b * n) * c) == a * (b * n) * c;
  }

  lemma RepeatKvShape(x: Tensor4, n: nat)
    requires Shaped(x) && n > 0
    ensures RepeatKv(x, n).Some? && Shaped(RepeatKv(x, n).value)
    ensures var y := RepeatKv(x, n).value; (y.d0, y.d1, y.d2, y.d3) == (x.d0, x.d1 * n, x.d2, x.d3)
  {
    SizesAgree(x.d0, x.d1, n, x.d2, x.d3);
  }

  /** The row of an expanded head, taken apart: the head it copies, which copy
      it is, and the place in the sequence. */
  lemma ExpandedRow(a: nat, heads: nat, n: nat, width: nat, h: nat, s: nat)
    requires n > 0 && s < width && h < heads * n
    ensures Flat(Flat(a, heads * n, h), width, s)
         == Flat(Flat(a, heads, h / n), n * width, Flat(h % n, width, s))
    ensures Flat(h % n, width, s) < n * width
  {
    FlatBound(h % n, n, width, s);
    var (g, r) := (h / n, h % n);
    var head := a * heads + g;
    assert a * (heads * n) + h == head * n + r by {
      assert h == g * n + r;
      assert a * (heads * n) == a * heads * n;
      assert head * n == a * heads * n + g * n;
    }
    assert (head * n + r) * width == head * (n * width) + r * width by {
      assert (head * n + r) * width == head * n * width + r * width;
      assert head * n * width == head * (n * width);
    }
  }

  lemma HeadBound(heads: nat, n: nat, h: nat)
    requires n > 0 && h < heads * n
    ensures h / n < heads
  {
  }

  /** What a place of the reshaped tensor is a copy of. */
  lemma CatSourceAt(x: Tensor4, n: nat, a: nat, h: nat, s: nat, d: nat)
    requires n > 0 && h < x.d1 * n && s < x.d2 && d < x.d3
    ensures CatSource(x, n, Flat(Flat(Flat(a, x.d1 * n, h), x.d2, s), x.d3, d)) == Index(x, a, h / n, s, d)
  {
    hide Flat;
    var row := Flat(Flat(a, x.d1 * n, h), x.d2, s);
    FlatParts(row, x.d3, d);
    ExpandedRow(a, x.d1, n, x.d2, h, s);
    FlatParts(Flat(a, x.d1, h / n), n * x.d2, Flat(h % n, x.d2, s));
    FlatParts(h % n, x.d2, s);
  }

  lemma CatElement(x: Tensor4, n: nat, i: nat)
    requires n > 0 && x.d2 > 0 && x.d3 > 0 && i < |CatSequence(x, n).data|
    ensures CatSequence(x, n).data[i] == At(x.data, CatSource(x, n, i))
  {
    hide CatSource, Flat, At;
  }

  /** Output head `h` is input head `h / n`: the copies of one head lie side by
      side, and are not tiled. */
  lemma RepeatKvInterleaves(x: Tensor4, n: nat, a: nat, h: nat, s: nat, d: nat)
    requires Shaped(x) && n > 0
    requires a < x.d0 && h < x.d1 * n && s < x.d2 && d < x.d3
    ensures RepeatKv(x, n).Some? && Shaped(RepeatKv(x, n).value)
    ensures h / n < x.d1
    ensures Element(RepeatKv(x, n).value, a, h, s, d) == Element(x, a, h / n, s, d)
  {
    hide Flat, CatSource, CatSequence;
    RepeatKvShape(x, n);
    HeadBound(x.d1, n, h);
    if n > 1 {
      var y := RepeatKv(x, n).value;
      IndexBound(y, a, h, s, d);
      IndexBound(x, a, h / n, s, d);
      CatSourceAt(x, n, a, h, s, d);
      CatElement(x, n, Index(y, a, h, s, d));
    } else {
      assert h / n == h;
    }
  }

  /** With the heads of the model, every query head has a copy of the key/value
      head it is to attend through. */
  lemma QueryHeadsPaired(w: Weights, x: Tensor4, a: nat, h: nat, s: nat, d: nat)
    requires Grouped(w) && Shaped(x) && x.d1 == w.nKvHead
    requires a < x.d0 && h < w.nHead && s < x.d2 && d < x.d3
    ensures RepeatKv(x, w.nHead / w.nKvHead).Some? && Shaped(RepeatKv(x, w.nHead / w.nKvHead).value)
    ensures RepeatKv(x, w.nHead / w.nKvHead).value.d1 == w.nHead && KvHead(w, h) < w.nKvHead
    ensures Element(RepeatKv(x, w.nHead / w.nKvHead).value, a, h, s, d) == Element(x, a, KvHead(w, h), s, d)
  {
    var n := w.nHead / w.nKvHead;
    assert w.nHead == n * w.nKvHead == w.nKvHead * n;
    assert n > 0;
    RepeatKvShape(x, n);
    RepeatKvInterleaves(x, n, a, h, s, d);
  }
}
