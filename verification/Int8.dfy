/** The byte encodings of embedding vectors: the full-precision blob, and the
    int8 quantisation with what it does to distances. */
module Int8 {
  import opened Numbers

  type Byte = b: nat | b < 256

  // -------------------------------------------------------- full-precision blobs

  /** The bit pattern of a 32-bit float. */
  type Word = w: nat | w < 0x1_0000_0000

  function LittleEndian(w: Word): seq<Byte> {
    [w % 256, w / 256 % 256, w / 256 / 256 % 256, w / 256 / 256 / 256]
  }

  function FromLittleEndian(b: seq<Byte>): Word
    requires |b| == 4
  {
    var (b0: nat, b1: nat, b2: nat, b3: nat) := (b[0], b[1], b[2], b[3]);
    b0 + 256 * (b1 + 256 * (b2 + 256 * b3))
  }

  function VecToBlob(v: seq<Word>): seq<Byte> {
    if v == [] then [] else LittleEndian(v[0]) + VecToBlob(v[1..])
  }

  /** Whole groups of four bytes only; a shorter remainder is dropped. */
  function BlobToVec(b: seq<Byte>): seq<Word> {
    if |b| < 4 then [] else [FromLittleEndian(b[..4])] + BlobToVec(b[4..])
  }

  lemma LittleEndianInverse(w: Word, b: seq<Byte>)
    requires |b| == 4
    ensures FromLittleEndian(LittleEndian(w)) == w
    ensures LittleEndian(FromLittleEndian(b)) == b
  {
    var (b0: nat, b1: nat, b2: nat, b3: nat) := (b[0], b[1], b[2], b[3]);
    var q := FromLittleEndian(b);
    assert q % 256 == b0 && q / 256 == b1 + 256 * (b2 + 256 * b3);
    assert q / 256 % 256 == b1 && q / 256 / 256 == b2 + 256 * b3;
    assert q / 256 / 256 % 256 == b2 && q / 256 / 256 / 256 == b3;
  }

  /** Every vector reads back bit for bit, also before an incomplete tail. */
  lemma {:induction false} BlobRoundTrip(v: seq<Word>, tail: seq<Byte>)
    requires |tail| < 4
    ensures |VecToBlob(v)| == 4 * |v|
    ensures BlobToVec(VecToBlob(v) + tail) == v
  {
    if v == [] {
      assert VecToBlob(v) + tail == tail;
    } else {
      BlobRoundTrip(v[1..], tail);
      var b := LittleEndian(v[0]);
      assert VecToBlob(v) + tail == b + (VecToBlob(v[1..]) + tail);
      assert (b + (VecToBlob(v[1..]) + tail))[..4] == b;
      LittleEndianInverse(v[0], b);
    }
  }

  /** The bytes of component `i` lie at `4 * i` and on, the least significant first. */
  lemma {:induction false} BlobBytes(v: seq<Word>, i: nat)
    requires i < |v|
    ensures |VecToBlob(v)| == 4 * |v|
    ensures VecToBlob(v)[4 * i] == v[i] % 256
    ensures VecToBlob(v)[4 * i + 1] == v[i] / 0x100 % 256
    ensures VecToBlob(v)[4 * i + 2] == v[i] / 0x1_0000 % 256
    ensures VecToBlob(v)[4 * i + 3] == v[i] / 0x100_0000
  {
    BlobRoundTrip(v, []);
    var b := VecToBlob(v);
    assert b[..4] == LittleEndian(v[0]) && b[4..] == VecToBlob(v[1..]);
    if i == 0 {
      BytesOfWord(v[0]);
      hide LittleEndian;
      assert b[0] == b[..4][0] && b[1] == b[..4][1] && b[2] == b[..4][2] && b[3] == b[..4][3];
    } else {
      BlobBytes(v[1..], i - 1);
      hide LittleEndian;
      var rest := b[4..];
      assert b[4 * i] == rest[4 * (i - 1)] && b[4 * i + 1] == rest[4 * (i - 1) + 1];
      assert b[4 * i + 2] == rest[4 * (i - 1) + 2] && b[4 * i + 3] == rest[4 * (i - 1) + 3];
    }
  }

  lemma BytesOfWord(w: Word)
    ensures LittleEndian(w)[0] == w % 256 && LittleEndian(w)[1] == w / 0x100 % 256
    ensures LittleEndian(w)[2] == w / 0x1_0000 % 256 && LittleEndian(w)[3] == w / 0x100_0000
  {
  }

  /** Every blob writes back except for the bytes of an incomplete last group. */
  lemma {:induction false} VectorRoundTrip(b: seq<Byte>)
    ensures VecToBlob(BlobToVec(b)) == b[..|b| - |b| % 4]
    decreases |b|
  {
    if |b| >= 4 {
      VectorRoundTrip(b[4..]);
      LittleEndianInverse(0, b[..4]);
      assert |b[4..]| % 4 == |b| % 4;
      assert b[..|b| - |b| % 4] == b[..4] + b[4..][..|b[4..]| - |b| % 4];
      var v := BlobToVec(b);
      assert v[0] == FromLittleEndian(b[..4]) && v[1..] == BlobToVec(b[4..]);
    }
  }

  // ---------------------------------------------------------------- quantisation

  const INT8_SCALE := 127.0

  /** The nearest integer, halves away from zero. */
  function Round(x: real): int {
    if x >= 0.0 then (x + 0.5).Floor else -((-x + 0.5).Floor)
  }

  function Quantise(x: real): int {
    var r := Round(x * 127.0);
    if r < -127 then -127 else if r > 127 then 127 else r
  }

  /** A byte that stores a signed number in two's complement. */
  function ToByte(q: int): Byte
    requires -128 <= q < 128
  {
    if q >= 0 then q else q + 256
  }

  function Signed(b: Byte): int { if b < 128 then b else b - 256 }

  function VecToInt8Blob(v: seq<real>): (b: seq<Byte>)
    ensures |b| == |v|
    ensures forall i :: 0 <= i < |v| ==> Signed(b[i]) == Quantise(v[i])
  {
    seq(|v|, i requires 0 <= i < |v| => ToByte(Quantise(v[i])))
  }

  lemma RoundNearest(x: real)
    ensures Abs(Round(x) as real - x) <= 0.5
    ensures Abs(Round(x) as real - x) == 0.5 ==> Abs(Round(x) as real) > Abs(x)
    ensures Round(-x) == -Round(x)
  {
  }

  /** Quantisation keeps order and sign; on `[-1, 1]` it never clamps and errs by
      at most half a step. */
  lemma QuantiseFaithful(x: real, y: real)
    ensures x <= y ==> Quantise(x) <= Quantise(y)
    ensures Quantise(-x) == -Quantise(x)
    ensures -1.0 <= x <= 1.0 ==> Abs(Quantise(x) as real - 127.0 * x) <= 0.5
    ensures x >= 1.0 ==> Quantise(x) == 127
    ensures x <= -1.0 ==> Quantise(x) == -127
  {
    RoundNearest(x * 127.0);
    assert (-x) * 127.0 == -(x * 127.0);
  }

  // ------------------------------------------------------------------- distances

  function Inner(a: seq<real>, b: seq<real>): real
    requires |a| == |b|
  {
    if a == [] then 0.0
    else Inner(a[..|a| - 1], b[..|a| - 1]) + Times(a[|a| - 1], b[|a| - 1])
  }

  function Difference(a: seq<real>, b: seq<real>): (d: seq<real>)
    requires |a| == |b|
    ensures |d| == |a| && forall i :: 0 <= i < |a| ==> d[i] == a[i] - b[i]
  {
    seq(|a|, i requires 0 <= i < |a| => a[i] - b[i])
  }

  /** The components that a distance over int8 bytes sees. */
  function Components(b: seq<Byte>): (c: seq<real>)
    ensures |c| == |b| && forall i :: 0 <= i < |b| ==> c[i] == Signed(b[i]) as real
  {
    seq(|b|, i requires 0 <= i < |b| => Signed(b[i]) as real)
  }

  /** Whether `d` is the Euclidean distance of two vectors. */
  predicate IsDistance(d: real, a: seq<real>, b: seq<real>)
    requires |a| == |b|
  {
    d >= 0.0 && Squared(d) == Inner(Difference(a, b), Difference(a, b))
  }

  predicate Unital(v: seq<real>) { forall i :: 0 <= i < |v| ==> -1.0 <= v[i] <= 1.0 }

  predicate IsSquareRoot(s: real, n: nat) { s >= 0.0 && Squared(s) == n as real }

  function Cross(s: real, t: real, a: real, b: real): real { s * a - t * b }

  /** The squares of `s * a[i] - t * b[i]`, summed. */
  function Gap(a: seq<real>, b: seq<real>, s: real, t: real): (g: real)
    requires |a| == |b|
    ensures g >= 0.0
  {
    if a == [] then 0.0
    else
      var n := |a| - 1;
      Gap(a[..n], b[..n], s, t) + Squared(Cross(s, t, a[n], b[n]))
  }

  /** The coefficients of the expanded squares. */
  function Expanded(s: real, t: real, aa: real, ab: real, bb: real): real {
    s * s * aa - 2.0 * (s * t) * ab + t * t * bb
  }

  lemma {:induction false} GapExpands(a: seq<real>, b: seq<real>, s: real, t: real)
    requires |a| == |b|
    ensures Gap(a, b, s, t) == Expanded(s, t, Inner(a, a), Inner(a, b), Inner(b, b))
  {
    if a == [] {
      assert Expanded(s, t, 0.0, 0.0, 0.0) == 0.0;
    } else {
      var n := |a| - 1;
      GapExpands(a[..n], b[..n], s, t);
      ExpandedStep(a[n], b[n], s, t, Inner(a[..n], a[..n]), Inner(a[..n], b[..n]), Inner(b[..n], b[..n]));
      hide Expanded, Times, Squared, Cross;
      assert Gap(a, b, s, t) == Gap(a[..n], b[..n], s, t) + Squared(Cross(s, t, a[n], b[n]));
      assert Inner(a, a) == Inner(a[..n], a[..n]) + Times(a[n], a[n]);
      assert Inner(a, b) == Inner(a[..n], b[..n]) + Times(a[n], b[n]);
      assert Inner(b, b) == Inner(b[..n], b[..n]) + Times(b[n], b[n]);
    }
  }

  lemma ExpandedStep(a: real, b: real, s: real, t: real, aa: real, ab: real, bb: real)
    ensures Expanded(s, t, aa + Times(a, a), ab + Times(a, b), bb + Times(b, b)) ==
      Expanded(s, t, aa, ab, bb) + Squared(Cross(s, t, a, b))
  {
  }

  lemma {:induction false} NoNormNoProduct(a: seq<real>, b: seq<real>)
    requires |a| == |b| && Inner(b, b) <= 0.0
    ensures Inner(a, b) == Inner(b, a) == 0.0
  {
    if a != [] {
      var n := |a| - 1;
      assert Times(b[n], b[n]) == Squared(b[n]) >= 0.0;
      InnerNonNegative(b[..n]);
      NoNormNoProduct(a[..n], b[..n]);
    }
  }

  lemma {:induction false} InnerNonNegative(a: seq<real>)
    ensures Inner(a, a) >= 0.0
  {
    if a != [] {
      var n := |a| - 1;
      InnerNonNegative(a[..n]);
      assert Times(a[n], a[n]) == Squared(a[n]) >= 0.0;
    }
  }

  /** The Cauchy-Schwarz inequality, with a bound in place of one norm. */
  lemma CauchySchwarz(a: seq<real>, b: seq<real>, normA: real, s: real)
    requires |a| == |b| && normA >= 0.0 && s >= 0.0
    requires Squared(normA) == Inner(a, a) && Inner(b, b) <= Squared(s)
    ensures Inner(a, b) <= Times(normA, s)
  {
    hide Squared, Inner, Times;
    if normA == 0.0 || s == 0.0 {
      NoProductAtZero(a, b, normA, s);
    } else {
      GapExpands(a, b, s, normA);
      Discriminant(normA, s, Inner(a, b), Inner(b, b));
    }
  }

  lemma NoProductAtZero(a: seq<real>, b: seq<real>, normA: real, s: real)
    requires |a| == |b| && (normA == 0.0 || s == 0.0)
    requires Squared(normA) == Inner(a, a) && Inner(b, b) <= Squared(s)
    ensures Inner(a, b) == 0.0
  {
    if s == 0.0 {
      NoNormNoProduct(a, b);
    } else {
      NoNormNoProduct(b, a);
    }
  }

  lemma Discriminant(t: real, s: real, ab: real, bb: real)
    requires t > 0.0 && s > 0.0 && bb <= Squared(s)
    requires Expanded(s, t, Squared(t), ab, bb) >= 0.0
    ensures ab <= Times(t, s)
  {
    var p := Times(t, s);
    assert p > 0.0;
    AtMostTimes(t * t, bb, Squared(s));
    assert Expanded(s, t, Squared(t), ab, Squared(s)) == 2.0 * Times(p, p - ab);
    assert Expanded(s, t, Squared(t), ab, bb) <= Expanded(s, t, Squared(t), ab, Squared(s));
    hide Times, Squared, Expanded;
    if ab > p {
      SignOfTimes(p, p - ab);
    }
  }

  lemma AtMostTimes(x: real, y: real, z: real)
    requires x >= 0.0 && y <= z
    ensures x * y <= x * z
  {
  }

  lemma SignOfTimes(x: real, y: real)
    requires x > 0.0 && y < 0.0
    ensures Times(x, y) < 0.0
  {
    assert Times(x, y) == -Times(x, -y);
  }

  // ---------------------------------------------------------- quantised distances

  predicate WithinOne(u: seq<real>, w: seq<real>)
    requires |u| == |w|
  {
    forall i :: 0 <= i < |u| ==> Abs(u[i] - w[i]) <= 1.0
  }

  /** A vector whose components each change by at most one. */
  lemma {:induction false} NormOfChange(u: seq<real>, w: seq<real>)
    requires |u| == |w| && WithinOne(u, w)
    ensures
      var d := Difference(u, w);
      Inner(u, u) == Inner(w, w) + 2.0 * Inner(w, d) + Inner(d, d) && Inner(d, d) <= |u| as real
  {
    var d := Difference(u, w);
    if u != [] {
      var n := |u| - 1;
      NormOfChange(u[..n], w[..n]);
      assert Difference(u[..n], w[..n]) == d[..n];
      ComponentOfChange(u[n], w[n]);
      hide Times;
    }
  }

  lemma ComponentOfChange(u: real, w: real)
    requires Abs(u - w) <= 1.0
    ensures Times(u, u) == Times(w, w) + 2.0 * Times(w, u - w) + Times(u - w, u - w)
    ensures Times(u - w, u - w) <= 1.0
  {
    var e := u - w;
    assert Times(1.0 - e, 1.0 + e) >= 0.0;
    assert Times(1.0 - e, 1.0 + e) == 1.0 - Times(e, e);
  }

  /** Norms of vectors within one of each other differ by at most the square
      root of the dimension. */
  lemma TriangleBound(u: seq<real>, w: seq<real>, normU: real, normW: real, s: real)
    requires |u| == |w| && WithinOne(u, w) && normU >= 0.0 && normW >= 0.0
    requires Squared(normU) == Inner(u, u) && Squared(normW) == Inner(w, w) && IsSquareRoot(s, |u|)
    ensures normU <= normW + s
  {
    hide Times, Squared, Inner, WithinOne;
    var d := Difference(u, w);
    NormOfChange(u, w);
    CauchySchwarz(w, d, normW, s);
    assert Squared(normW + s) == Squared(normW) + 2.0 * Times(normW, s) + Squared(s) by {
      SquareOfSum(normW, s);
    }
    RootOrder(normU, normW + s);
  }

  lemma SquareOfSum(x: real, y: real)
    ensures Squared(x + y) == Squared(x) + 2.0 * Times(x, y) + Squared(y)
  {
  }

  lemma RootOrder(x: real, y: real)
    requires x >= 0.0 && y >= 0.0 && Squared(x) <= Squared(y)
    ensures x <= y
  {
    assert Times(x - y, x + y) == Squared(x) - Squared(y);
    assert x > y ==> Times(x - y, x + y) > 0.0;
  }

  function Scaled(a: seq<real>): (r: seq<real>)
    ensures |r| == |a| && forall i :: 0 <= i < |a| ==> r[i] == 127.0 * a[i]
  {
    seq(|a|, i requires 0 <= i < |a| => 127.0 * a[i])
  }

  lemma {:induction false} ScaledInner(a: seq<real>)
    ensures Inner(Scaled(a), Scaled(a)) == 127.0 * 127.0 * Inner(a, a)
  {
    if a != [] {
      var n := |a| - 1;
      ScaledInner(a[..n]);
      assert Scaled(a)[..n] == Scaled(a[..n]);
      assert Times(127.0 * a[n], 127.0 * a[n]) == 127.0 * 127.0 * Times(a[n], a[n]);
    }
  }

  lemma ScaledNorm(a: seq<real>, norm: real)
    requires Squared(norm) == Inner(a, a)
    ensures Squared(INT8_SCALE * norm) == Inner(Scaled(a), Scaled(a))
  {
    ScaledInner(a);
    assert Squared(127.0 * norm) == 127.0 * 127.0 * Squared(norm);
  }

  lemma ComponentsWithinOne(x: real, y: real)
    requires -1.0 <= x <= 1.0 && -1.0 <= y <= 1.0
    ensures
      var (u, w) := (Quantise(x) as real - Quantise(y) as real, 127.0 * (x - y));
      Abs(u - w) <= 1.0 && Abs(w - u) <= 1.0
  {
    QuantiseFaithful(x, y);
    QuantiseFaithful(y, x);
    hide Quantise;
  }

  function Int8Difference(x: seq<real>, y: seq<real>): (d: seq<real>)
    requires |x| == |y|
    ensures |d| == |x|
  {
    Difference(Components(VecToInt8Blob(x)), Components(VecToInt8Blob(y)))
  }

  lemma Int8DifferenceClose(x: seq<real>, y: seq<real>)
    requires |x| == |y| && Unital(x) && Unital(y)
    ensures
      var (u, w) := (Int8Difference(x, y), Scaled(Difference(x, y)));
      WithinOne(u, w) && WithinOne(w, u)
  {
    var (u, w) := (Int8Difference(x, y), Scaled(Difference(x, y)));
    forall i | 0 <= i < |u| ensures Abs(u[i] - w[i]) <= 1.0 && Abs(w[i] - u[i]) <= 1.0 {
      ComponentsWithinOne(x[i], y[i]);
    }
  }

  /** The distance of two quantised vectors is 127 times their true distance, up
      to the square root of the dimension. */
  lemma QuantisedDistance(x: seq<real>, y: seq<real>, dist: real, dist8: real, s: real)
    requires |x| == |y| && Unital(x) && Unital(y)
    requires IsDistance(dist, x, y) && IsSquareRoot(s, |x|)
    requires IsDistance(dist8, Components(VecToInt8Blob(x)), Components(VecToInt8Blob(y)))
    ensures Abs(dist8 - INT8_SCALE * dist) <= s
  {
    var (u, e) := (Int8Difference(x, y), Difference(x, y));
    Int8DifferenceClose(x, y);
    ScaledNorm(e, dist);
    hide Squared, Inner, Unital, WithinOne, Int8Difference, Difference, Scaled;
    TriangleBound(u, Scaled(e), dist8, INT8_SCALE * dist, s);
    TriangleBound(Scaled(e), u, INT8_SCALE * dist, dist8, s);
  }

  /** Whether `d` is the distance of two vectors, and `d8` that of their bytes. */
  predicate Measured(a: seq<real>, b: seq<real>, d: real, d8: real)
    requires |a| == |b|
  {
    IsDistance(d, a, b) && IsDistance(d8, Components(VecToInt8Blob(a)), Components(VecToInt8Blob(b)))
  }

  predicate UnitalOf(v: seq<real>, n: nat) { |v| == n && Unital(v) }

  /** Whether rescaled int8 distances order any two candidates of a dimension as
      their true distances do, if those differ by more than a margin. */
  ghost predicate KeepsOrder(n: nat, margin: real) {
    forall q, x, y, dx, dy, dx8, dy8 ::
      UnitalOf(q, n) && UnitalOf(x, n) && UnitalOf(y, n) &&
      Measured(q, x, dx, dx8) && Measured(q, y, dy, dy8) && dy - dx > margin ==>
      dx8 / INT8_SCALE < dy8 / INT8_SCALE
  }

  /** A margin of twice the root of the dimension over 127 keeps the order, and in
      no dimension does a smaller one. */
  lemma OrderKeptExactly(n: nat, s: real, margin: real)
    requires IsSquareRoot(s, n)
    ensures KeepsOrder(n, margin) <==> margin >= 2.0 * s / INT8_SCALE
  {
    hide Measured, Unital, IsSquareRoot;
    if margin >= 2.0 * s / INT8_SCALE {
      forall q, x, y, dx, dy, dx8, dy8 |
        UnitalOf(q, n) && UnitalOf(x, n) && UnitalOf(y, n) &&
        Measured(q, x, dx, dx8) && Measured(q, y, dy, dy8) && dy - dx > margin
        ensures dx8 / INT8_SCALE < dy8 / INT8_SCALE
      {
        OrderPreserved(q, x, y, s, dx, dy, dx8, dy8);
      }
    } else {
      MarginTooSmall(n, s, margin);
    }
  }

  lemma OrderPreserved(q: seq<real>, x: seq<real>, y: seq<real>, s: real,
      dx: real, dy: real, dx8: real, dy8: real)
    requires |q| == |x| == |y| && Unital(q) && Unital(x) && Unital(y) && IsSquareRoot(s, |q|)
    requires Measured(q, x, dx, dx8) && Measured(q, y, dy, dy8)
    requires dy - dx > 2.0 * s / INT8_SCALE
    ensures dx8 / INT8_SCALE < dy8 / INT8_SCALE
  {
    hide IsDistance, Unital;
    QuantisedDistance(q, x, dx, dx8, s);
    QuantisedDistance(q, y, dy, dy8, s);
  }

  function Constant(n: nat, c: real): (v: seq<real>)
    ensures |v| == n && forall i :: 0 <= i < n ==> v[i] == c
  {
    seq(n, i => c)
  }

  lemma {:induction false} InnerOfConstant(v: seq<real>, c: real)
    requires forall i :: 0 <= i < |v| ==> v[i] == c
    ensures Inner(v, v) == |v| as real * Times(c, c)
  {
    if v != [] {
      InnerOfConstant(v[..|v| - 1], c);
      hide Times;
      assert |v| as real * Times(c, c) == (|v| - 1) as real * Times(c, c) + Times(c, c);
    }
  }

  lemma SquareOfTimes(c: real, s: real)
    requires c >= 0.0 && s >= 0.0
    ensures Squared(Times(c, s)) == Squared(s) * Times(c, c)
    ensures Times(-c, -c) == Times(c, c) && Times(c, s) >= 0.0
  {
  }

  /** Vectors that differ by `c` everywhere are `c` times the root apart. */
  lemma ConstantDistance(a: seq<real>, b: seq<real>, c: real, s: real)
    requires |a| == |b| && IsSquareRoot(s, |a|) && c >= 0.0
    requires (forall i :: 0 <= i < |a| ==> a[i] - b[i] == c) || (forall i :: 0 <= i < |a| ==> a[i] - b[i] == -c)
    ensures IsDistance(Times(c, s), a, b)
  {
    SquareOfTimes(c, s);
    hide Times, Squared, Inner;
    if forall i :: 0 <= i < |a| ==> a[i] - b[i] == c {
      InnerOfConstant(Difference(a, b), c);
    } else {
      InnerOfConstant(Difference(a, b), -c);
    }
  }

  /** Two candidates whose bytes are equally far from the query's, though one is
      nearly twice as far beyond the other as one step. */
  lemma MarginTooSmall(n: nat, s: real, margin: real)
    requires IsSquareRoot(s, n) && margin < 2.0 * s / INT8_SCALE
    ensures !KeepsOrder(n, margin)
  {
    var k := Excess(s, margin);
    var (q, x, y) := (Constant(n, 0.5 / 127.0), Constant(n, -0.5 / 127.0), Constant(n, (1.5 + k) / 127.0));
    var (dx, dy) := (Times(1.0 / 127.0, s), Times((1.0 + k) / 127.0, s));
    assert dy - dx == k * s / 127.0;
    WitnessesMeasured(n, s, k);
    hide Constant, Times, Measured, Unital, Excess;
    assert !KeepsOrder(n, margin);
  }

  lemma WitnessesMeasured(n: nat, s: real, k: real)
    requires IsSquareRoot(s, n) && 1.0 < k < 2.0
    ensures
      var (q, x, y) := (Constant(n, 0.5 / 127.0), Constant(n, -0.5 / 127.0), Constant(n, (1.5 + k) / 127.0));
      UnitalOf(q, n) && UnitalOf(x, n) && UnitalOf(y, n) &&
      Measured(q, x, Times(1.0 / 127.0, s), Times(2.0, s)) &&
      Measured(q, y, Times((1.0 + k) / 127.0, s), Times(2.0, s))
  {
    var (q, x, y) := (Constant(n, 0.5 / 127.0), Constant(n, -0.5 / 127.0), Constant(n, (1.5 + k) / 127.0));
    assert Quantise(0.5 / 127.0) == 1 && Quantise(-0.5 / 127.0) == -1;
    QuantisedThree(k);
    ConstantBytes(q, 0.5 / 127.0);
    ConstantBytes(x, -0.5 / 127.0);
    ConstantBytes(y, (1.5 + k) / 127.0);
    hide Quantise, VecToInt8Blob, Components, Times, IsDistance;
    ConstantDistance(q, x, 1.0 / 127.0, s);
    ConstantDistance(q, y, (1.0 + k) / 127.0, s);
    var (q8, x8, y8) := (Components(VecToInt8Blob(q)), Components(VecToInt8Blob(x)), Components(VecToInt8Blob(y)));
    ConstantDistance(q8, x8, 2.0, s);
    ConstantDistance(q8, y8, 2.0, s);
  }

  lemma ConstantBytes(v: seq<real>, c: real)
    requires forall i :: 0 <= i < |v| ==> v[i] == c
    ensures forall i :: 0 <= i < |v| ==> Components(VecToInt8Blob(v))[i] == Quantise(c) as real
  {
    hide Quantise;
  }

  /** A factor between 1 and 2 that exceeds the margin. */
  function Excess(s: real, margin: real): (k: real)
    requires s >= 0.0 && margin < 2.0 * s / 127.0
    ensures 1.0 < k < 2.0 && k * s / 127.0 > margin
  {
    if margin < 0.0 then 1.5
    else
      var t := margin * 127.0 / s;
      assert t * s == margin * 127.0;
      assert t >= 2.0 ==> Times(t - 2.0, s) >= 0.0 && Times(t - 2.0, s) == t * s - 2.0 * s;
      var k := if t < 1.0 then 1.5 else (t + 2.0) / 2.0;
      assert Times(k - t, s) > 0.0 && Times(k - t, s) == k * s - t * s;
      k
  }

  lemma QuantisedThree(k: real)
    requires 1.0 < k < 2.0
    ensures Quantise((1.5 + k) / 127.0) == 3
  {
    assert (1.5 + k) / 127.0 * 127.0 == 1.5 + k;
  }

  /** Without that margin the order can be reversed, for unit vectors too. */
  lemma OrderCanReverse()
    ensures
      var q, x, y := [12.0 / 13.0, -5.0 / 13.0], [15.0 / 17.0, 8.0 / 17.0], [7.0 / 25.0, -24.0 / 25.0];
      Inner(q, q) == 1.0 && Inner(x, x) == 1.0 && Inner(y, y) == 1.0 &&
      Inner(Difference(q, x), Difference(q, x)) < Inner(Difference(q, y), Difference(q, y)) &&
      Inner(Int8Difference(q, x), Int8Difference(q, x)) > Inner(Int8Difference(q, y), Int8Difference(q, y))
  {
    var q, x, y := [12.0 / 13.0, -5.0 / 13.0], [15.0 / 17.0, 8.0 / 17.0], [7.0 / 25.0, -24.0 / 25.0];
    assert Quantise(12.0 / 13.0) == 117 && Quantise(-5.0 / 13.0) == -49;
    assert Quantise(15.0 / 17.0) == 112 && Quantise(8.0 / 17.0) == 60;
    assert Quantise(7.0 / 25.0) == 36 && Quantise(-24.0 / 25.0) == -122;
    assert Int8Difference(q, x) == [5.0, -109.0] && Int8Difference(q, y) == [81.0, 73.0];
    InnerOfPair(q, q);
    InnerOfPair(x, x);
    InnerOfPair(y, y);
    InnerOfPair(Difference(q, x), Difference(q, x));
    InnerOfPair(Difference(q, y), Difference(q, y));
    InnerOfPair([5.0, -109.0], [5.0, -109.0]);
    InnerOfPair([81.0, 73.0], [81.0, 73.0]);
  }

  lemma InnerOfPair(a: seq<real>, b: seq<real>)
    requires |a| == |b| == 2
    ensures Inner(a, b) == a[0] * b[0] + a[1] * b[1]
  {
    assert Inner(a[..1], b[..1]) == Inner(a[..1][..0], b[..1][..0]) + Times(a[0], b[0]);
    assert Inner(a, b) == Inner(a[..1], b[..1]) + Times(a[1], b[1]);
  }
}
