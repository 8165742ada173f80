/** Embedding a list of texts: tokenize and truncate, sort by length, forward in
    padded sub-batches, and put the results back in order, giving up when the
    caller has cancelled. */
module EmbedEngine {
  import opened Text
  import opened FlatIndex
  import opened CausalModel
  import opened BatchModel
  import opened ForwardMeaning
  import opened TokenBudget
  import Numbers

  /** A loaded embedder and what it runs on. `finite` stands for the check that
      a vector holds no NaN and no infinity, `sqrt` for the square root. A forward
      pass may fail: `fault` says it of the last of the passes so far. */
  datatype Embedder = Embedder(
    weights: Weights,
    tokenize: string -> Option<seq<nat>>,
    finite: Vec -> bool,
    sqrt: real -> real,
    fault: seq<Pass> -> bool,
    cpu: bool,
    tokenCap: nat)

  /** The caller's flag. It is set at some load, if ever, and then stays set. */
  class CancelFlag {
    const setFrom: Option<nat>
    var loads: nat

    constructor (setFrom: Option<nat>)
      ensures this.setFrom == setFrom && loads == 0
    {
      this.setFrom := setFrom;
      loads := 0;
    }

    /** Some load before this point has found the flag set. */
    ghost predicate Seen()
      reads this
    {
      setFrom.Some? && setFrom.value < loads
    }

    method Load() returns (isSet: bool)
      modifies this
      ensures loads == old(loads) + 1
      ensures isSet <==> setFrom.Some? && setFrom.value <= old(loads)
    {
      isSet := setFrom.Some? && setFrom.value <= loads;
      loads := loads + 1;
    }
  }

  datatype EmbedError =
    | Tokenization
    | EmptyTokens
    | Inference
    | Cancelled(completed: nat, total: nat)

  // -------------------------------------------------------------- normalisation

  function SumSquares(v: Vec): real { Sum(Times(v, v)) }

  function Scaled(v: Vec, d: real): Vec
    requires d != 0.0
  {
    seq(|v|, i requires 0 <= i < |v| => v[i] / d)
  }

  /** The vector over its length; the zero vector stays as it is. */
  function Normalised(sqrt: real -> real, v: Vec): Vec {
    var norm := sqrt(SumSquares(v));
    if norm > 0.0 then Scaled(v, norm) else v
  }

  method L2Normalise(sqrt: real -> real, v: array<real>)
    modifies v
    ensures v[..] == Normalised(sqrt, old(v[..]))
  {
    ghost var was := v[..];
    var sum := 0.0;
    for i := 0 to v.Length
      invariant v[..] == was
      invariant sum == Sum(Times(was, was)[..i])
    {
      assert Times(was, was)[..i + 1][..i] == Times(was, was)[..i];
      sum := sum + v[i] * v[i];
    }
    assert Times(was, was)[..v.Length] == Times(was, was);
    var norm := sqrt(sum);
    if norm > 0.0 {
      for i := 0 to v.Length
        invariant forall k :: 0 <= k < i ==> v[k] == was[k] / norm
        invariant forall k :: i <= k < v.Length ==> v[k] == was[k]
      {
        v[i] := v[i] / norm;
      }
      assert v[..] == Scaled(was, norm);
    }
  }

  lemma {:induction false} SumScaled(v: Vec, d: real)
    requires d != 0.0
    ensures Sum(Scaled(v, d)) == Sum(v) / d
  {
    if v != [] {
      SumScaled(v[..|v| - 1], d);
      assert Scaled(v, d)[..|v| - 1] == Scaled(v[..|v| - 1], d);
    }
  }

  /** With a true square root, a vector that is not zero comes out with length one. */
  lemma NormalisedIsUnit(sqrt: real -> real, v: Vec)
    requires SumSquares(v) > 0.0
    requires sqrt(SumSquares(v)) > 0.0 && sqrt(SumSquares(v)) * sqrt(SumSquares(v)) == SumSquares(v)
    ensures SumSquares(Normalised(sqrt, v)) == 1.0
  {
    var (q, r) := (SumSquares(v), sqrt(SumSquares(v)));
    assert Normalised(sqrt, v) == Scaled(v, r);
    var (a, b) := (Times(Scaled(v, r), Scaled(v, r)), Scaled(Times(v, v), q));
    hide Normalised, Sum;
    forall i | 0 <= i < |v| ensures a[i] == b[i] {
      assert Scaled(v, r)[i] == v[i] / r && Times(v, v)[i] == v[i] * v[i];
      QuotientSquare(v[i], r, q);
    }
    assert a == b;
    SumScaled(Times(v, v), q);
    QuotientUniqueReal(1.0, q, q);
  }

  lemma QuotientUniqueReal(a: real, b: real, q: real)
    requires q > 0.0 && a * q == b
    ensures b / q == a
  {
  }

  lemma QuotientSquare(x: real, r: real, q: real)
    requires r > 0.0 && q > 0.0 && r * r == q
    ensures (x / r) * (x / r) == x * x / q
  {
    var y := x / r;
    assert y * r == x;
    assert (y * y) * q == (y * r) * (y * r) == x * x;
    QuotientUniqueReal(y * y, x * x, q);
  }

  // ------------------------------------------------------------- one text alone

  /** The embedding of one token sequence on its own. */
  function EmbedOne(e: Embedder, ids: seq<nat>): Vec
    requires Grouped(e.weights) && ids != []
  {
    Normalised(e.sqrt, Forward(e.weights, ids)[|ids| - 1])
  }

  /** The tokens of a text, cut to the cap. */
  function Tokens(e: Embedder, text: string): Result<seq<nat>, EmbedError> {
    match e.tokenize(text)
    case None => Err(Tokenization)
    case Some(ids) =>
      var cap := EffectiveTokenCap(e.tokenCap);
      var cut := if |ids| > cap then ids[..cap] else ids;
      if cut == [] then Err(EmptyTokens) else Ok(cut)
  }

  function AllTokens(e: Embedder, texts: seq<string>): (r: Result<seq<seq<nat>>, EmbedError>)
    ensures r.Ok? ==> |r.value| == |texts| && forall i :: 0 <= i < |texts| ==> r.value[i] != []
    ensures r.Ok? ==> forall i :: 0 <= i < |texts| ==> |r.value[i]| <= EffectiveTokenCap(e.tokenCap)
    ensures r.Err? ==> r.error == Tokenization || r.error == EmptyTokens
  {
    if texts == [] then Ok([])
    else
      match AllTokens(e, texts[..|texts| - 1])
      case Err(x) => Err(x)
      case Ok(ids) =>
        match Tokens(e, texts[|texts| - 1])
        case Err(x) => Err(x)
        case Ok(last) => Ok(ids + [last])
  }

  function EmbedEach(e: Embedder, idVecs: seq<seq<nat>>): (r: seq<Vec>)
    requires Grouped(e.weights) && forall i :: 0 <= i < |idVecs| ==> idVecs[i] != []
    ensures |r| == |idVecs|
  {
    seq(|idVecs|, i requires 0 <= i < |idVecs| => EmbedOne(e, idVecs[i]))
  }

  // --------------------------------------------------- what an embedding is, in full

  /** A vector divided by its length, or itself if it has none. */
  predicate PointsAlong(sqrt: real -> real, v: Vec, r: Vec) {
    var norm := sqrt(Product(v, v, |v|));
    && |r| == |v|
    && (norm > 0.0 ==> forall i :: 0 <= i < |v| ==> r[i] * norm == v[i])
    && (!(norm > 0.0) ==> r == v)
  }

  /** The number of leading tokens of a text that are used. */
  function Used(e: Embedder, ids: seq<nat>): nat {
    var cap := if e.tokenCap == 0 || e.tokenCap > 40960 then 40960 else e.tokenCap;
    if |ids| > cap then cap else |ids|
  }

  /** The last hidden state over the leading tokens of a text, as a direction. */
  ghost predicate IsEmbedding(e: Embedder, text: string, v: Vec)
    requires Grouped(e.weights)
  {
    && e.tokenize(text).Some?
    && var ids := e.tokenize(text).value;
       && ids != []
       && exists hidden :: Computes(e.weights, ids[..Used(e, ids)], hidden)
            && PointsAlong(e.sqrt, hidden[Used(e, ids) - 1], v)
  }

  lemma NormalisedPointsAlong(sqrt: real -> real, v: Vec)
    ensures PointsAlong(sqrt, v, Normalised(sqrt, v))
  {
    DotIsProduct(v, v, |v|);
    assert Times(v, v)[..|v|] == Times(v, v);
    var (norm, r) := (sqrt(Product(v, v, |v|)), Normalised(sqrt, v));
    hide Sum, Product;
    assert norm == sqrt(SumSquares(v));
    if norm > 0.0 {
      forall i | 0 <= i < |v| ensures r[i] * norm == v[i] {
        Numbers.TimesQuotient(v[i], norm);
      }
    }
  }

  lemma EmbedOneIsEmbedding(e: Embedder, text: string)
    requires Grouped(e.weights) && Positive(e.weights.exp) && Tokens(e, text).Ok?
    ensures IsEmbedding(e, text, EmbedOne(e, Tokens(e, text).value))
  {
    var ids := e.tokenize(text).value;
    var cut := ids[..Used(e, ids)];
    assert cut == Tokens(e, text).value;
    var hidden := Forward(e.weights, cut);
    ForwardMeans(e.weights, cut, hidden);
    NormalisedPointsAlong(e.sqrt, hidden[|cut| - 1]);
    hide Computes, Forward, PointsAlong, Normalised;
  }

  /** Tokenizing every text succeeds if each has tokens, and otherwise fails as
      the first that has none does. */
  lemma {:induction false} AllTokensMeans(e: Embedder, texts: seq<string>)
    ensures
      match AllTokens(e, texts)
      case Ok(idVecs) => forall i :: 0 <= i < |texts| ==> Tokens(e, texts[i]) == Ok(idVecs[i])
      case Err(x) => exists i :: 0 <= i < |texts|
                            && e.tokenize(texts[i]) == (if x == Tokenization then None else Some([]))
                            && forall j :: 0 <= j < i ==> e.tokenize(texts[j]).Some? && e.tokenize(texts[j]).value != []
  {
    if texts != [] {
      var (init, last) := (texts[..|texts| - 1], texts[|texts| - 1]);
      AllTokensMeans(e, init);
      assert forall i :: 0 <= i < |init| ==> init[i] == texts[i];
    }
  }

  /** What a run that nobody cancels returns, text by text. */
  ghost predicate EmbedsAll(e: Embedder, texts: seq<string>, r: Result<seq<Vec>, EmbedError>)
    requires Grouped(e.weights)
  {
    match r
    case Ok(vecs) =>
      |vecs| == |texts| && forall i :: 0 <= i < |texts| ==> IsEmbedding(e, texts[i], vecs[i]) && e.finite(vecs[i])
    case Err(Inference) =>
      exists i, v :: 0 <= i < |texts| && IsEmbedding(e, texts[i], v) && !e.finite(v)
    case Err(x) =>
      exists i :: 0 <= i < |texts|
        && e.tokenize(texts[i]) == (if x == Tokenization then None else Some([]))
        && forall j :: 0 <= j < i ==> e.tokenize(texts[j]).Some? && e.tokenize(texts[j]).value != []
  }

  lemma UncancelledEmbedsAll(e: Embedder, texts: seq<string>)
    requires Grouped(e.weights)
    ensures Positive(e.weights.exp) ==> EmbedsAll(e, texts, Uncancelled(e, texts))
  {
    hide AllTokens, EmbedsFinite, IsEmbedding, Positive;
    AllTokensMeans(e, texts);
    if AllTokens(e, texts).Ok? && Positive(e.weights.exp) {
      EmbedsFiniteAll(e, texts, AllTokens(e, texts).value);
    }
  }

  lemma EmbedsFiniteAll(e: Embedder, texts: seq<string>, idVecs: seq<seq<nat>>)
    requires Grouped(e.weights) && Positive(e.weights.exp) && |idVecs| == |texts|
    requires forall i :: 0 <= i < |texts| ==> Tokens(e, texts[i]) == Ok(idVecs[i]) && idVecs[i] != []
    ensures EmbedsAll(e, texts, EmbedsFinite(e, idVecs))
  {
    hide EmbedOne, Tokens, IsEmbedding, Positive;
    var vecs := EmbedEach(e, idVecs);
    forall i | 0 <= i < |texts| ensures IsEmbedding(e, texts[i], vecs[i]) {
      EmbedOneIsEmbedding(e, texts[i]);
    }
    if !AllFinite(e, vecs) {
      var i :| 0 <= i < |vecs| && !e.finite(vecs[i]);
      assert IsEmbedding(e, texts[i], vecs[i]);
    }
  }

  /** Texts that end in one token need not have one embedding. */
  lemma ContextReachesEmbedding(e: Embedder)
    requires e.weights == PlainWeights() && e.sqrt(25.0) == 5.0
    ensures Grouped(e.weights) && Positive(e.weights.exp)
    ensures EmbedOne(e, [1, 0]) == [0.6, 0.8] && EmbedOne(e, [2, 0]) == [0.8, 0.6]
  {
    ContextReachesLastToken();
    hide Forward;
    assert SumSquares([3.0, 4.0]) == 25.0 by {
      SumOfTwo(Times([3.0, 4.0], [3.0, 4.0]));
    }
    assert SumSquares([4.0, 3.0]) == 25.0 by {
      SumOfTwo(Times([4.0, 3.0], [4.0, 3.0]));
    }
    hide SumSquares;
  }

  lemma SumOfTwo(v: Vec)
    requires |v| == 2
    ensures Sum(v) == v[0] + v[1]
  {
    var first := v[..1];
    assert first[..0] == [];
    assert Sum(first) == Sum(first[..0]) + first[0];
    assert Sum(v) == Sum(first) + v[1];
  }

  predicate AllFinite(e: Embedder, vecs: seq<Vec>) { forall i :: 0 <= i < |vecs| ==> e.finite(vecs[i]) }

  /** Every sequence on its own, unless one comes out with a vector that is not finite. */
  function EmbedsFinite(e: Embedder, idVecs: seq<seq<nat>>): Result<seq<Vec>, EmbedError>
    requires Grouped(e.weights) && forall i :: 0 <= i < |idVecs| ==> idVecs[i] != []
  {
    if AllFinite(e, EmbedEach(e, idVecs)) then Ok(EmbedEach(e, idVecs)) else Err(Inference)
  }

  /** What a run that nobody cancels returns: each text embedded on its own. */
  function Uncancelled(e: Embedder, texts: seq<string>): Result<seq<Vec>, EmbedError>
    requires Grouped(e.weights)
  {
    match AllTokens(e, texts)
    case Err(x) => Err(x)
    case Ok(idVecs) => EmbedsFinite(e, idVecs)
  }

  // ---------------------------------------------------------- a padded sub-batch

  function MaxLen(batch: seq<seq<nat>>): (m: nat)
    ensures forall i :: 0 <= i < |batch| ==> |batch[i]| <= m
    ensures batch != [] ==> exists i :: 0 <= i < |batch| && |batch[i]| == m
  {
    if batch == [] then 0
    else
      var (n, m) := (|batch| - 1, MaxLen(batch[..|batch| - 1]));
      assert forall i :: 0 <= i < n ==> batch[..n][i] == batch[i];
      if |batch[n]| > m || n == 0 then |batch[n]| else m
  }

  function Padding(n: nat): (p: seq<nat>)
    ensures |p| == n
  {
    seq(n, i => 0)
  }

  /** Row after row, each padded on the right with id 0 to the width. */
  function PaddedRows(batch: seq<seq<nat>>, width: nat): seq<nat>
    requires forall i :: 0 <= i < |batch| ==> |batch[i]| <= width
  {
    if batch == [] then []
    else
      var (n, last) := (|batch| - 1, batch[|batch| - 1]);
      PaddedRows(batch[..n], width) + last + Padding(width - |last|)
  }

  lemma {:induction false} PaddedRowsLength(batch: seq<seq<nat>>, width: nat)
    requires forall i :: 0 <= i < |batch| ==> |batch[i]| <= width
    ensures |PaddedRows(batch, width)| == |batch| * width
  {
    if batch != [] {
      PaddedRowsLength(batch[..|batch| - 1], width);
      Distribute(|batch|, 1, width);
    }
  }

  /** Row `i` of the flat buffer is sequence `i` and its padding. */
  lemma {:induction false} PaddedRow(batch: seq<seq<nat>>, width: nat, i: nat)
    requires forall i :: 0 <= i < |batch| ==> |batch[i]| <= width
    requires i < |batch|
    ensures i * width <= i * width + width <= |PaddedRows(batch, width)|
    ensures PaddedRows(batch, width)[i * width..i * width + width] == batch[i] + Padding(width - |batch[i]|)
  {
    var (n, flat) := (|batch| - 1, PaddedRows(batch, width));
    var init := batch[..n];
    PaddedRowsLength(batch, width);
    PaddedRowsLength(init, width);
    RowFits(|batch|, i, width);
    if i == n {
      assert flat[n * width..] == batch[n] + Padding(width - |batch[n]|);
    } else {
      RowFits(n, i, width);
      PaddedRow(init, width, i);
      assert flat[..n * width] == PaddedRows(init, width);
      assert flat[i * width..i * width + width] == flat[..n * width][i * width..i * width + width];
    }
  }

  /** The batched pass gives each sequence, at its last real token, the hidden
      state it gets alone. */
  lemma BatchMatchesSingles(w: Weights, batch: seq<seq<nat>>, width: nat, i: nat)
    requires Grouped(w) && i < |batch| && batch[i] != []
    requires forall i :: 0 <= i < |batch| ==> |batch[i]| <= width
    ensures |PaddedRows(batch, width)| == |batch| * width && Flat(i, width, |batch[i]| - 1) < |batch| * width
    ensures BatchForward(w, PaddedRows(batch, width), |batch|, width)[Flat(i, width, |batch[i]| - 1)]
         == Forward(w, batch[i])[|batch[i]| - 1]
  {
    PaddedRowsLength(batch, width);
    RowFits(|batch|, i, width);
    PaddedRow(batch, width, i);
    var flat := PaddedRows(batch, width);
    ForwardOfRow(w, flat, |batch|, width, i);
    PaddingInert(w, batch[i], Padding(width - |batch[i]|));
    hide Forward, BatchForward, PaddedRows;
    assert Row(flat, width, i) == batch[i] + Padding(width - |batch[i]|);
    FlatBound(i, |batch|, width, |batch[i]| - 1);
  }

  /** Why a sub-batch gave no result. */
  datatype BatchError = CancelledMidway | PassFailed | NotFinite

  /** Whether the last of some passes failed. */
  predicate Faulted(e: Embedder, log: seq<Pass>) { log != [] && e.fault(log) }

  predicate NoFault(e: Embedder, log: seq<Pass>) { forall k :: 0 <= k <= |log| ==> !Faulted(e, log[..k]) }

  /** No pass but the last has failed. */
  predicate FaultIsLast(e: Embedder, log: seq<Pass>) { log != [] ==> NoFault(e, log[..|log| - 1]) }

  lemma NoFaultFound(e: Embedder, log: seq<Pass>)
    requires NoFault(e, log)
    ensures FaultIsLast(e, log) && !Faulted(e, log)
  {
    assert log[..|log|] == log;
    if log != [] {
      var init := log[..|log| - 1];
      forall k | 0 <= k <= |init| ensures !Faulted(e, init[..k]) {
        assert init[..k] == log[..k];
      }
    }
  }

  lemma NoPasses(e: Embedder)
    ensures NoFault(e, []) && FaultIsLast(e, []) && !Faulted(e, [])
  {
  }

  lemma NoFaultNext(e: Embedder, log: seq<Pass>, p: Pass)
    requires NoFault(e, log) && !Faulted(e, log + [p])
    ensures NoFault(e, log + [p])
  {
    assert (log + [p])[..|log| + 1] == log + [p];
    assert forall k :: 0 <= k <= |log| ==> (log + [p])[..k] == log[..k];
  }

  /** Check and keep one vector. */
  method Finish(e: Embedder, hidden: Vec) returns (v: Vec, ok: bool)
    ensures v == Normalised(e.sqrt, hidden) && ok == e.finite(v)
  {
    var a := new real[|hidden|](i requires 0 <= i < |hidden| => hidden[i]);
    assert a[..] == hidden;
    L2Normalise(e.sqrt, a);
    v := a[..];
    ok := e.finite(v);
  }

  /** Note that a pass starts. */
  method StartPass(e: Embedder, log: seq<Pass>, p: Pass) returns (log': seq<Pass>)
    requires NoFault(e, log)
    ensures log' == log + [p] && FaultIsLast(e, log')
    ensures Faulted(e, log') <==> e.fault(log')
    ensures !Faulted(e, log') ==> NoFault(e, log')
  {
    log' := log + [p];
    assert log'[..|log'| - 1] == log;
    if !Faulted(e, log') {
      NoFaultNext(e, log, p);
    }
  }

  method EmbedSequential(e: Embedder, batch: seq<seq<nat>>, flag: CancelFlag, log: seq<Pass>)
    returns (r: Result<seq<Vec>, BatchError>, log': seq<Pass>)
    requires Grouped(e.weights) && forall i :: 0 <= i < |batch| ==> batch[i] != []
    requires !flag.Seen() && NoFault(e, log)
    modifies flag
    ensures flag.loads >= old(flag.loads)
    ensures flag.Seen() <==> r.Err? && r.error.CancelledMidway?
    ensures r.Ok? ==> r.value == EmbedEach(e, batch) && AllFinite(e, r.value)
    ensures r.Err? && r.error.NotFinite? ==> !AllFinite(e, EmbedEach(e, batch))
    ensures FaultIsLast(e, log') && (r.Err? && r.error.PassFailed? <==> Faulted(e, log'))
    ensures !Faulted(e, log') ==> NoFault(e, log')
    ensures log <= log' && forall p :: p in log'[|log|..] ==>
      p.b == 1 && exists i :: 0 <= i < |batch| && p.n == |batch[i]|
  {
    hide Forward, Normalised, NoFault, Faulted, FaultIsLast;
    var out: seq<Vec> := [];
    log' := log;
    NoFaultFound(e, log');
    for i := 0 to |batch|
      invariant out == EmbedEach(e, batch)[..i] && AllFinite(e, out)
      invariant !flag.Seen() && flag.loads >= old(flag.loads)
      invariant NoFault(e, log') && FaultIsLast(e, log') && !Faulted(e, log')
      invariant log <= log' && forall p :: p in log'[|log|..] ==>
        p.b == 1 && exists i :: 0 <= i < |batch| && p.n == |batch[i]|
    {
      var cancelled := flag.Load();
      if cancelled {
        return Err(CancelledMidway), log';
      }
      log' := StartPass(e, log', Pass(1, |batch[i]|));
      if e.fault(log') {
        return Err(PassFailed), log';
      }
      NoFaultFound(e, log');
      var hidden := Forward(e.weights, batch[i]);
      var v, ok := Finish(e, hidden[|batch[i]| - 1]);
      assert v == EmbedEach(e, batch)[i];
      if !ok {
        return Err(NotFinite), log';
      }
      out := out + [v];
    }
    return Ok(out), log';
  }

  method BuildFlat(batch: seq<seq<nat>>, width: nat) returns (flat: seq<nat>)
    requires forall i :: 0 <= i < |batch| ==> |batch[i]| <= width
    ensures flat == PaddedRows(batch, width)
  {
    flat := [];
    for i := 0 to |batch|
      invariant flat == PaddedRows(batch[..i], width)
    {
      assert batch[..i + 1][..i] == batch[..i];
      flat := flat + batch[i] + Padding(width - |batch[i]|);
    }
    assert batch[..|batch|] == batch;
  }

  /** The vectors at the last real tokens of a batch of hidden states. */
  method TakeLast(e: Embedder, batch: seq<seq<nat>>, width: nat, hidden: seq<Vec>)
    returns (r: Result<seq<Vec>, BatchError>)
    requires Grouped(e.weights)
    requires forall i :: 0 <= i < |batch| ==> 0 < |batch[i]| && Flat(i, width, |batch[i]| - 1) < |hidden|
    requires forall i :: 0 <= i < |batch| ==>
      hidden[Flat(i, width, |batch[i]| - 1)] == Forward(e.weights, batch[i])[|batch[i]| - 1]
    ensures r.Ok? ==> r.value == EmbedEach(e, batch) && AllFinite(e, r.value)
    ensures r.Err? ==> r.error.NotFinite? && !AllFinite(e, EmbedEach(e, batch))
  {
    hide Forward, Normalised;
    var out: seq<Vec> := [];
    for i := 0 to |batch|
      invariant out == EmbedEach(e, batch)[..i] && AllFinite(e, out)
    {
      var v, ok := Finish(e, hidden[Flat(i, width, |batch[i]| - 1)]);
      assert v == EmbedEach(e, batch)[i];
      if !ok {
        return Err(NotFinite);
      }
      out := out + [v];
    }
    return Ok(out);
  }

  method EmbedPadded(e: Embedder, batch: seq<seq<nat>>, width: nat, log: seq<Pass>)
    returns (r: Result<seq<Vec>, BatchError>, log': seq<Pass>)
    requires Grouped(e.weights) && forall i :: 0 <= i < |batch| ==> 0 < |batch[i]| <= width
    requires NoFault(e, log)
    ensures log' == log + [Pass(|batch|, width)] && FaultIsLast(e, log')
    ensures r.Ok? ==> r.value == EmbedEach(e, batch) && AllFinite(e, r.value)
    ensures r.Err? ==> r.error.PassFailed? || (r.error.NotFinite? && !AllFinite(e, EmbedEach(e, batch)))
    ensures r.Err? && r.error.PassFailed? <==> Faulted(e, log')
    ensures !Faulted(e, log') ==> NoFault(e, log')
  {
    hide Forward, BatchForward, PaddedRows, EmbedEach, NoFault, Faulted, FaultIsLast;
    var flat := BuildFlat(batch, width);
    PaddedRowsLength(batch, width);
    log' := StartPass(e, log, Pass(|batch|, width));
    if e.fault(log') {
      return Err(PassFailed), log';
    }
    var hidden := BatchForward(e.weights, flat, |batch|, width);
    forall i | 0 <= i < |batch|
      ensures Flat(i, width, |batch[i]| - 1) < |hidden|
      ensures hidden[Flat(i, width, |batch[i]| - 1)] == Forward(e.weights, batch[i])[|batch[i]| - 1]
    {
      BatchMatchesSingles(e.weights, batch, width, i);
    }
    r := TakeLast(e, batch, width, hidden);
  }

  /** A sub-batch: one padded pass on the CPU, one pass for each sequence
      otherwise or when the sequences are long. */
  method EmbedBatch(e: Embedder, batch: seq<seq<nat>>, flag: CancelFlag, log: seq<Pass>)
    returns (r: Result<seq<Vec>, BatchError>, log': seq<Pass>)
    requires Grouped(e.weights) && batch != [] && |batch| <= EMBED_BATCH_SIZE
    requires forall i :: 0 <= i < |batch| ==> 0 < |batch[i]| <= EffectiveTokenCap(e.tokenCap)
    requires !flag.Seen() && NoFault(e, log)
    modifies flag
    ensures flag.loads >= old(flag.loads)
    ensures flag.Seen() <==> r.Err? && r.error.CancelledMidway?
    ensures r.Ok? ==> r.value == EmbedEach(e, batch) && AllFinite(e, r.value)
    ensures r.Err? && r.error.NotFinite? ==> !AllFinite(e, EmbedEach(e, batch))
    ensures FaultIsLast(e, log') && (r.Err? && r.error.PassFailed? <==> Faulted(e, log'))
    ensures !Faulted(e, log') ==> NoFault(e, log')
    ensures log <= log' && forall p :: p in log'[|log|..] ==> PassOk(e.tokenCap, p)
  {
    hide EmbedEach, AllFinite, NoFault, Faulted, FaultIsLast;
    var maxSeq := MaxLen(batch);
    if |batch| == 1 || !e.cpu || maxSeq > BATCH_MAX_SEQ {
      r, log' := EmbedSequential(e, batch, flag, log);
    } else {
      r, log' := EmbedPadded(e, batch, maxSeq, log);
    }
  }

  // ------------------------------------------------------------------ all texts

  /** A text's place in the input and its tokens. */
  type Indexed = (nat, seq<nat>)

  /** An arrangement of the inputs: each of them once. */
  ghost predicate Arranges(order: seq<Indexed>, idVecs: seq<seq<nat>>) {
    && |order| == |idVecs|
    && (forall k :: 0 <= k < |order| ==> order[k].0 < |idVecs| && order[k].1 == idVecs[order[k].0])
    && (forall j, k :: 0 <= j < k < |order| ==> order[j].0 != order[k].0)
    && (forall i :: 0 <= i < |idVecs| ==> Placed(order, i))
  }

  ghost predicate Placed(order: seq<Indexed>, i: nat) { exists k :: 0 <= k < |order| && order[k].0 == i }

  predicate ByLength(order: seq<Indexed>) {
    forall j, k :: 0 <= j < k < |order| ==> |order[j].1| <= |order[k].1|
  }

  lemma InsertArranges(order: seq<Indexed>, idVecs: seq<seq<nat>>, p: nat, ids: seq<nat>)
    requires Arranges(order, idVecs) && p <= |order|
    ensures Arranges(order[..p] + [(|idVecs|, ids)] + order[p..], idVecs + [ids])
  {
    var (n, longer) := (|idVecs|, order[..p] + [(|idVecs|, ids)] + order[p..]);
    forall i | 0 <= i < n + 1 ensures Placed(longer, i) {
      if i == n {
        assert longer[p].0 == i;
      } else {
        assert Placed(order, i);
        var k :| 0 <= k < |order| && order[k].0 == i;
        assert longer[if k < p then k else k + 1].0 == i;
      }
    }
  }

  lemma InsertByLength(order: seq<Indexed>, p: nat, x: Indexed)
    requires ByLength(order) && p <= |order|
    requires p > 0 ==> |order[p - 1].1| <= |x.1|
    requires forall k :: p <= k < |order| ==> |x.1| <= |order[k].1|
    ensures ByLength(order[..p] + [x] + order[p..])
  {
    var longer := order[..p] + [x] + order[p..];
    forall j, k | 0 <= j < k < |longer| ensures |longer[j].1| <= |longer[k].1| {
      if j < p && k == p {
        assert j == p - 1 || |order[j].1| <= |order[p - 1].1|;
      }
    }
  }

  /** Sort the inputs by length. Callers may rely on no order among inputs of
      one length, so what follows holds of any such sort. */
  method SortByLength(idVecs: seq<seq<nat>>) returns (order: seq<Indexed>)
    ensures Arranges(order, idVecs) && ByLength(order)
  {
    order := [];
    for i := 0 to |idVecs|
      invariant Arranges(order, idVecs[..i]) && ByLength(order)
    {
      var p := |order|;
      while p > 0 && |order[p - 1].1| > |idVecs[i]|
        invariant 0 <= p <= |order|
        invariant forall k :: p <= k < |order| ==> |order[k].1| > |idVecs[i]|
      {
        p := p - 1;
      }
      InsertArranges(order, idVecs[..i], p, idVecs[i]);
      InsertByLength(order, p, (i, idVecs[i]));
      hide Arranges, ByLength;
      assert idVecs[..i] + [idVecs[i]] == idVecs[..i + 1];
      order := order[..p] + [(i, idVecs[i])] + order[p..];
    }
    assert idVecs[..|idVecs|] == idVecs;
  }

  method TokenizeAll(e: Embedder, texts: seq<string>) returns (r: Result<seq<seq<nat>>, EmbedError>)
    ensures r == AllTokens(e, texts)
  {
    var idVecs: seq<seq<nat>> := [];
    for i := 0 to |texts|
      invariant AllTokens(e, texts[..i]) == Ok(idVecs)
    {
      assert texts[..i + 1][..i] == texts[..i];
      var ids := Tokens(e, texts[i]);
      if ids.Err? {
        TokenizeFails(e, texts, i + 1);
        return Err(ids.error);
      }
      idVecs := idVecs + [ids.value];
    }
    assert texts[..|texts|] == texts;
    return Ok(idVecs);
  }

  /** The first text that cannot be tokenized decides. */
  lemma {:induction false} TokenizeFails(e: Embedder, texts: seq<string>, n: nat)
    requires n <= |texts| && AllTokens(e, texts[..n]).Err?
    ensures AllTokens(e, texts) == AllTokens(e, texts[..n])
    decreases |texts|
  {
    if n < |texts| {
      assert texts[..|texts| - 1][..n] == texts[..n];
      TokenizeFails(e, texts[..|texts| - 1], n);
    } else {
      assert texts[..n] == texts;
    }
  }

  /** What is stored so far: every entry written is the embedding of its text. */
  ghost predicate Stored(e: Embedder, results: seq<Vec>, idVecs: seq<seq<nat>>, order: seq<Indexed>, done: nat)
    requires Grouped(e.weights) && forall i :: 0 <= i < |idVecs| ==> idVecs[i] != []
    requires Arranges(order, idVecs) && done <= |order|
  {
    && |results| == |idVecs|
    && forall k :: 0 <= k < done ==>
         results[order[k].0] == EmbedOne(e, order[k].1) && e.finite(results[order[k].0])
  }

  method StoreBatch(e: Embedder, results: seq<Vec>, vecs: seq<Vec>, ghost idVecs: seq<seq<nat>>,
                    order: seq<Indexed>, start: nat, end: nat) returns (r: seq<Vec>)
    requires Grouped(e.weights) && forall i :: 0 <= i < |idVecs| ==> idVecs[i] != []
    requires Arranges(order, idVecs) && start <= end <= |order|
    requires |results| == |idVecs| && Stored(e, results, idVecs, order, start)
    requires |vecs| == end - start && AllFinite(e, vecs)
    requires forall k :: start <= k < end ==> vecs[k - start] == EmbedOne(e, order[k].1)
    ensures |r| == |idVecs| && Stored(e, r, idVecs, order, end)
  {
    hide EmbedOne, Stored, Placed, AllFinite;
    r := results;
    for k := start to end
      invariant |r| == |idVecs| && Stored(e, r, idVecs, order, k)
    {
      FiniteAt(e, vecs, k - start);
      StoreOne(e, r, idVecs, order, k, vecs[k - start]);
      r := r[order[k].0 := vecs[k - start]];
    }
  }

  lemma FiniteAt(e: Embedder, vecs: seq<Vec>, i: nat)
    requires i < |vecs| && AllFinite(e, vecs)
    ensures e.finite(vecs[i])
  {
  }

  lemma StoreOne(e: Embedder, results: seq<Vec>, idVecs: seq<seq<nat>>, order: seq<Indexed>, k: nat, v: Vec)
    requires Grouped(e.weights) && forall i :: 0 <= i < |idVecs| ==> idVecs[i] != []
    requires Arranges(order, idVecs) && k < |order| && |results| == |idVecs|
    requires Stored(e, results, idVecs, order, k) && v == EmbedOne(e, order[k].1) && e.finite(v)
    ensures Stored(e, results[order[k].0 := v], idVecs, order, k + 1)
  {
    hide EmbedOne, Placed;
  }

  lemma StoredAll(e: Embedder, results: seq<Vec>, idVecs: seq<seq<nat>>, order: seq<Indexed>)
    requires Grouped(e.weights) && forall i :: 0 <= i < |idVecs| ==> idVecs[i] != []
    requires Arranges(order, idVecs) && Stored(e, results, idVecs, order, |order|)
    ensures results == EmbedEach(e, idVecs) && AllFinite(e, results)
  {
    forall i | 0 <= i < |idVecs| ensures results[i] == EmbedOne(e, idVecs[i]) && e.finite(results[i]) {
      assert Placed(order, i);
    }
  }

  function SubBatch(order: seq<Indexed>, start: nat, end: nat): (batch: seq<seq<nat>>)
    requires start <= end <= |order|
    ensures |batch| == end - start && forall i :: 0 <= i < |batch| ==> batch[i] == order[start + i].1
  {
    seq(end - start, i requires 0 <= i < end - start => order[start + i].1)
  }

  lemma SubBatchTokens(e: Embedder, idVecs: seq<seq<nat>>, order: seq<Indexed>, start: nat, end: nat)
    requires Arranges(order, idVecs) && start <= end <= |order|
    requires forall i :: 0 <= i < |idVecs| ==> 0 < |idVecs[i]| <= EffectiveTokenCap(e.tokenCap)
    ensures forall i :: 0 <= i < end - start ==>
      0 < |SubBatch(order, start, end)[i]| <= EffectiveTokenCap(e.tokenCap)
  {
  }

  lemma SubBatchVectors(e: Embedder, order: seq<Indexed>, start: nat, end: nat, vecs: seq<Vec>)
    requires Grouped(e.weights) && start <= end <= |order|
    requires forall k :: start <= k < end ==> order[k].1 != []
    requires var batch := SubBatch(order, start, end);
      && (forall i :: 0 <= i < |batch| ==> batch[i] != [])
      && vecs == EmbedEach(e, batch)
    ensures |vecs| == end - start
    ensures forall k :: start <= k < end ==> vecs[k - start] == EmbedOne(e, order[k].1)
  {
    hide EmbedOne;
    var batch := SubBatch(order, start, end);
    forall k | start <= k < end ensures vecs[k - start] == EmbedOne(e, order[k].1) {
      assert batch[k - start] == order[k].1;
    }
  }

  lemma EmbedsFiniteOf(e: Embedder, idVecs: seq<seq<nat>>)
    requires Grouped(e.weights) && forall i :: 0 <= i < |idVecs| ==> idVecs[i] != []
    ensures EmbedsFinite(e, idVecs) ==
      if AllFinite(e, EmbedEach(e, idVecs)) then Ok(EmbedEach(e, idVecs)) else Err(Inference)
  {
    hide AllFinite, EmbedEach;
  }

  lemma NothingStored(e: Embedder, results: seq<Vec>, idVecs: seq<seq<nat>>, order: seq<Indexed>)
    requires Grouped(e.weights) && forall i :: 0 <= i < |idVecs| ==> idVecs[i] != []
    requires Arranges(order, idVecs) && |results| == |idVecs|
    ensures Stored(e, results, idVecs, order, 0)
  {
    hide Arranges, EmbedOne;
  }

  /** The sub-batches of all sequences, shortest first. */
  method EmbedSorted(e: Embedder, idVecs: seq<seq<nat>>, flag: CancelFlag)
    returns (r: Result<seq<Vec>, EmbedError>, log: seq<Pass>)
    requires Grouped(e.weights)
    requires forall i :: 0 <= i < |idVecs| ==> 0 < |idVecs[i]| <= EffectiveTokenCap(e.tokenCap)
    requires !flag.Seen()
    modifies flag
    ensures flag.loads >= old(flag.loads)
    ensures r.Err? && r.error.Cancelled? <==> flag.Seen()
    ensures !flag.Seen() ==> r == if Faulted(e, log) then Err(Inference) else EmbedsFinite(e, idVecs)
    ensures FaultIsLast(e, log)
    ensures flag.Seen() ==>
      && r.error.total == |idVecs| && r.error.completed < |idVecs|
      && r.error.completed % EMBED_BATCH_SIZE == 0
    ensures forall p :: p in log ==> PassOk(e.tokenCap, p)
  {
    hide EmbedOne, EmbedEach, PassOk, SubBatch, FaultIsLast, NoFault, Faulted, Stored, AllFinite, EmbedsFinite;
    log := [];
    NoPasses(e);
    var total := |idVecs|;
    var order := SortByLength(idVecs);
    assert |order| == total;
    hide Arranges;
    var results: seq<Vec> := seq(total, i => []);
    NothingStored(e, results, idVecs, order);
    var completed := 0;
    while completed < total
      invariant completed <= total && (completed < total ==> completed % EMBED_BATCH_SIZE == 0)
      invariant |results| == |idVecs| && Stored(e, results, idVecs, order, completed)
      invariant !flag.Seen() && flag.loads >= old(flag.loads)
      invariant NoFault(e, log) && FaultIsLast(e, log) && !Faulted(e, log)
      invariant forall p :: p in log ==> PassOk(e.tokenCap, p)
    {
      var cancelled := flag.Load();
      if cancelled {
        return Err(Cancelled(completed, total)), log;
      }
      var end := if completed + EMBED_BATCH_SIZE < total then completed + EMBED_BATCH_SIZE else total;
      var batch := SubBatch(order, completed, end);
      SubBatchTokens(e, idVecs, order, completed, end);
      var vecs, log' := EmbedBatch(e, batch, flag, log);
      assert log' == log + log'[|log|..];
      log := log';
      if vecs.Err? {
        assert flag.Seen() || vecs.error.NotFinite? || vecs.error.PassFailed?;
        var nowSet := flag.Load();
        if nowSet {
          return Err(Cancelled(completed, total)), log;
        }
        if vecs.error.NotFinite? {
          NotFiniteSomewhere(e, idVecs, order, batch, completed);
          EmbedsFiniteOf(e, idVecs);
        }
        return Err(Inference), log;
      }
      SubBatchVectors(e, order, completed, end, vecs.value);
      results := StoreBatch(e, results, vecs.value, idVecs, order, completed, end);
      completed := end;
    }
    StoredAll(e, results, idVecs, order);
    EmbedsFiniteOf(e, idVecs);
    return Ok(results), log;
  }

  /** Embed every text, or give up once the flag is found set. */
  method EmbedWithCancel(e: Embedder, texts: seq<string>, flag: CancelFlag)
    returns (r: Result<seq<Vec>, EmbedError>, log: seq<Pass>)
    requires Grouped(e.weights)
    modifies flag
    // A run is cancelled exactly when a load finds the flag set.
    ensures r.Err? && r.error.Cancelled? <==> flag.Seen()
    // Else it returns what embedding each text on its own returns, in order,
    // unless a forward pass failed, which ends it.
    ensures !flag.Seen() ==> r == if Faulted(e, log) then Err(Inference) else Uncancelled(e, texts)
    ensures !flag.Seen() && !Faulted(e, log) && Positive(e.weights.exp) ==> EmbedsAll(e, texts, r)
    ensures FaultIsLast(e, log)
    // What is reported done is whole sub-batches.
    ensures flag.Seen() ==>
      && r.error.total == |texts| && r.error.completed <= |texts|
      && r.error.completed % 8 == 0
      && (texts != [] ==> r.error.completed < |texts|)
    // A run cancelled while it waited does no work.
    ensures flag.setFrom.Some? && flag.setFrom.value <= old(flag.loads) ==>
      r == Err(Cancelled(0, |texts|)) && log == []
    ensures forall p :: p in log ==> PassOk(e.tokenCap, p)
  {
    hide AllTokens, EmbedEach, AllFinite, PassOk, FaultIsLast, NoFault, Faulted, EmbedsAll, EmbedsFinite, Positive;
    log := [];
    NoPasses(e);
    UncancelledEmbedsAll(e, texts);
    var total := |texts|;
    var cancelled := flag.Load();
    if cancelled {
      return Err(Cancelled(0, total)), log;
    }
    var tokens := TokenizeAll(e, texts);
    if tokens.Err? {
      return Err(tokens.error), log;
    }
    r, log := EmbedSorted(e, tokens.value, flag);
  }

  /** A vector that is not finite in a sub-batch is one of the whole list. */
  lemma NotFiniteSomewhere(e: Embedder, idVecs: seq<seq<nat>>, order: seq<Indexed>, batch: seq<seq<nat>>, start: nat)
    requires Grouped(e.weights) && forall i :: 0 <= i < |idVecs| ==> idVecs[i] != []
    requires Arranges(order, idVecs) && start + |batch| <= |order|
    requires forall i :: 0 <= i < |batch| ==> batch[i] == order[start + i].1
    requires !AllFinite(e, EmbedEach(e, batch))
    ensures !AllFinite(e, EmbedEach(e, idVecs))
  {
    var i :| 0 <= i < |batch| && !e.finite(EmbedEach(e, batch)[i]);
    assert EmbedEach(e, idVecs)[order[start + i].0] == EmbedEach(e, batch)[i];
  }
}
