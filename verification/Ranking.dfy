/** The retrieval metrics of the chunk quality evaluation, over exact reals and
    for any position weights that are positive and strictly decreasing. */
module Ranking {
  import opened Text
  import opened Numbers

  // ------------------------------------------------------------------- relevance

  datatype Chunk = Chunk(file: string, startLine: nat, endLine: nat)

  predicate RangesOverlap(a: Chunk, b: Chunk) { a.startLine <= b.endLine && b.startLine <= a.endLine }

  predicate Covers(c: Chunk, line: nat) { c.startLine <= line <= c.endLine }

  function RelevantIndices(chunks: seq<Chunk>, q: Chunk): set<nat> {
    set i: nat | i < |chunks| && chunks[i].file == q.file && RangesOverlap(chunks[i], q)
  }

  /** Relevant are exactly the chunks that share a line of the query's file
      with the query. */
  lemma RelevantShareALine(chunks: seq<Chunk>, q: Chunk, i: nat)
    requires i < |chunks|
    requires chunks[i].startLine <= chunks[i].endLine && q.startLine <= q.endLine
    ensures i in RelevantIndices(chunks, q) <==>
      chunks[i].file == q.file && exists line :: Covers(chunks[i], line) && Covers(q, line)
  {
    var c := chunks[i];
    if RangesOverlap(c, q) {
      var line := if c.startLine >= q.startLine then c.startLine else q.startLine;
      assert Covers(c, line) && Covers(q, line);
    }
  }

  // --------------------------------------------------------------------- ranking

  function Similarity(a: seq<real>, b: seq<real>): real {
    if a == [] || b == [] then 0.0 else a[0] * b[0] + Similarity(a[1..], b[1..])
  }

  function Plus(a: seq<real>, b: seq<real>): (c: seq<real>)
    requires |a| == |b|
    ensures |c| == |a| && forall i :: 0 <= i < |a| ==> c[i] == a[i] + b[i]
  {
    seq(|a|, i requires 0 <= i < |a| => a[i] + b[i])
  }

  /** A vector of `n` components that is zero but for `c` at place `i`. */
  function Along(n: nat, i: nat, c: real): (v: seq<real>)
    ensures |v| == n && forall k :: 0 <= k < n ==> v[k] == if k == i then c else 0.0
  {
    seq(n, k requires 0 <= k < n => if k == i then c else 0.0)
  }

  /** The similarity is the scalar product: additive in each vector, and along one
      component the product of that component. */
  lemma {:induction false} SimilarityAdds(a: seq<real>, b: seq<real>, c: seq<real>)
    requires |a| == |b| == |c|
    ensures Similarity(a, Plus(b, c)) == Similarity(a, b) + Similarity(a, c)
  {
    if a != [] {
      SimilarityAdds(a[1..], b[1..], c[1..]);
      assert Plus(b, c)[1..] == Plus(b[1..], c[1..]);
    }
  }

  lemma {:induction false} SimilarityAlong(a: seq<real>, i: nat, c: real)
    ensures Similarity(a, Along(|a|, i, c)) == if i < |a| then a[i] * c else 0.0
  {
    if a != [] {
      if i == 0 {
        SimilarityAlong(a[1..], |a|, c);
        assert Along(|a|, 0, c)[1..] == Along(|a| - 1, |a|, c);
      } else {
        SimilarityAlong(a[1..], i - 1, c);
        assert Along(|a|, i, c)[1..] == Along(|a| - 1, i - 1, c);
      }
    }
  }

  predicate Distinct(s: seq<nat>) { forall i, j :: 0 <= i < j < |s| ==> s[i] != s[j] }

  /** A permutation of the first `n` numbers. */
  predicate Permutes(ranked: seq<nat>, n: nat) {
    && |ranked| == n
    && Distinct(ranked)
    && (forall i :: 0 <= i < n ==> ranked[i] < n)
  }

  /** Whether `a` belongs before `b`: a higher score, or an equal one and an
      earlier place in the input. */
  predicate Before(scores: seq<real>, a: nat, b: nat)
    requires a < |scores| && b < |scores|
  {
    scores[a] > scores[b] || (scores[a] == scores[b] && a < b)
  }

  predicate InOrder(scores: seq<real>, ranked: seq<nat>)
    requires forall i :: 0 <= i < |ranked| ==> ranked[i] < |scores|
  {
    forall i, j :: 0 <= i < j < |ranked| ==> Before(scores, ranked[i], ranked[j])
  }

  /** Stable sort of the chunk indices by falling similarity. */
  method RankBySimilarity(query: seq<real>, vectors: seq<seq<real>>) returns (ranked: seq<nat>)
    ensures Permutes(ranked, |vectors|)
    ensures InOrder(seq(|vectors|, i requires 0 <= i < |vectors| => Similarity(query, vectors[i])), ranked)
  {
    var scores := seq(|vectors|, i requires 0 <= i < |vectors| => Similarity(query, vectors[i]));
    ranked := [];
    for n := 0 to |vectors|
      invariant Permutes(ranked, n)
      invariant InOrder(scores, ranked)
    {
      var p := n;
      while p > 0 && scores[ranked[p - 1]] < scores[n]
        invariant 0 <= p <= n
        invariant forall j :: p <= j < n ==> scores[ranked[j]] < scores[n]
      {
        p := p - 1;
      }
      InsertKeepsOrder(scores, ranked, p, n);
      hide InOrder, Permutes;
      ranked := Insert(ranked, p, n);
    }
  }

  function Insert(ranked: seq<nat>, p: nat, n: nat): (r: seq<nat>)
    requires p <= |ranked|
    ensures |r| == |ranked| + 1
    ensures forall i :: 0 <= i < |r| ==> r[i] == if i < p then ranked[i] else if i == p then n else ranked[i - 1]
  {
    ranked[..p] + [n] + ranked[p..]
  }

  lemma InsertKeepsOrder(scores: seq<real>, ranked: seq<nat>, p: nat, n: nat)
    requires Permutes(ranked, n) && n < |scores| && InOrder(scores, ranked)
    requires p <= n && (p > 0 ==> scores[ranked[p - 1]] >= scores[n])
    requires forall j :: p <= j < n ==> scores[ranked[j]] < scores[n]
    ensures Permutes(Insert(ranked, p, n), n + 1)
    ensures InOrder(scores, Insert(ranked, p, n))
  {
    var r := Insert(ranked, p, n);
    forall i, j | 0 <= i < j < n + 1 ensures r[i] < n + 1 && r[j] < n + 1 && Before(scores, r[i], r[j]) {
      InsertedPair(scores, ranked, p, n, i, j);
    }
    assert n == 0 ==> r == [n];
    assert forall i {:trigger r[i]} :: 0 <= i < n ==> r[i] < n + 1 && r[i + 1] < n + 1;
  }

  lemma InsertedPair(scores: seq<real>, ranked: seq<nat>, p: nat, n: nat, i: nat, j: nat)
    requires Permutes(ranked, n) && n < |scores| && InOrder(scores, ranked)
    requires p <= n && (p > 0 ==> scores[ranked[p - 1]] >= scores[n])
    requires forall j :: p <= j < n ==> scores[ranked[j]] < scores[n]
    requires i < j < n + 1
    ensures
      var r := Insert(ranked, p, n);
      r[i] < n + 1 && r[j] < n + 1 && r[i] != r[j] && Before(scores, r[i], r[j])
  {
    var r := Insert(ranked, p, n);
    hide Insert;
    assert r[i] == if i < p then ranked[i] else if i == p then n else ranked[i - 1];
    assert r[j] == if j < p then ranked[j] else if j == p then n else ranked[j - 1];
    if i == p {
    } else if j == p {
      assert i < p - 1 ==> Before(scores, ranked[i], ranked[p - 1]);
    } else {
      var (a, b) := (if i < p then i else i - 1, if j < p then j else j - 1);
      assert Before(scores, ranked[a], ranked[b]);
    }
  }

  /** The order is fully determined: no two rankings meet the contract above. */
  lemma {:induction false} OrderUnique(scores: seq<real>, r: seq<nat>, s: seq<nat>)
    requires Permutes(r, |scores|) && Permutes(s, |scores|)
    requires InOrder(scores, r) && InOrder(scores, s)
    ensures r == s
  {
    forall i: nat | i < |r| ensures r[i] == s[i] {
      AgreeAt(scores, r, s, i);
    }
  }

  lemma {:induction false} AgreeAt(scores: seq<real>, r: seq<nat>, s: seq<nat>, i: nat)
    requires Permutes(r, |scores|) && Permutes(s, |scores|)
    requires InOrder(scores, r) && InOrder(scores, s)
    requires i < |scores|
    ensures r[i] == s[i]
    decreases i
  {
    forall j: nat | j < i ensures r[j] == s[j] {
      AgreeAt(scores, r, s, j);
    }
    NextIsLeast(scores, r, s, i);
    NextIsLeast(scores, s, r, i);
  }

  lemma NextIsLeast(scores: seq<real>, r: seq<nat>, s: seq<nat>, i: nat)
    requires Permutes(r, |scores|) && Permutes(s, |scores|) && InOrder(scores, r)
    requires i < |scores| && forall j :: 0 <= j < i ==> r[j] == s[j]
    ensures r[i] == s[i] || Before(scores, r[i], s[i])
  {
    PermutationReaches(r, |scores|, s[i]);
    var j: nat :| j < |r| && r[j] == s[i];
    assert i <= j;
  }

  lemma {:induction false} PermutationReaches(ranked: seq<nat>, n: nat, x: nat)
    requires Permutes(ranked, n) && x < n
    ensures x in ranked
  {
    DistinctCount(ranked, Below(n));
    AllHits(ranked, Below(n));
  }

  /** The first `n` numbers. */
  function Below(n: nat): (r: set<nat>)
    ensures |r| == n && forall y: nat :: y in r <==> y < n
  {
    if n == 0 then {} else Below(n - 1) + {n - 1}
  }

  lemma {:induction false} SubsetCount<T>(a: set<T>, b: set<T>)
    requires a <= b
    ensures |a| <= |b|
    ensures |a| == |b| ==> a == b
  {
    assert b == a + (b - a);
    assert |b| == |a| + |b - a|;
  }

  // ------------------------------------------------------------------------ hits

  /** How many entries of a list are relevant. */
  function Hits(ranked: seq<nat>, relevant: set<nat>): (h: nat)
    ensures h <= |ranked|
  {
    if ranked == [] then 0
    else
      var n := |ranked| - 1;
      Hits(ranked[..n], relevant) + if ranked[n] in relevant then 1 else 0
  }

  function Top<T>(s: seq<T>, k: nat): seq<T> { s[..Min(k, |s|)] }

  lemma {:induction false} AllHits(ranked: seq<nat>, relevant: set<nat>)
    ensures Hits(ranked, relevant) == |ranked| <==> forall x :: x in ranked ==> x in relevant
  {
    if ranked != [] {
      var n := |ranked| - 1;
      AllHits(ranked[..n], relevant);
      assert ranked == ranked[..n] + [ranked[n]];
    }
  }

  lemma {:induction false} HitsGrow(ranked: seq<nat>, relevant: set<nat>, m: nat, n: nat)
    requires m <= n <= |ranked|
    ensures Hits(ranked[..m], relevant) <= Hits(ranked[..n], relevant)
    ensures Hits(ranked[..n], relevant) - Hits(ranked[..m], relevant) <= n - m
    decreases n
  {
    if m < n {
      HitsGrow(ranked, relevant, m, n - 1);
      assert ranked[..n][..n - 1] == ranked[..n - 1];
    }
  }

  lemma LeadingHits(ranked: seq<nat>, relevant: set<nat>, m: nat)
    requires m <= |ranked|
    ensures (forall i :: 0 <= i < m ==> ranked[i] in relevant) ==> Hits(ranked, relevant) >= m
  {
    AllHits(ranked[..m], relevant);
    HitsGrow(ranked, relevant, m, |ranked|);
    assert ranked[..|ranked|] == ranked;
  }

  function Found(ranked: seq<nat>, relevant: set<nat>): set<nat> { set x | x in ranked && x in relevant }

  lemma {:induction false} HitsAreFound(ranked: seq<nat>, relevant: set<nat>)
    requires Distinct(ranked)
    ensures Hits(ranked, relevant) == |Found(ranked, relevant)|
  {
    if ranked == [] {
      assert Found(ranked, relevant) == {};
    } else {
      var n := |ranked| - 1;
      HitsAreFound(ranked[..n], relevant);
      assert ranked == ranked[..n] + [ranked[n]];
      assert ranked[n] !in ranked[..n];
      if ranked[n] in relevant {
        assert Found(ranked, relevant) == Found(ranked[..n], relevant) + {ranked[n]};
      } else {
        assert Found(ranked, relevant) == Found(ranked[..n], relevant);
      }
    }
  }

  /** Without repetition, the hits are as many as the relevant items listed. */
  lemma DistinctCount(ranked: seq<nat>, relevant: set<nat>)
    requires Distinct(ranked)
    ensures Hits(ranked, relevant) <= |relevant|
    ensures Hits(ranked, relevant) == |relevant| <==> forall x :: x in relevant ==> x in ranked
  {
    HitsAreFound(ranked, relevant);
    SubsetCount(Found(ranked, relevant), relevant);
    if forall x :: x in relevant ==> x in ranked {
      assert Found(ranked, relevant) == relevant;
    }
  }

  // ----------------------------------------------------- reciprocal rank, recall

  predicate IsFirstRelevant(ranked: seq<nat>, relevant: set<nat>, i: nat) {
    i < |ranked| && ranked[i] in relevant && forall j :: 0 <= j < i ==> ranked[j] !in relevant
  }

  function Reciprocal(i: nat): (r: real)
    ensures r > 0.0 && Times(r, i as real + 1.0) == 1.0
  {
    var x := i as real + 1.0;
    assert 1.0 / x * x == 1.0;
    1.0 / x
  }

  /** The reciprocal of the first relevant position among the first `k`. */
  method MrrAtK(ranked: seq<nat>, relevant: set<nat>, k: nat) returns (r: real)
    ensures Hits(Top(ranked, k), relevant) == 0 ==> r == 0.0
    ensures Hits(Top(ranked, k), relevant) > 0 ==> exists i: nat ::
      i < |ranked| && i < k && ranked[i] in relevant && Hits(ranked[..i], relevant) == 0 && r == Reciprocal(i)
    // The same without counting.
    ensures r == 0.0 <==> forall i :: 0 <= i < |ranked| && i < k ==> ranked[i] !in relevant
    ensures forall i: nat | IsFirstRelevant(ranked, relevant, i) && i < k :: r == Reciprocal(i)
  {
    hide Reciprocal;
    for i := 0 to Min(k, |ranked|)
      invariant Hits(ranked[..i], relevant) == 0
      invariant forall j :: 0 <= j < i ==> ranked[j] !in relevant
    {
      assert ranked[..i + 1][..i] == ranked[..i];
      if ranked[i] in relevant {
        HitsGrow(ranked, relevant, i + 1, Min(k, |ranked|));
        return Reciprocal(i);
      }
    }
    return 0.0;
  }

  /** Hits over the number of relevant items; `None` is the quotient 0/0. */
  function Recall(hits: nat, totalRelevant: nat): Option<real> {
    if totalRelevant == 0 then None else Some(hits as real / totalRelevant as real)
  }

  function RecallAtK(ranked: seq<nat>, relevant: set<nat>, k: nat): Option<real> {
    Recall(Hits(Top(ranked, k), relevant), |relevant|)
  }

  /** A recall lies between 0 and 1; it is 1 just when the list examined holds
      every relevant item. */
  lemma RecallOfDistinct(examined: seq<nat>, relevant: set<nat>)
    requires Distinct(examined) && relevant != {}
    ensures
      var r := Recall(Hits(examined, relevant), |relevant|);
      r.Some? && 0.0 <= r.value <= 1.0 &&
      (r.value == 1.0 <==> forall x :: x in relevant ==> x in examined)
  {
    DistinctCount(examined, relevant);
    Quotient(Hits(examined, relevant) as real, |relevant| as real);
  }

  /** The recall times the number of relevant items is the number of those found
      among the first `k`; without relevant items there is none. */
  lemma RecallCounts(ranked: seq<nat>, relevant: set<nat>, k: nat)
    requires Distinct(ranked)
    ensures var r := RecallAtK(ranked, relevant, k);
      var found := set x | x in relevant && exists i :: 0 <= i < |ranked| && i < k && ranked[i] == x;
      if relevant == {} then r == None else r.Some? && r.value * |relevant| as real == |found| as real
  {
    var top := Top(ranked, k);
    HitsAreFound(top, relevant);
    var found := set x | x in relevant && exists i :: 0 <= i < |ranked| && i < k && ranked[i] == x;
    assert Found(top, relevant) == found by {
      forall x | x in found ensures x in top {
        var i :| 0 <= i < |ranked| && i < k && ranked[i] == x;
        assert top[i] == x;
      }
    }
    hide Hits, Found, Top;
    if relevant != {} {
      TimesQuotient(|found| as real, |relevant| as real);
    }
  }

  lemma Quotient(a: real, b: real)
    requires 0.0 <= a <= b && b > 0.0
    ensures 0.0 <= a / b <= 1.0
    ensures a / b == 1.0 <==> a == b
  {
    var q := a / b;
    assert q * b == a;
    assert q > 1.0 ==> q * b > b;
    assert q < 0.0 ==> q * b < 0.0;
  }

  lemma FractionsOrdered(a: nat, b: nat, total: nat)
    requires a <= b && total > 0
    ensures a as real / total as real <= b as real / total as real
  {
    var (p, q) := (a as real / total as real, b as real / total as real);
    assert p * total as real == a as real && q * total as real == b as real;
    assert p > q ==> (p - q) * total as real > 0.0;
  }

  lemma RecallAtKGrows(ranked: seq<nat>, relevant: set<nat>, k: nat, l: nat)
    requires relevant != {} && k <= l
    ensures RecallAtK(ranked, relevant, k).value <= RecallAtK(ranked, relevant, l).value
  {
    HitsGrow(ranked, relevant, Min(k, |ranked|), Min(l, |ranked|));
    FractionsOrdered(Hits(Top(ranked, k), relevant), Hits(Top(ranked, l), relevant), |relevant|);
  }

  // ------------------------------------------------------- recall within a budget

  predicate Priced(ranked: seq<nat>, tokenCounts: seq<nat>) {
    forall i :: 0 <= i < |ranked| ==> ranked[i] < |tokenCounts|
  }

  function Cost(ranked: seq<nat>, tokenCounts: seq<nat>): nat
    requires Priced(ranked, tokenCounts)
  {
    if ranked == [] then 0
    else Cost(ranked[..|ranked| - 1], tokenCounts) + tokenCounts[ranked[|ranked| - 1]]
  }

  /** The length of the longest prefix that a budget pays for. */
  function Affordable(ranked: seq<nat>, tokenCounts: seq<nat>, budget: nat): (n: nat)
    requires Priced(ranked, tokenCounts)
    ensures n <= |ranked|
    ensures Cost(ranked[..n], tokenCounts) <= budget
    ensures forall m :: n < m <= |ranked| ==> Cost(ranked[..m], tokenCounts) > budget
  {
    if Cost(ranked, tokenCounts) <= budget then
      assert ranked[..|ranked|] == ranked;
      |ranked|
    else
      var init := ranked[..|ranked| - 1];
      var n := Affordable(init, tokenCounts, budget);
      assert forall m :: 0 <= m <= |init| ==> init[..m] == ranked[..m];
      assert ranked[..|ranked|] == ranked;
      n
  }

  lemma {:induction false} CostGrows(ranked: seq<nat>, tokenCounts: seq<nat>, m: nat, n: nat)
    requires m <= n <= |ranked| && Priced(ranked, tokenCounts)
    ensures Cost(ranked[..m], tokenCounts) <= Cost(ranked[..n], tokenCounts)
    decreases n
  {
    if m < n {
      CostGrows(ranked, tokenCounts, m, n - 1);
      assert ranked[..n][..n - 1] == ranked[..n - 1];
    }
  }

  /** Adding up costs in rank order until the budget would overflow examines
      exactly the longest affordable prefix. */
  method RecallAtBudget(ranked: seq<nat>, relevant: set<nat>, tokenCounts: seq<nat>, budget: nat, totalRelevant: nat)
    returns (r: Option<real>)
    requires Priced(ranked, tokenCounts)
    ensures r == Recall(Hits(ranked[..Affordable(ranked, tokenCounts, budget)], relevant), totalRelevant)
  {
    var used, hits, n := 0, 0, 0;
    while n < |ranked|
      invariant 0 <= n <= |ranked|
      invariant used == Cost(ranked[..n], tokenCounts) <= budget
      invariant hits == Hits(ranked[..n], relevant)
    {
      var index := ranked[n];
      assert ranked[..n + 1][..n] == ranked[..n];
      if used + tokenCounts[index] > budget {
        break;
      }
      used := used + tokenCounts[index];
      if index in relevant {
        hits := hits + 1;
      }
      n := n + 1;
    }
    ghost var most := Affordable(ranked, tokenCounts, budget);
    assert n == most by {
      if n < most {
        CostGrows(ranked, tokenCounts, n + 1, most);
      }
    }
    return Recall(hits, totalRelevant);
  }

  /** A larger budget never lowers the recall, which a budget for the whole
      ranking brings to 1. */
  lemma RecallGrowsWithBudget(ranked: seq<nat>, relevant: set<nat>, tokenCounts: seq<nat>, less: nat, more: nat)
    requires Permutes(ranked, |tokenCounts|)
    requires relevant != {} && forall x :: x in relevant ==> x < |tokenCounts|
    requires less <= more
    ensures
      var (m, n) := (Affordable(ranked, tokenCounts, less), Affordable(ranked, tokenCounts, more));
      var (r, s) := (Recall(Hits(ranked[..m], relevant), |relevant|), Recall(Hits(ranked[..n], relevant), |relevant|));
      m <= n && 0.0 <= r.value <= s.value <= 1.0 && (more >= Cost(ranked, tokenCounts) ==> s.value == 1.0)
  {
    var (m, n) := (Affordable(ranked, tokenCounts, less), Affordable(ranked, tokenCounts, more));
    HitsGrow(ranked, relevant, m, n);
    FractionsOrdered(Hits(ranked[..m], relevant), Hits(ranked[..n], relevant), |relevant|);
    RecallOfDistinct(ranked[..m], relevant);
    RecallOfDistinct(ranked[..n], relevant);
    hide Hits, Affordable;
    if more >= Cost(ranked, tokenCounts) {
      assert ranked[..|ranked|] == ranked && n == |ranked|;
      forall x | x in relevant ensures x in ranked[..n] {
        PermutationReaches(ranked, |tokenCounts|, x);
      }
    }
  }

  // ------------------------------------------------------------------------ nDCG

  ghost predicate Weights(w: nat -> real) {
    (forall i: nat :: w(i) > 0.0) && (forall i: nat, j: nat :: i < j ==> w(i) > w(j))
  }

  /** The weights of the positions that hold a relevant item, summed. */
  function Gain(w: nat -> real, ranked: seq<nat>, relevant: set<nat>): real {
    if ranked == [] then 0.0
    else
      var n := |ranked| - 1;
      Gain(w, ranked[..n], relevant) + if ranked[n] in relevant then w(n) else 0.0
  }

  /** The gain of `hits` relevant items ranked first. */
  function IdealGain(w: nat -> real, hits: nat): real {
    if hits == 0 then 0.0 else IdealGain(w, hits - 1) + w(hits - 1)
  }

  function NdcgAtK(w: nat -> real, ranked: seq<nat>, relevant: set<nat>, k: nat, totalRelevant: nat): real {
    var ideal := IdealGain(w, Min(totalRelevant, k));
    if ideal == 0.0 then 0.0 else Gain(w, Top(ranked, k), relevant) / ideal
  }

  lemma {:induction false} IdealGrows(w: nat -> real, m: nat, n: nat)
    requires Weights(w) && m <= n
    ensures 0.0 <= IdealGain(w, m) <= IdealGain(w, n)
    ensures m < n ==> IdealGain(w, m) < IdealGain(w, n)
    decreases n
  {
    if m < n {
      IdealGrows(w, m, n - 1);
    } else if n > 0 {
      IdealGrows(w, n - 1, n - 1);
    }
  }

  /** The gain of a list is at most that of its hits ranked first, and equal
      only when they are ranked first. */
  lemma {:induction false} GainAtMostIdeal(w: nat -> real, ranked: seq<nat>, relevant: set<nat>)
    requires Weights(w)
    ensures 0.0 <= Gain(w, ranked, relevant) <= IdealGain(w, Hits(ranked, relevant))
    ensures Gain(w, ranked, relevant) == IdealGain(w, Hits(ranked, relevant)) <==>
      forall i :: 0 <= i < Hits(ranked, relevant) ==> ranked[i] in relevant
  {
    if ranked != [] {
      var n := |ranked| - 1;
      GainAtMostIdeal(w, ranked[..n], relevant);
      var h := Hits(ranked[..n], relevant);
      assert forall i :: 0 <= i < h ==> ranked[..n][i] == ranked[i];
      if ranked[n] in relevant && h < n {
        assert w(n) < w(h);
        LeadingHits(ranked[..n], relevant, h + 1);
      }
    }
  }

  /** nDCG times the ideal gain is the gain of the first `k` places. */
  lemma NdcgIsQuotient(w: nat -> real, ranked: seq<nat>, relevant: set<nat>, k: nat, totalRelevant: nat)
    requires Weights(w)
    ensures var ideal := IdealGain(w, if totalRelevant < k then totalRelevant else k);
      var gain := Gain(w, if k < |ranked| then ranked[..k] else ranked, relevant);
      var r := NdcgAtK(w, ranked, relevant, k, totalRelevant);
      if totalRelevant == 0 || k == 0 then r == 0.0 else ideal > 0.0 && Times(r, ideal) == gain
  {
    IdealGrows(w, 0, Min(totalRelevant, k));
    var top := if k < |ranked| then ranked[..k] else ranked;
    assert Top(ranked, k) == top;
    hide Gain, IdealGain, Weights, Top;
    QuotientTimes(Gain(w, top, relevant), IdealGain(w, Min(totalRelevant, k)));
  }

  lemma QuotientTimes(a: real, b: real)
    ensures b > 0.0 ==> Times(a / b, b) == a
  {
  }

  /** The gain counts each place that holds a relevant item with its weight. */
  lemma {:induction false} GainAdds(w: nat -> real, ranked: seq<nat>, a: set<nat>, b: set<nat>)
    requires a !! b
    ensures Gain(w, ranked, a + b) == Gain(w, ranked, a) + Gain(w, ranked, b)
  {
    if ranked != [] {
      GainAdds(w, ranked[..|ranked| - 1], a, b);
    }
  }

  lemma {:induction false} GainOfOne(w: nat -> real, ranked: seq<nat>, i: nat)
    requires Distinct(ranked) && i < |ranked|
    ensures Gain(w, ranked, {ranked[i]}) == w(i)
  {
    var n := |ranked| - 1;
    if i < n {
      GainOfOne(w, ranked[..n], i);
    } else {
      GainOfNone(w, ranked[..n], {ranked[i]});
    }
  }

  lemma {:induction false} GainOfNone(w: nat -> real, ranked: seq<nat>, relevant: set<nat>)
    requires forall x :: x in ranked ==> x !in relevant
    ensures Gain(w, ranked, relevant) == 0.0
  {
    if ranked != [] {
      GainOfNone(w, ranked[..|ranked| - 1], relevant);
    }
  }

  /** nDCG lies between 0 and 1, and is 1 exactly when something is relevant,
      `k` is positive and relevant items fill the first min(relevant, k) places. */
  lemma NdcgNormalised(w: nat -> real, ranked: seq<nat>, relevant: set<nat>, k: nat)
    requires Weights(w) && Distinct(ranked)
    ensures
      var r := NdcgAtK(w, ranked, relevant, k, |relevant|);
      var ideal := Min(|relevant|, k);
      0.0 <= r <= 1.0 &&
      (r == 1.0 <==> (relevant != {} && k > 0 && ideal <= |ranked| &&
        forall i :: 0 <= i < ideal ==> ranked[i] in relevant))
  {
    var top := Top(ranked, k);
    var (h, m) := (Hits(top, relevant), Min(|relevant|, k));
    DistinctCount(top, relevant);
    assert h <= m;
    GainAtMostIdeal(w, top, relevant);
    IdealGrows(w, h, m);
    IdealGrows(w, 0, m);
    if m > 0 {
      Quotient(Gain(w, top, relevant), IdealGain(w, m));
      if m <= |ranked| && forall i :: 0 <= i < m ==> ranked[i] in relevant {
        LeadingHits(top, relevant, m);
      }
    }
  }

  /** On a permutation of the chunks every ideal place exists. */
  lemma NdcgOfPermutation(w: nat -> real, ranked: seq<nat>, n: nat, relevant: set<nat>, k: nat)
    requires Weights(w) && Permutes(ranked, n)
    requires forall x :: x in relevant ==> x < n
    ensures
      var r := NdcgAtK(w, ranked, relevant, k, |relevant|);
      Min(|relevant|, k) <= |ranked| && 0.0 <= r <= 1.0 &&
      (r == 1.0 <==> relevant != {} && k > 0 && forall i :: 0 <= i < Min(|relevant|, k) ==> ranked[i] in relevant)
  {
    SubsetCount(relevant, Below(n));
    NdcgNormalised(w, ranked, relevant, k);
  }
}
