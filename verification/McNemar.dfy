/** The exact McNemar test of the paired benchmark statistics, in exact
    arithmetic: outcomes per task, the four pair counts, and the p-value. */
module McNemar {
  import opened Text
  import opened Numbers

  // -------------------------------------------------------------------- outcomes

  datatype Task = Task(id: string, resolved: Option<bool>, passed: Option<bool>, success: Option<bool>)

  /** The first outcome field that a task has. */
  function Outcome(t: Task): Option<bool> {
    if t.resolved.Some? then t.resolved else if t.passed.Some? then t.passed else t.success
  }

  /** The outcomes of one task in record order. */
  function OutcomesOf(tasks: seq<Task>, id: string): seq<bool> {
    if tasks == [] then []
    else
      var (init, t) := (tasks[..|tasks| - 1], tasks[|tasks| - 1]);
      OutcomesOf(init, id) + (if t.id == id && Outcome(t).Some? then [Outcome(t).value] else [])
  }

  function Passes(outcomes: seq<bool>): nat {
    if outcomes == [] then 0
    else Passes(outcomes[..|outcomes| - 1]) + if outcomes[|outcomes| - 1] then 1 else 0
  }

  predicate Recorded(tasks: seq<Task>, id: string) { exists t :: t in tasks && t.id == id }

  lemma RecordedNext(tasks: seq<Task>, i: nat)
    requires i < |tasks|
    ensures forall id :: Recorded(tasks[..i + 1], id) <==> Recorded(tasks[..i], id) || id == tasks[i].id
  {
    assert tasks[..i + 1] == tasks[..i] + [tasks[i]];
    forall id | Recorded(tasks[..i], id) || id == tasks[i].id ensures Recorded(tasks[..i + 1], id) {
      if id == tasks[i].id {
        assert tasks[i] in tasks[..i + 1];
      } else {
        var t :| t in tasks[..i] && t.id == id;
        assert t in tasks[..i + 1];
      }
    }
  }

  lemma {:induction false} NoOutcomes(tasks: seq<Task>, id: string)
    ensures !Recorded(tasks, id) ==> OutcomesOf(tasks, id) == []
  {
    if tasks != [] {
      var n := |tasks| - 1;
      NoOutcomes(tasks[..n], id);
      assert tasks[..n + 1] == tasks;
      RecordedNext(tasks, n);
    }
  }

  /** What grouping keeps: the outcomes of every task recorded so far. */
  ghost predicate Gathered(byTask: map<string, seq<bool>>, tasks: seq<Task>) {
    && (forall id :: id in byTask <==> Recorded(tasks, id))
    && (forall id :: id in byTask ==> byTask[id] == OutcomesOf(tasks, id))
  }

  lemma GatherNext(byTask: map<string, seq<bool>>, tasks: seq<Task>, t: Task)
    requires Gathered(byTask, tasks) && Outcome(t).Some?
    ensures Gathered(
      byTask[t.id := (if t.id in byTask then byTask[t.id] else []) + [Outcome(t).value]], tasks + [t])
  {
    var all := tasks + [t];
    NoOutcomes(tasks, t.id);
    RecordedNext(all, |tasks|);
    assert all[..|tasks|] == tasks && all[..|tasks| + 1] == all;
    hide Recorded;
  }

  /** Whether a record says that its task passed: by its first outcome field. */
  predicate SaysPassed(t: Task) {
    || t.resolved == Some(true)
    || (t.resolved == None && t.passed == Some(true))
    || (t.resolved == None && t.passed == None && t.success == Some(true))
  }

  predicate SaysAnything(t: Task) { t.resolved != None || t.passed != None || t.success != None }

  /** The records of one task, and those that say it passed. */
  function RecordsOf(tasks: seq<Task>, id: string): set<nat> { set i: nat | i < |tasks| && tasks[i].id == id }

  function PassingRecordsOf(tasks: seq<Task>, id: string): set<nat> {
    set i: nat | i < |tasks| && tasks[i].id == id && SaysPassed(tasks[i])
  }

  lemma RecordsNext(tasks: seq<Task>, id: string)
    requires tasks != []
    ensures var (init, t) := (tasks[..|tasks| - 1], tasks[|tasks| - 1]);
      && |RecordsOf(tasks, id)| == |RecordsOf(init, id)| + (if t.id == id then 1 else 0)
      && |PassingRecordsOf(tasks, id)|
         == |PassingRecordsOf(init, id)| + (if t.id == id && SaysPassed(t) then 1 else 0)
  {
    var (n, t) := (|tasks| - 1, tasks[|tasks| - 1]);
    hide SaysPassed;
    var (records, passing) := (RecordsOf(tasks[..n], id), PassingRecordsOf(tasks[..n], id));
    assert RecordsOf(tasks, id) == if t.id == id then records + {n} else records;
    assert PassingRecordsOf(tasks, id) == if t.id == id && SaysPassed(t) then passing + {n} else passing;
  }

  lemma {:induction false} OutcomesCounted(tasks: seq<Task>, id: string)
    requires forall t :: t in tasks ==> SaysAnything(t)
    ensures |OutcomesOf(tasks, id)| == |RecordsOf(tasks, id)|
    ensures Passes(OutcomesOf(tasks, id)) == |PassingRecordsOf(tasks, id)|
  {
    if tasks == [] {
      assert RecordsOf(tasks, id) == {} && PassingRecordsOf(tasks, id) == {};
    } else {
      var (init, t) := (tasks[..|tasks| - 1], tasks[|tasks| - 1]);
      OutcomesCounted(init, id);
      RecordsNext(tasks, id);
      assert t in tasks && Outcome(t).Some? && (Outcome(t).value <==> SaysPassed(t));
      PassesSnoc(OutcomesOf(init, id), Outcome(t).value);
      hide RecordsOf, PassingRecordsOf, Passes, SaysPassed, Outcome;
    }
  }

  lemma PassesSnoc(outcomes: seq<bool>, b: bool)
    ensures Passes(outcomes + [b]) == Passes(outcomes) + if b then 1 else 0
    ensures outcomes + [] == outcomes
  {
    assert (outcomes + [b])[..|outcomes|] == outcomes;
  }

  /** One outcome for each task: the majority of its records, ties passing. A
      record without an outcome is an error. */
  method TaskOutcomes(tasks: seq<Task>) returns (r: Result<map<string, bool>, string>)
    ensures r.Ok? <==> forall t :: t in tasks ==> Outcome(t).Some?
    ensures r.Ok? ==> forall id :: id in r.value <==> Recorded(tasks, id)
    ensures r.Ok? ==> forall id :: id in r.value ==>
      (r.value[id] <==> 2 * Passes(OutcomesOf(tasks, id)) >= |OutcomesOf(tasks, id)|)
    ensures r.Ok? <==> forall t :: t in tasks ==> SaysAnything(t)
    ensures r.Ok? ==> forall id :: id in r.value ==>
      (r.value[id] <==> 2 * |PassingRecordsOf(tasks, id)| >= |RecordsOf(tasks, id)|)
  {
    var byTask: map<string, seq<bool>> := map[];
    for i := 0 to |tasks|
      invariant forall t :: t in tasks[..i] ==> Outcome(t).Some?
      invariant Gathered(byTask, tasks[..i])
    {
      var t := tasks[i];
      assert tasks[..i + 1] == tasks[..i] + [t];
      if Outcome(t).None? {
        return Err(t.id);
      }
      GatherNext(byTask, tasks[..i], t);
      hide Gathered, Recorded;
      byTask := byTask[t.id := (if t.id in byTask then byTask[t.id] else []) + [Outcome(t).value]];
    }
    assert tasks[..|tasks|] == tasks;
    forall id
      ensures |OutcomesOf(tasks, id)| == |RecordsOf(tasks, id)|
      ensures Passes(OutcomesOf(tasks, id)) == |PassingRecordsOf(tasks, id)|
    {
      OutcomesCounted(tasks, id);
    }
    hide RecordsOf, PassingRecordsOf, Passes, OutcomesOf;
    return Ok(map id | id in byTask :: 2 * Passes(byTask[id]) >= |byTask[id]|);
  }

  // ------------------------------------------------------------------- binomials

  function Comb(n: nat, k: nat): nat {
    if k == 0 then 1 else if n == 0 then 0 else Comb(n - 1, k - 1) + Comb(n - 1, k)
  }

  function Factorial(n: nat): nat { if n == 0 then 1 else n * Factorial(n - 1) }

  function Power2(n: nat): (p: nat)
    ensures p > 0
  {
    if n == 0 then 1 else 2 * Power2(n - 1)
  }

  /** The first `m` entries of row `n`. */
  function Head(n: nat, m: nat): nat { if m == 0 then 0 else Head(n, m - 1) + Comb(n, m - 1) }

  lemma {:induction false} CombOutside(n: nat, k: nat)
    requires k > n
    ensures Comb(n, k) == 0
  {
    if n > 0 {
      CombOutside(n - 1, k - 1);
      CombOutside(n - 1, k);
    }
  }

  lemma {:induction false} CombSymmetric(n: nat, k: nat)
    requires k <= n
    ensures Comb(n, k) == Comb(n, n - k)
  {
    if k == n && n > 0 {
      CombOutside(n - 1, n);
      CombSymmetric(n - 1, n - 1);
    } else if 0 < k {
      CombSymmetric(n - 1, k - 1);
      CombSymmetric(n - 1, k);
    } else if n > 0 {
      CombOutside(n - 1, n);
      CombSymmetric(n - 1, 0);
    }
  }

  lemma SplitProduct(a: int, b: int, k: int, f: int, x: int, g: int)
    ensures (a + b) * ((k * f) * (x * g)) == k * (a * (f * (x * g))) + x * (b * ((k * f) * g))
  {
    var (u, v) := (f * (x * g), (k * f) * g);
    assert (k * f) * (x * g) == k * u by { MulAssociates(k, f, x * g); }
    assert (k * f) * (x * g) == x * v by {
      MulAssociates(k * f, x, g);
      MulAssociates(x, k * f, g);
    }
    MulAssociates(a, k, u);
    MulAssociates(b, x, v);
    MulAssociates(k, a, u);
    MulAssociates(x, b, v);
  }

  lemma MulAssociates(a: int, b: int, c: int)
    ensures (a * b) * c == a * (b * c)
  {
  }

  /** Pascal's rule gives the quotient of factorials. */
  lemma {:induction false} CombIsFactorialQuotient(n: nat, k: nat)
    requires k <= n
    ensures Comb(n, k) * (Factorial(k) * Factorial(n - k)) == Factorial(n)
  {
    if k == 0 {
    } else if k == n {
      CombOutside(n - 1, n);
      CombIsFactorialQuotient(n - 1, n - 1);
      assert Comb(n, n) * Factorial(n) == n * (Comb(n - 1, n - 1) * Factorial(n - 1));
    } else {
      CombIsFactorialQuotient(n - 1, k - 1);
      CombIsFactorialQuotient(n - 1, k);
      var (a, b) := (Comb(n - 1, k - 1), Comb(n - 1, k));
      var (f, g) := (Factorial(k - 1), Factorial(n - k - 1));
      var (x, y) := (n - k, Factorial(n - 1));
      assert a * (f * (x * g)) == y && b * ((k * f) * g) == y by {
        assert Factorial(n - k) == x * g && Factorial(k) == k * f;
      }
      SplitProduct(a, b, k, f, x, g);
      hide Comb, Factorial;
      assert (k + x) * y == k * y + x * y;
    }
  }

  lemma {:induction false} HeadPascal(n: nat, m: nat)
    requires n > 0
    ensures Head(n, m) == Head(n - 1, m) + if m == 0 then 0 else Head(n - 1, m - 1)
  {
    if m > 0 {
      HeadPascal(n, m - 1);
    }
  }

  /** A row sums to a power of two. */
  lemma {:induction false} RowSum(n: nat)
    ensures Head(n, n + 1) == Power2(n)
  {
    if n > 0 {
      RowSum(n - 1);
      HeadPascal(n, n + 1);
      CombOutside(n - 1, n);
    } else {
      assert Head(0, 1) == Head(0, 0) + Comb(0, 0);
    }
  }

  // --------------------------------------------------------------------- p-value

  /** The p-value of `b` and `c` discordant pairs, as the test computes it. */
  function PValue(b: nat, c: nat): real {
    var n := b + c;
    if n == 0 then 1.0
    else
      var tail := Head(n, Min(b, c) + 1) as real / Power2(n) as real;
      if 2.0 * tail < 1.0 then 2.0 * tail else 1.0
  }

  /** How far an outcome is from an even split, doubled. */
  function Distance(n: nat, i: nat): nat { if 2 * i >= n then 2 * i - n else n - 2 * i }

  /** The binomial weight of the first `m` outcomes at least `d` from even. */
  function Extreme(n: nat, d: nat, m: nat): nat {
    if m == 0 then 0
    else Extreme(n, d, m - 1) + if Distance(n, m - 1) >= d then Comb(n, m - 1) else 0
  }

  /** The probability, over a fair coin for each discordant pair, of a split at
      least as uneven as the one observed. */
  function TwoSidedMass(b: nat, c: nat): real {
    Extreme(b + c, Distance(b + c, b), b + c + 1) as real / Power2(b + c) as real
  }

  lemma {:induction false} ExtremeAll(n: nat, m: nat)
    ensures Extreme(n, 0, m) == Head(n, m)
  {
    if m > 0 {
      ExtremeAll(n, m - 1);
    }
  }

  /** Both tails of an uneven split: the upper mirrors the lower. */
  lemma {:induction false} ExtremeTails(n: nat, k: nat, m: nat)
    requires 2 * k < n && m <= n + 1
    ensures Extreme(n, n - 2 * k, m) ==
      if m <= k + 1 then Head(n, m)
      else if m <= n - k then Head(n, k + 1)
      else Head(n, k + 1) + Head(n, k + 1) - Head(n, n + 1 - m)
  {
    if m > 0 {
      ExtremeTails(n, k, m - 1);
      CombSymmetric(n, m - 1);
    }
  }

  lemma {:induction false} HeadPositive(n: nat, m: nat)
    requires m > 0
    ensures Head(n, m) > 0
  {
    if m > 1 {
      HeadPositive(n, m - 1);
    } else {
      assert Head(n, 1) == Head(n, 0) + Comb(n, 0);
    }
  }

  lemma {:induction false} ExtremeBelowHead(n: nat, d: nat, m: nat)
    ensures Extreme(n, d, m) <= Head(n, m)
  {
    if m > 0 {
      ExtremeBelowHead(n, d, m - 1);
    }
  }

  /** The lower half of an even row, its middle counted, is over half of it. */
  lemma {:induction false} HalfRow(k: nat)
    ensures 2 * Head(2 * k, k + 1) == Power2(2 * k) + Comb(2 * k, k)
    ensures Comb(2 * k, k) > 0
  {
    MirroredHead(2 * k, k);
    RowSum(2 * k);
    CombPositive(2 * k, k);
  }

  lemma {:induction false} CombPositive(n: nat, k: nat)
    requires k <= n
    ensures Comb(n, k) > 0
  {
    if k > 0 {
      CombPositive(n - 1, k - 1);
    }
  }

  /** The last `m` entries of a row sum to what the first `m` do. */
  lemma {:induction false} MirroredHead(n: nat, m: nat)
    requires m <= n + 1
    ensures Head(n, n + 1) == Head(n, n + 1 - m) + Head(n, m)
  {
    if m > 0 {
      MirroredHead(n, m - 1);
      CombSymmetric(n, m - 1);
    }
  }

  /** In whole numbers: an even split weighs the whole row, and its two tails
      overlap; an uneven one weighs its two tails, which do not. */
  lemma TailCounts(b: nat, c: nat)
    ensures var (n, k) := (b + c, Min(b, c));
      if b == c then
        Extreme(n, Distance(n, b), n + 1) == Power2(n) && Power2(n) < 2 * Head(n, k + 1)
      else
        Extreme(n, Distance(n, b), n + 1) == 2 * Head(n, k + 1) && 2 * Head(n, k + 1) <= Power2(n)
  {
    var (n, k) := (b + c, Min(b, c));
    RowSum(n);
    if b == c {
      assert n == 2 * k && Distance(n, b) == 0;
      ExtremeAll(n, n + 1);
      HalfRow(k);
    } else {
      assert Distance(n, b) == n - 2 * k;
      ExtremeTails(n, k, n + 1);
      ExtremeBelowHead(n, n - 2 * k, n + 1);
    }
  }

  lemma CompareToOne(x: real, p: real)
    requires p > 0.0
    ensures x / p > 1.0 <==> x > p
    ensures x / p >= 1.0 <==> x >= p
  {
    var y := x / p;
    TimesQuotient(x, p);
    assert (y - 1.0) * p == x - p;
  }

  lemma TwiceQuotient(x: real, p: real)
    requires p > 0.0
    ensures 2.0 * (x / p) == (2.0 * x) / p
  {
    var (y, z) := (x / p, (2.0 * x) / p);
    TimesQuotient(x, p);
    TimesQuotient(2.0 * x, p);
    assert (2.0 * y - z) * p == 0.0;
  }

  lemma TwiceFraction(h: nat, p: nat)
    requires p > 0
    ensures 2.0 * (h as real / p as real) == (2 * h) as real / p as real
    ensures (2 * h) as real / p as real > 1.0 <==> 2 * h > p
    ensures (2 * h) as real / p as real >= 1.0 <==> 2 * h >= p
    ensures p as real / p as real == 1.0
  {
    assert (2 * h) as real == 2.0 * h as real;
    TwiceQuotient(h as real, p as real);
    CompareToOne((2 * h) as real, p as real);
  }

  /** The p-value is the two-sided binomial mass, for every pair of counts. */
  lemma PValueIsTwoSidedMass(b: nat, c: nat)
    ensures PValue(b, c) == TwoSidedMass(b, c)
  {
    TailCounts(b, c);
    TwiceFraction(Head(b + c, Min(b, c) + 1), Power2(b + c));
    if b + c > 0 {
      hide Head, Extreme, Power2, Distance;
    }
  }

  /** Swapping the conditions changes nothing; a p-value is a probability and
      never zero; and it is cut at one only for an even split. */
  lemma PValueShape(b: nat, c: nat)
    ensures PValue(b, c) == PValue(c, b)
    ensures 0.0 < PValue(b, c) <= 1.0
    ensures b + c > 0 ==>
      (2.0 * (Head(b + c, Min(b, c) + 1) as real / Power2(b + c) as real) > 1.0 <==> b == c)
  {
    TailCounts(b, c);
    HeadPositive(b + c, Min(b, c) + 1);
    var (h, p) := (Head(b + c, Min(b, c) + 1), Power2(b + c));
    TwiceFraction(h, p);
    hide Head, Extreme, Power2, Distance;
    assert h as real / p as real > 0.0;
  }

  // --------------------------------------------------------------------- the test

  datatype TestResult = TestResult(
    nPaired: nat,
    bothPass: nat,
    bothFail: nat,
    baselineOnly: nat,
    conditionOnly: nat,
    discordant: nat,
    pValue: real,
    significant: bool)

  function Pairs(baseline: map<string, bool>, condition: map<string, bool>, x: bool, y: bool): set<string> {
    set t | t in baseline && t in condition && baseline[t] == x && condition[t] == y
  }

  function Exact(baseline: map<string, bool>, condition: map<string, bool>): Result<TestResult, string> {
    var shared := baseline.Keys * condition.Keys;
    if shared == {} then Err("no shared task_ids between the two conditions")
    else
      var both := |Pairs(baseline, condition, true, true)|;
      var b := |Pairs(baseline, condition, true, false)|;
      var c := |Pairs(baseline, condition, false, true)|;
      var neither := |Pairs(baseline, condition, false, false)|;
      var p := PValue(b, c);
      Ok(TestResult(|shared|, both, neither, b, c, b + c, p, p < 0.05))
  }

  lemma PairsPartition(baseline: map<string, bool>, condition: map<string, bool>)
    ensures |baseline.Keys * condition.Keys| ==
      |Pairs(baseline, condition, true, true)| + |Pairs(baseline, condition, true, false)| +
      |Pairs(baseline, condition, false, true)| + |Pairs(baseline, condition, false, false)|
  {
    var (p, q) := (Pairs(baseline, condition, true, true), Pairs(baseline, condition, true, false));
    var (s, t) := (Pairs(baseline, condition, false, true), Pairs(baseline, condition, false, false));
    assert baseline.Keys * condition.Keys == p + q + s + t;
    assert p !! q && (p + q) !! s && (p + q + s) !! t;
  }

  /** Each shared task is in exactly one of the four counts, which count what their
      names say, and the test says what the mass of its discordant counts says. */
  lemma ExactCounts(baseline: map<string, bool>, condition: map<string, bool>)
    ensures Exact(baseline, condition).Err? <==> !exists t :: t in baseline && t in condition
    ensures Exact(baseline, condition).Ok? ==>
      var r := Exact(baseline, condition).value;
      && r.nPaired == |set t | t in baseline && t in condition|
      && r.bothPass == |set t | t in baseline && t in condition && baseline[t] && condition[t]|
      && r.bothFail == |set t | t in baseline && t in condition && !baseline[t] && !condition[t]|
      && r.baselineOnly == |set t | t in baseline && t in condition && baseline[t] && !condition[t]|
      && r.conditionOnly == |set t | t in baseline && t in condition && !baseline[t] && condition[t]|
      && r.bothPass + r.bothFail + r.baselineOnly + r.conditionOnly == r.nPaired
      && r.discordant == r.baselineOnly + r.conditionOnly
      && r.pValue == TwoSidedMass(r.baselineOnly, r.conditionOnly)
      && (r.significant <==> r.pValue < 0.05)
  {
    PairsPartition(baseline, condition);
    PairsMean(baseline, condition);
    var (q, s) := (Pairs(baseline, condition, true, false), Pairs(baseline, condition, false, true));
    PValueIsTwoSidedMass(|q|, |s|);
    hide PValue, TwoSidedMass, Pairs;
    assert baseline.Keys * condition.Keys == set t | t in baseline && t in condition;
    if exists t :: t in baseline && t in condition {
      var t :| t in baseline && t in condition;
      assert t in baseline.Keys * condition.Keys;
    }
  }

  lemma PairsMean(baseline: map<string, bool>, condition: map<string, bool>)
    ensures Pairs(baseline, condition, true, true)
         == set t | t in baseline && t in condition && baseline[t] && condition[t]
    ensures Pairs(baseline, condition, true, false)
         == set t | t in baseline && t in condition && baseline[t] && !condition[t]
    ensures Pairs(baseline, condition, false, true)
         == set t | t in baseline && t in condition && !baseline[t] && condition[t]
    ensures Pairs(baseline, condition, false, false)
         == set t | t in baseline && t in condition && !baseline[t] && !condition[t]
  {
  }
}
