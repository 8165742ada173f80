/** The quadratic latency fit of the embedding benchmark, in exact arithmetic:
    normal equations summed in a loop and solved by Cramer's rule. */
module QuadraticFit {
  import opened Text
  import opened Numbers

  // ----------------------------------------------------------------- 3x3 systems

  type Matrix = seq<seq<real>>

  predicate Square(m: Matrix) { |m| == 3 && |m[0]| == 3 && |m[1]| == 3 && |m[2]| == 3 }

  function Det(m: Matrix): real
    requires Square(m)
  {
    m[0][0] * (m[1][1] * m[2][2] - m[1][2] * m[2][1])
    - m[0][1] * (m[1][0] * m[2][2] - m[1][2] * m[2][0])
    + m[0][2] * (m[1][0] * m[2][1] - m[1][1] * m[2][0])
  }

  function Product(row: seq<real>, x: seq<real>): real
    requires |row| == 3 && |x| == 3
  {
    row[0] * x[0] + row[1] * x[1] + row[2] * x[2]
  }

  predicate Solves(m: Matrix, x: seq<real>, v: seq<real>)
    requires Square(m) && |v| == 3
  {
    |x| == 3 && Product(m[0], x) == v[0] && Product(m[1], x) == v[1] && Product(m[2], x) == v[2]
  }

  /** The matrix with one column replaced. */
  function Replaced(m: Matrix, col: nat, v: seq<real>): Matrix
    requires Square(m) && |v| == 3 && col < 3
  {
    [m[0][col := v[0]], m[1][col := v[1]], m[2][col := v[2]]]
  }

  /** The determinants with each column replaced in turn. */
  function Numerators(m: Matrix, v: seq<real>): (k: seq<real>)
    requires Square(m) && |v| == 3
    ensures |k| == 3
  {
    [Det(Replaced(m, 0, v)), Det(Replaced(m, 1, v)), Det(Replaced(m, 2, v))]
  }

  lemma NumeratorAt(m: Matrix, v: seq<real>, col: nat)
    requires Square(m) && |v| == 3 && col < 3
    ensures Numerators(m, v)[col] == Det(Replaced(m, col, v))
  {
  }

  const TOLERANCE := 0.000000001

  /** Cramer's rule finds a solution, and the only one, unless the determinant
      is within the tolerance of zero. */
  method Solve3x3(m: Matrix, v: seq<real>) returns (r: Option<seq<real>>)
    requires Square(m) && |v| == 3
    ensures r.None? <==> Abs(Det(m)) < TOLERANCE
    ensures r.Some? ==> Solves(m, r.value, v)
    ensures r.Some? ==> forall x :: Solves(m, x, v) ==> x == r.value
  {
    hide Det, Product, Numerators;
    var d := Det(m);
    if Abs(d) < TOLERANCE {
      return None;
    }
    var result := [0.0, 0.0, 0.0];
    ghost var k := Numerators(m, v);
    for col := 0 to 3
      invariant |result| == 3
      invariant forall j :: 0 <= j < col ==> result[j] * d == k[j]
    {
      var mc := m;
      for row := 0 to 3
        invariant |mc| == 3
        invariant forall i :: 0 <= i < 3 ==> mc[i] == if i < row then m[i][col := v[i]] else m[i]
      {
        mc := mc[row := mc[row][col := v[row]]];
      }
      assert mc == Replaced(m, col, v);
      NumeratorAt(m, v, col);
      TimesQuotient(k[col], d);
      result := result[col := Det(mc) / d];
    }
    CramerSolves(m, result, v);
    forall x | Solves(m, x, v) ensures x == result {
      CramerDetermines(m, x, result, v);
    }
    return Some(result);
  }

  lemma CramerSolves(m: Matrix, x: seq<real>, v: seq<real>)
    requires Square(m) && |v| == 3 && |x| == 3 && Det(m) != 0.0
    requires forall j :: 0 <= j < 3 ==> x[j] * Det(m) == Numerators(m, v)[j]
    ensures Solves(m, x, v)
  {
    hide Det, Product, Numerators;
    forall i: nat | i < 3 ensures Product(m[i], x) == v[i] {
      Expansion(m, v, i);
      RowSolved(m[i], x, Det(m), v[i], Numerators(m, v));
    }
  }

  lemma Cancel(a: real, b: real, d: real)
    requires a * d == b * d && d != 0.0
    ensures a == b
  {
    assert (a - b) * d == 0.0;
  }

  lemma RowSolved(row: seq<real>, x: seq<real>, d: real, v: real, k: seq<real>)
    requires |row| == 3 && |x| == 3 && |k| == 3 && d != 0.0
    requires forall j :: 0 <= j < 3 ==> x[j] * d == k[j]
    requires Product(row, k) == v * d
    ensures Product(row, x) == v
  {
    calc {
      Product(row, x) * d;
      row[0] * (x[0] * d) + row[1] * (x[1] * d) + row[2] * (x[2] * d);
      Product(row, k);
    }
    Cancel(Product(row, x), v, d);
  }

  lemma Expansion(m: Matrix, v: seq<real>, i: nat)
    requires Square(m) && |v| == 3 && i < 3
    ensures Product(m[i], Numerators(m, v)) == v[i] * Det(m)
  {
    if i == 0 {
      FirstExpansion(m, v);
    } else if i == 1 {
      SecondExpansion(m, v);
    } else {
      ThirdExpansion(m, v);
    }
  }

  lemma FirstExpansion(m: Matrix, v: seq<real>)
    requires Square(m) && |v| == 3
    ensures Product(m[0], Numerators(m, v)) == v[0] * Det(m)
  {
  }

  lemma SecondExpansion(m: Matrix, v: seq<real>)
    requires Square(m) && |v| == 3
    ensures Product(m[1], Numerators(m, v)) == v[1] * Det(m)
  {
  }

  lemma ThirdExpansion(m: Matrix, v: seq<real>)
    requires Square(m) && |v| == 3
    ensures Product(m[2], Numerators(m, v)) == v[2] * Det(m)
  {
  }

  lemma CramerDetermines(m: Matrix, x: seq<real>, y: seq<real>, v: seq<real>)
    requires Square(m) && |v| == 3 && Det(m) != 0.0
    requires Solves(m, x, v) && Solves(m, y, v)
    ensures x == y
  {
    forall j: nat | j < 3 ensures x[j] == y[j] {
      SolutionScaled(m, x, v, j);
      SolutionScaled(m, y, v, j);
      Cancel(x[j], y[j], Det(m));
    }
  }

  lemma SolutionScaled(m: Matrix, x: seq<real>, v: seq<real>, j: nat)
    requires Square(m) && |v| == 3 && Solves(m, x, v) && j < 3
    ensures x[j] * Det(m) == Det(Replaced(m, j, v))
  {
  }

  // --------------------------------------------------------------- least squares

  datatype Row = Row(batch: nat, actualN: real, medianMs: real)

  type Point = (real, real)

  /** The measured points of one batch size. */
  function Points(rows: seq<Row>, batch: nat): seq<Point> {
    if rows == [] then []
    else
      var (init, r) := (rows[..|rows| - 1], rows[|rows| - 1]);
      Points(init, batch) + if r.batch == batch then [(r.actualN, r.medianMs)] else []
  }

  predicate IsPlace(places: seq<nat>, i: nat) { exists k :: 0 <= k < |places| && places[k] == i }

  /** Points that are those of the rows at some ascending places, which are the
      places of the batch: length first. */
  predicate Picks(rows: seq<Row>, batch: nat, places: seq<nat>, pts: seq<Point>) {
    && |places| == |pts|
    && (forall k, l :: 0 <= k < l < |places| ==> places[k] < places[l])
    && (forall k :: 0 <= k < |places| ==>
          && places[k] < |rows| && rows[places[k]].batch == batch
          && pts[k] == (rows[places[k]].actualN, rows[places[k]].medianMs))
    && (forall i: nat :: i < |rows| && rows[i].batch == batch ==> IsPlace(places, i))
  }

  lemma PickOne(rows: seq<Row>, batch: nat, places: seq<nat>, pts: seq<Point>, r: Row)
    requires Picks(rows, batch, places, pts)
    ensures if r.batch == batch then Picks(rows + [r], batch, places + [|rows|], pts + [(r.actualN, r.medianMs)])
            else Picks(rows + [r], batch, places, pts)
  {
    var (all, more) := (rows + [r], places + [|rows|]);
    forall i: nat | i < |all| && all[i].batch == batch
      ensures i < |rows| ==> IsPlace(places, i)
      ensures r.batch == batch ==> IsPlace(more, i)
    {
      if i < |rows| {
        assert IsPlace(places, i);
        var k :| 0 <= k < |places| && places[k] == i;
        assert more[k] == i;
      } else {
        assert more[|places|] == i;
      }
    }
  }

  /** The points fitted are the rows of the batch, in row order. */
  lemma {:induction false} PointsOfBatch(rows: seq<Row>, batch: nat) returns (places: seq<nat>)
    ensures Picks(rows, batch, places, Points(rows, batch))
  {
    if rows == [] {
      places := [];
    } else {
      var (init, r) := (rows[..|rows| - 1], rows[|rows| - 1]);
      places := PointsOfBatch(init, batch);
      PickOne(init, batch, places, Points(init, batch), r);
      assert init + [r] == rows && Points(init, batch) + [] == Points(init, batch);
      hide Picks;
      if r.batch == batch {
        places := places + [|init|];
      }
    }
  }

  datatype Quadratic = Quadratic(a: real, b: real, c: real) {
    function At(x: real): real { a + b * x + c * (x * x) }

    function Plus(d: Quadratic): Quadratic { Quadratic(a + d.a, b + d.b, c + d.c) }

    function Minus(d: Quadratic): Quadratic { Quadratic(a - d.a, b - d.b, c - d.c) }

    function Coefficients(): seq<real> { [a, b, c] }
  }

  /** The sum of squared residuals. */
  function SquaredError(pts: seq<Point>, q: Quadratic): real {
    if pts == [] then 0.0
    else
      var (init, p) := (pts[..|pts| - 1], pts[|pts| - 1]);
      SquaredError(init, q) + Squared(p.1 - q.At(p.0))
  }

  datatype Sums = Sums(n: real, x: real, x2: real, x3: real, x4: real, y: real, xy: real, x2y: real) {
    function Add(px: real, py: real): Sums {
      var px2 := px * px;
      Sums(n + 1.0, x + px, x2 + px2, x3 + px2 * px, x4 + px2 * px2, y + py, xy + px * py, x2y + px2 * py)
    }

    function Normal(): Matrix { [[n, x, x2], [x, x2, x3], [x2, x3, x4]] }

    function Target(): seq<real> { [y, xy, x2y] }

    /** How far a quadratic is from solving the normal equations: the residuals
        summed against 1, x and x squared. */
    function Gradient(q: Quadratic): Quadratic {
      Quadratic(
        y - (n * q.a + x * q.b + x2 * q.c),
        xy - (x * q.a + x2 * q.b + x3 * q.c),
        x2y - (x2 * q.a + x3 * q.b + x4 * q.c))
    }
  }

  const NO_SUMS := Sums(0.0, 0.0, 0.0, 0.0, 0.0, 0.0, 0.0, 0.0)

  function SumsOf(pts: seq<Point>): Sums {
    if pts == [] then NO_SUMS
    else SumsOf(pts[..|pts| - 1]).Add(pts[|pts| - 1].0, pts[|pts| - 1].1)
  }

  datatype Fit = TooFew | Degenerate | Fitted(q: Quadratic)

  ghost predicate Minimises(pts: seq<Point>, q: Quadratic) {
    forall other :: SquaredError(pts, q) <= SquaredError(pts, other)
  }

  /** The fit of one batch size. The quadratic it finds is the only one with the
      least sum of squared residuals. */
  method FitBatch(rows: seq<Row>, batch: nat) returns (r: Fit)
    ensures r.TooFew? <==> |Points(rows, batch)| < 3
    ensures r.Degenerate? <==>
      |Points(rows, batch)| >= 3 && Abs(Det(SumsOf(Points(rows, batch)).Normal())) < TOLERANCE
    ensures WholeLengths(Points(rows, batch)) ==>
      (r.Degenerate? <==>
        |Points(rows, batch)| >= 3 && !exists i: nat, j: nat, k: nat :: Spread(Points(rows, batch), i, j, k))
    ensures r.Fitted? ==> Minimises(Points(rows, batch), r.q)
    ensures r.Fitted? ==> forall other :: Minimises(Points(rows, batch), other) ==> other == r.q
  {
    hide Det, Product, SumsOf, Points, WholeLengths, Spread;
    var pts := Points(rows, batch);
    if WholeLengths(pts) {
      SkippedExactly(pts);
    }
    if |pts| < 3 {
      return TooFew;
    }
    var n := |pts| as real;
    var sx, sx2, sx3, sx4 := 0.0, 0.0, 0.0, 0.0;
    var sy, sxy, sx2y := 0.0, 0.0, 0.0;
    NoPoints(pts);
    for i := 0 to |pts|
      invariant SumsOf(pts[..i]) == Sums(i as real, sx, sx2, sx3, sx4, sy, sxy, sx2y)
    {
      SumsNext(pts, i);
      var (x, y) := pts[i];
      var x2 := x * x;
      sx := sx + x;
      sx2 := sx2 + x2;
      sx3 := sx3 + x2 * x;
      sx4 := sx4 + x2 * x2;
      sy := sy + y;
      sxy := sxy + x * y;
      sx2y := sx2y + x2 * y;
    }
    assert pts[..|pts|] == pts;
    var m := [[n, sx, sx2], [sx, sx2, sx3], [sx2, sx3, sx4]];
    var v := [sy, sxy, sx2y];
    assert m == SumsOf(pts).Normal() && v == SumsOf(pts).Target();
    var solution := Solve3x3(m, v);
    match solution {
      case None => return Degenerate;
      case Some(s) =>
        var q := Quadratic(s[0], s[1], s[2]);
        assert q.Coefficients() == s;
        SolutionMinimises(pts, q);
        return Fitted(q);
    }
  }

  lemma NoPoints(pts: seq<Point>)
    ensures SumsOf(pts[..0]) == NO_SUMS
  {
  }

  lemma SumsNext(pts: seq<Point>, i: nat)
    requires i < |pts|
    ensures SumsOf(pts[..i + 1]) == SumsOf(pts[..i]).Add(pts[i].0, pts[i].1)
  {
    assert pts[..i + 1][..i] == pts[..i];
  }

  function Along(d: Quadratic, g: Quadratic): real { d.a * g.a + d.b * g.b + d.c * g.c }

  /** A change of the quadratic changes the error by a linear term in the
      gradient and the sum of the squared changes. */
  lemma {:induction false} ErrorOfChange(pts: seq<Point>, q: Quadratic, d: Quadratic)
    ensures
      var g := SumsOf(pts).Gradient(q);
      SquaredError(pts, q.Plus(d)) ==
        SquaredError(pts, q) - 2.0 * Along(d, g) + Energy(pts, d)
  {
    if pts != [] {
      var (init, p) := (pts[..|pts| - 1], pts[|pts| - 1]);
      ErrorOfChange(init, q, d);
      LastPoint(init, p, q.Plus(d));
      LastPoint(init, p, q);
      LastPoint(init, p, d);
      GradientStep(SumsOf(init), q, p.0, p.1);
      AlongStep(d, SumsOf(init).Gradient(q), p.0, p.1 - q.At(p.0));
      AtOfPlus(q, d, p.0);
      SquareOfChange(p.1, q.At(p.0), d.At(p.0));
      hide *;
      assert pts == init + [p];
    }
  }

  lemma LastPoint(init: seq<Point>, p: Point, q: Quadratic)
    ensures SquaredError(init + [p], q) == SquaredError(init, q) + Squared(p.1 - q.At(p.0))
    ensures Energy(init + [p], q) == Energy(init, q) + Squared(q.At(p.0))
    ensures SumsOf(init + [p]) == SumsOf(init).Add(p.0, p.1)
  {
    hide Sums.Add, Quadratic.At;
    assert (init + [p])[..|init|] == init;
  }

  lemma AtOfPlus(q: Quadratic, d: Quadratic, x: real)
    ensures q.Plus(d).At(x) == q.At(x) + d.At(x)
  {
  }

  lemma SquareOfChange(y: real, v: real, e: real)
    ensures Squared(y - (v + e)) == Squared(y - v) - 2.0 * Times(y - v, e) + Squared(e)
  {
  }

  /** A gradient after one more point with residual `r` at `x`. */
  function Step(g: Quadratic, x: real, r: real): Quadratic {
    Quadratic(g.a + r, g.b + x * r, g.c + x * x * r)
  }

  lemma GradientStep(s: Sums, q: Quadratic, x: real, y: real)
    ensures s.Add(x, y).Gradient(q) == Step(s.Gradient(q), x, y - q.At(x))
  {
    GradientStepA(s, q, x, y);
    GradientStepB(s, q, x, y);
    GradientStepC(s, q, x, y);
    hide *;
  }

  lemma GradientStepA(s: Sums, q: Quadratic, x: real, y: real)
    ensures s.Add(x, y).Gradient(q).a == Step(s.Gradient(q), x, y - q.At(x)).a
  {
    assert (s.x + x) * q.b == s.x * q.b + q.b * x;
    assert (s.x2 + x * x) * q.c == s.x2 * q.c + q.c * (x * x);
  }

  lemma Spread3(u: real, v: real, a: real, w: real, b: real, z: real, c: real, x: real, y: real, t: real)
    ensures (u + x) * a + (v + y) * b + (w + z) * c + t
         == (u * a + v * b + w * c) + (x * a + y * b + z * c) + t
  {
    assert (u + x) * a == u * a + x * a;
    assert (v + y) * b == v * b + y * b;
    assert (w + z) * c == w * c + z * c;
  }

  lemma GradientStepB(s: Sums, q: Quadratic, x: real, y: real)
    ensures s.Add(x, y).Gradient(q).b == Step(s.Gradient(q), x, y - q.At(x)).b
  {
    var x2 := x * x;
    Spread3(s.x, s.x2, q.a, s.x3, q.b, x2 * x, q.c, x, x2, 0.0);
    ResidualTimes(x, x, y, q);
    assert x * x2 == x2 * x;
  }

  lemma GradientStepC(s: Sums, q: Quadratic, x: real, y: real)
    ensures s.Add(x, y).Gradient(q).c == Step(s.Gradient(q), x, y - q.At(x)).c
  {
    var x2 := x * x;
    Spread3(s.x2, s.x3, q.a, s.x4, q.b, x2 * x2, q.c, x2, x2 * x, 0.0);
    ResidualTimes(x2, x, y, q);
  }

  lemma ResidualTimes(w: real, x: real, y: real, q: Quadratic)
    ensures w * (y - q.At(x)) == w * y - (w * q.a + w * x * q.b + w * (x * x) * q.c)
  {
  }

  lemma AlongStep(d: Quadratic, g: Quadratic, x: real, r: real)
    ensures Along(d, Step(g, x, r)) == Along(d, g) + Times(r, d.At(x))
  {
  }

  /** The sum of the squared values of a quadratic. */
  function Energy(pts: seq<Point>, d: Quadratic): (e: real)
    ensures e >= 0.0
  {
    if pts == [] then 0.0
    else Energy(pts[..|pts| - 1], d) + Squared(d.At(pts[|pts| - 1].0))
  }

  predicate Vanishes(pts: seq<Point>, d: Quadratic) { forall p :: p in pts ==> d.At(p.0) == 0.0 }

  lemma {:induction false} NoEnergyVanishes(pts: seq<Point>, d: Quadratic)
    requires Energy(pts, d) == 0.0
    ensures Vanishes(pts, d)
  {
    if pts != [] {
      var (init, p) := (pts[..|pts| - 1], pts[|pts| - 1]);
      hide Squared, Quadratic.At;
      NoEnergyVanishes(init, d);
      assert pts == init + [p];
    }
  }

  /** What one more point adds to the rows of the normal equations. */
  lemma RowsAtPoint(s: Sums, d: Quadratic, x: real, y: real)
    ensures
      var (m, n, k, v) := (s.Normal(), s.Add(x, y).Normal(), d.Coefficients(), d.At(x));
      Product(n[0], k) == Product(m[0], k) + v &&
      Product(n[1], k) == Product(m[1], k) + Times(x, v) &&
      Product(n[2], k) == Product(m[2], k) + Times(x * x, v)
  {
    RowGrows(s.Normal()[0], s.Add(x, y).Normal()[0], 1.0, x, d);
    RowGrows(s.Normal()[1], s.Add(x, y).Normal()[1], x, x, d);
    RowGrows(s.Normal()[2], s.Add(x, y).Normal()[2], x * x, x, d);
    hide Product, Quadratic.At;
  }

  lemma RowGrows(row: seq<real>, next: seq<real>, w: real, x: real, d: Quadratic)
    requires |row| == 3 && |next| == 3
    requires next[0] == row[0] + w && next[1] == row[1] + w * x && next[2] == row[2] + w * (x * x)
    ensures Product(next, d.Coefficients()) == Product(row, d.Coefficients()) + Times(w, d.At(x))
  {
  }

  /** The homogeneous normal equations say that a quadratic vanishes on the points. */
  lemma {:induction false} VanishingSolves(pts: seq<Point>, d: Quadratic)
    requires Vanishes(pts, d)
    ensures Solves(SumsOf(pts).Normal(), d.Coefficients(), [0.0, 0.0, 0.0])
  {
    if pts != [] {
      var (init, p) := (pts[..|pts| - 1], pts[|pts| - 1]);
      assert pts == init + [p];
      VanishingSolves(init, d);
      LastPoint(init, p, d);
      RowsAtPoint(SumsOf(init), d, p.0, p.1);
      hide Product, Quadratic.At, Sums.Add, Sums.Normal, SumsOf;
    }
  }

  lemma {:induction false} SolvingVanishes(pts: seq<Point>, d: Quadratic)
    requires Solves(SumsOf(pts).Normal(), d.Coefficients(), [0.0, 0.0, 0.0])
    ensures Vanishes(pts, d)
  {
    EnergyOfForm(pts, d);
    NoEnergyVanishes(pts, d);
  }

  function Form(m: Matrix, d: Quadratic): real
    requires Square(m)
  {
    var k := d.Coefficients();
    d.a * Product(m[0], k) + d.b * Product(m[1], k) + d.c * Product(m[2], k)
  }

  /** The energy is the quadratic form of the normal matrix. */
  lemma {:induction false} EnergyOfForm(pts: seq<Point>, d: Quadratic)
    ensures Energy(pts, d) == Form(SumsOf(pts).Normal(), d)
  {
    if pts != [] {
      var (init, p) := (pts[..|pts| - 1], pts[|pts| - 1]);
      EnergyOfForm(init, d);
      LastPoint(init, p, d);
      FormAtPoint(SumsOf(init), d, p.0, p.1);
      hide *;
      assert pts == init + [p];
    }
  }

  lemma FormAtPoint(s: Sums, d: Quadratic, x: real, y: real)
    ensures Form(s.Add(x, y).Normal(), d) == Form(s.Normal(), d) + Squared(d.At(x))
  {
    RowsAtPoint(s, d, x, y);
    var (m, k) := (s.Normal(), d.Coefficients());
    FormStep(d, Product(m[0], k), Product(m[1], k), Product(m[2], k), x);
    hide Product, Quadratic.At, Sums.Add, Sums.Normal, Times, Squared;
  }

  lemma FormStep(d: Quadratic, a: real, b: real, c: real, x: real)
    ensures
      var v := d.At(x);
      d.a * (a + v) + d.b * (b + Times(x, v)) + d.c * (c + Times(x * x, v)) == d.a * a + d.b * b + d.c * c + Squared(v)
  {
  }

  lemma SolutionMinimises(pts: seq<Point>, q: Quadratic)
    requires Det(SumsOf(pts).Normal()) != 0.0
    requires Solves(SumsOf(pts).Normal(), q.Coefficients(), SumsOf(pts).Target())
    ensures Minimises(pts, q)
    ensures forall other :: Minimises(pts, other) ==> other == q
  {
    hide Det, Solves, SumsOf, Sums.Normal, SquaredError, Energy;
    forall other ensures SquaredError(pts, other) == SquaredError(pts, q) + Energy(pts, other.Minus(q)) {
      ErrorAboveMinimum(pts, q, other);
    }
    forall other | Minimises(pts, other) ensures other == q {
      assert SquaredError(pts, other) <= SquaredError(pts, q);
      NoEnergyNoChange(pts, other.Minus(q));
    }
  }

  lemma ErrorAboveMinimum(pts: seq<Point>, q: Quadratic, other: Quadratic)
    requires Solves(SumsOf(pts).Normal(), q.Coefficients(), SumsOf(pts).Target())
    ensures SquaredError(pts, other) == SquaredError(pts, q) + Energy(pts, other.Minus(q))
  {
    var (d, s) := (other.Minus(q), SumsOf(pts));
    assert q.Plus(d) == other;
    ErrorOfChange(pts, q, d);
    SolutionHasNoGradient(s, q, d);
    hide *;
  }

  lemma SolutionHasNoGradient(s: Sums, q: Quadratic, d: Quadratic)
    requires Solves(s.Normal(), q.Coefficients(), s.Target())
    ensures Along(d, s.Gradient(q)) == 0.0
  {
    assert s.Gradient(q) == Quadratic(0.0, 0.0, 0.0);
  }

  lemma NoEnergyNoChange(pts: seq<Point>, d: Quadratic)
    requires Det(SumsOf(pts).Normal()) != 0.0 && Energy(pts, d) == 0.0
    ensures d == Quadratic(0.0, 0.0, 0.0)
  {
    hide Det;
    NoEnergyVanishes(pts, d);
    VanishingSolves(pts, d);
    var zero := [0.0, 0.0, 0.0];
    assert Solves(SumsOf(pts).Normal(), zero, zero);
    CramerDetermines(SumsOf(pts).Normal(), d.Coefficients(), zero, zero);
    assert d.Coefficients() == [d.a, d.b, d.c];
  }

  // ------------------------------------------------------------------ degeneracy

  predicate Spread(pts: seq<Point>, i: nat, j: nat, k: nat) {
    i < |pts| && j < |pts| && k < |pts| && pts[i].0 != pts[j].0 && pts[i].0 != pts[k].0 && pts[j].0 != pts[k].0
  }

  /** The normal equations are singular exactly when the measurements have at
      most two different lengths. */
  lemma DegenerateExactly(pts: seq<Point>)
    ensures Det(SumsOf(pts).Normal()) != 0.0 <==> exists i: nat, j: nat, k: nat :: Spread(pts, i, j, k)
  {
    hide Det, Product;
    if exists i: nat, j: nat, k: nat :: Spread(pts, i, j, k) {
      var i: nat, j: nat, k: nat :| Spread(pts, i, j, k);
      SpreadIsRegular(pts, i, j, k);
    } else {
      var p, q := TwoLengths(pts);
      TwoLengthsSingular(pts, p, q);
    }
  }

  lemma TwoLengths(pts: seq<Point>) returns (p: real, q: real)
    requires !exists i: nat, j: nat, k: nat :: Spread(pts, i, j, k)
    ensures forall t :: t in pts ==> t.0 == p || t.0 == q
  {
    if pts == [] {
      return 0.0, 0.0;
    }
    p, q := pts[0].0, pts[0].0;
    if j: nat :| j < |pts| && pts[j].0 != p {
      q := pts[j].0;
      forall k: nat | k < |pts| ensures pts[k].0 == p || pts[k].0 == q {
        assert !Spread(pts, 0, j, k);
      }
    }
  }

  /** A quadratic with roots at both lengths solves the homogeneous system. */
  lemma TwoLengthsSingular(pts: seq<Point>, p: real, q: real)
    requires forall t :: t in pts ==> t.0 == p || t.0 == q
    ensures Det(SumsOf(pts).Normal()) == 0.0
  {
    var d := Quadratic(p * q, -p - q, 1.0);
    forall t | t in pts ensures d.At(t.0) == 0.0 {
      assert d.At(t.0) == (t.0 - p) * (t.0 - q);
    }
    VanishingSolves(pts, d);
    var m := SumsOf(pts).Normal();
    var zero := [0.0, 0.0, 0.0];
    assert Solves(m, zero, zero);
    hide Det, Product;
    if Det(m) != 0.0 {
      CramerDetermines(m, d.Coefficients(), zero, zero);
    }
  }

  lemma ThreeRoots(d: Quadratic, p: real, q: real, r: real)
    requires d.At(p) == 0.0 && d.At(q) == 0.0 && d.At(r) == 0.0
    requires p != q && p != r && q != r
    ensures d == Quadratic(0.0, 0.0, 0.0)
  {
    TwoRoots(d, p, q);
    TwoRoots(d, p, r);
    assert d.c * (q - r) == (d.b + d.c * (p + q)) - (d.b + d.c * (p + r)) == 0.0;
    Cancel(d.c, 0.0, q - r);
    assert d.b == 0.0 && d.a == 0.0;
  }

  lemma TwoRoots(d: Quadratic, p: real, q: real)
    requires d.At(p) == 0.0 && d.At(q) == 0.0 && p != q
    ensures d.b + d.c * (p + q) == 0.0
  {
    var s := d.b + d.c * (p + q);
    assert s * (p - q) == d.At(p) - d.At(q);
    Cancel(s, 0.0, p - q);
  }

  /** A singular matrix has its cofactors for homogeneous solutions; three
      different lengths allow only zero ones. */
  lemma SpreadIsRegular(pts: seq<Point>, i: nat, j: nat, k: nat)
    requires Spread(pts, i, j, k)
    ensures Det(SumsOf(pts).Normal()) != 0.0
  {
    hide Det, Product;
    var s := SumsOf(pts);
    if Det(s.Normal()) == 0.0 {
      var zero := [0.0, 0.0, 0.0];
      forall d: Quadratic | Solves(s.Normal(), d.Coefficients(), zero) ensures d == Quadratic(0.0, 0.0, 0.0) {
        SolvingVanishes(pts, d);
        ThreeRoots(d, pts[i].0, pts[j].0, pts[k].0);
      }
      var third := Quadratic(s.x * s.x3 - s.x2 * s.x2, s.x2 * s.x - s.n * s.x3, s.n * s.x2 - s.x * s.x);
      CofactorsSolve(s);
      assert third == Quadratic(0.0, 0.0, 0.0);
      LineSolves(s);
      CountIsLength(pts);
    }
  }

  lemma CofactorsSolve(s: Sums)
    requires Det(s.Normal()) == 0.0
    ensures
      var third := Quadratic(s.x * s.x3 - s.x2 * s.x2, s.x2 * s.x - s.n * s.x3, s.n * s.x2 - s.x * s.x);
      Solves(s.Normal(), third.Coefficients(), [0.0, 0.0, 0.0])
  {
  }

  lemma LineSolves(s: Sums)
    requires s.n * s.x2 == s.x * s.x && s.n * s.x3 == s.x2 * s.x
    ensures Solves(s.Normal(), Quadratic(-s.x, s.n, 0.0).Coefficients(), [0.0, 0.0, 0.0])
  {
  }

  lemma {:induction false} CountIsLength(pts: seq<Point>)
    ensures SumsOf(pts).n == |pts| as real
  {
    if pts != [] {
      CountIsLength(pts[..|pts| - 1]);
    }
  }

  // -------------------------------------------------------- whole-number lengths

  function Real(n: int): real { n as real }

  ghost predicate Whole(x: real) { exists n: int :: x == Real(n) }

  /** The lengths of single texts are token counts. */
  ghost predicate WholeLengths(pts: seq<Point>) { forall p :: p in pts ==> Whole(p.0) }

  lemma WholeSum(a: real, b: real)
    requires Whole(a) && Whole(b)
    ensures Whole(a + b) && Whole(a - b)
  {
    var m: int, n: int :| a == Real(m) && b == Real(n);
    assert a + b == Real(m + n) && a - b == Real(m - n);
  }

  lemma WholeProduct(a: real, b: real)
    requires Whole(a) && Whole(b)
    ensures Whole(a * b)
  {
    var m: int, n: int :| a == Real(m) && b == Real(n);
    assert a * b == Real(m * n);
  }

  lemma WholeMinor(a: real, b: real, c: real, d: real)
    requires Whole(a) && Whole(b) && Whole(c) && Whole(d)
    ensures Whole(a * b - c * d)
  {
    WholeProduct(a, b);
    WholeProduct(c, d);
    WholeSum(a * b, c * d);
  }

  ghost predicate WholeMatrix(m: Matrix)
    requires Square(m)
  {
    forall i, j :: 0 <= i < 3 && 0 <= j < 3 ==> Whole(m[i][j])
  }

  lemma WholeDet(m: Matrix)
    requires Square(m) && WholeMatrix(m)
    ensures Whole(Det(m))
  {
    hide Whole;
    var a := m[1][1] * m[2][2] - m[1][2] * m[2][1];
    var b := m[1][0] * m[2][2] - m[1][2] * m[2][0];
    var c := m[1][0] * m[2][1] - m[1][1] * m[2][0];
    WholeMinor(m[1][1], m[2][2], m[1][2], m[2][1]);
    WholeMinor(m[1][0], m[2][2], m[1][2], m[2][0]);
    WholeMinor(m[1][0], m[2][1], m[1][1], m[2][0]);
    WholeMinor(m[0][0], a, m[0][1], b);
    WholeProduct(m[0][2], c);
    var d := m[0][0] * a - m[0][1] * b + m[0][2] * c;
    WholeSum(m[0][0] * a - m[0][1] * b, m[0][2] * c);
    assert Det(m) == d;
  }

  ghost predicate WholeSums(s: Sums) { Whole(s.n) && Whole(s.x) && Whole(s.x2) && Whole(s.x3) && Whole(s.x4) }

  lemma WholeAdd(s: Sums, x: real, y: real)
    requires WholeSums(s) && Whole(x)
    ensures WholeSums(s.Add(x, y))
  {
    var (next, x2) := (s.Add(x, y), x * x);
    assert next.n == s.n + 1.0 && next.x == s.x + x && next.x2 == s.x2 + x2;
    assert next.x3 == s.x3 + x2 * x && next.x4 == s.x4 + x2 * x2;
    assert 1.0 == Real(1) && Whole(1.0);
    hide Whole, Sums.Add;
    WholeProduct(x, x);
    WholeProduct(x2, x);
    WholeProduct(x2, x2);
    WholeSum(s.n, 1.0);
    WholeSum(s.x, x);
    WholeSum(s.x2, x2);
    WholeSum(s.x3, x2 * x);
    WholeSum(s.x4, x2 * x2);
  }

  lemma {:induction false} SumsWhole(pts: seq<Point>)
    requires WholeLengths(pts)
    ensures WholeSums(SumsOf(pts))
  {
    assert 0.0 == Real(0);
    if pts != [] {
      var (init, p) := (pts[..|pts| - 1], pts[|pts| - 1]);
      SumsWhole(init);
      WholeAdd(SumsOf(init), p.0, p.1);
    }
  }

  /** Of whole-number lengths, the fit skips exactly the points that are
      degenerate: the determinant is a whole number, so near zero it is zero. */
  lemma SkippedExactly(pts: seq<Point>)
    requires WholeLengths(pts)
    ensures Abs(Det(SumsOf(pts).Normal())) < TOLERANCE <==> !exists i: nat, j: nat, k: nat :: Spread(pts, i, j, k)
  {
    SumsWhole(pts);
    assert WholeMatrix(SumsOf(pts).Normal());
    WholeDet(SumsOf(pts).Normal());
    DegenerateExactly(pts);
    WholeNearZero(Det(SumsOf(pts).Normal()));
    hide Det, Spread, SumsOf, Whole;
  }

  lemma WholeNearZero(x: real)
    requires Whole(x)
    ensures Abs(x) < TOLERANCE <==> x == 0.0
  {
    var n: int :| x == Real(n);
  }

  /** Fractional lengths may be skipped though they are not degenerate. */
  lemma FractionalSkipped()
    ensures
      var pts := [(0.001, 1.0), (0.002, 1.0), (0.003, 1.0)];
      Spread(pts, 0, 1, 2) && Abs(Det(SumsOf(pts).Normal())) < TOLERANCE
  {
    hide SumsOf, Sums.Add, Det;
    var pts := [(0.001, 1.0), (0.002, 1.0), (0.003, 1.0)];
    NoPoints(pts);
    SumsNext(pts, 0);
    SumsNext(pts, 1);
    SumsNext(pts, 2);
    assert pts[..3] == pts;
    AddThousandths();
    SmallDeterminant();
  }

  lemma AddThousandths()
    ensures
      var s := Sums(1.0, 0.001, 0.000001, 0.000000001, 0.000000000001, 1.0, 0.001, 0.000001);
      var t := Sums(2.0, 0.003, 0.000005, 0.000000009, 0.000000000017, 2.0, 0.003, 0.000005);
      NO_SUMS.Add(0.001, 1.0) == s && s.Add(0.002, 1.0) == t &&
      t.Add(0.003, 1.0) == Sums(3.0, 0.006, 0.000014, 0.000000036, 0.000000000098, 3.0, 0.006, 0.000014)
  {
  }

  lemma SmallDeterminant()
    ensures Det([[3.0, 0.006, 0.000014], [0.006, 0.000014, 0.000000036], [0.000014, 0.000000036, 0.000000000098]])
      == 0.000000000000000004
  {
  }
}
