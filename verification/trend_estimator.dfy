/** Trend of a player's form: the least-squares slope of the average points
    per game against the season, with 0.0 whenever it is undefined. */
module TrendEstimator {
  import opened Wrappers
  import opened SeqUtil
  import opened Seasonal

  /** One observation of the regression: a season and its average. */
  datatype Point = Point(season: int, avg: real)

  /** The seasonal rows of one player, in table order. */
  function RowsOf(seasonal: seq<SeasonRow>, playerId: string): (rows: seq<SeasonRow>)
    ensures forall k :: 0 <= k < |rows| ==> rows[k].playerId == playerId
    ensures forall r :: r in rows <==> r in seasonal && r.playerId == playerId
  {
    var keep := (r: SeasonRow) => r.playerId == playerId;
    FilterMembers(seasonal, keep);
    Filter(seasonal, keep)
  }

  /** The rows whose average is not null, as points, in order. */
  function ValidPoints(rows: seq<SeasonRow>): (ps: seq<Point>)
    ensures |ps| <= |rows|
    ensures (forall k :: 0 <= k < |rows| ==> rows[k].avgFpPerGame.Some?) ==> |ps| == |rows|
  {
    if rows == [] then []
    else
      var rest := ValidPoints(rows[1..]);
      match rows[0].avgFpPerGame
      case Some(a) => [Point(rows[0].season, a)] + rest
      case None => rest
  }

  /** `RowsOf` keeps the table's order and repeats: the rows before, the one
      row if it is the player's, and the rows after. */
  lemma RowsOfSplit(a: seq<SeasonRow>, r: SeasonRow, b: seq<SeasonRow>, playerId: string)
    ensures RowsOf(a + [r] + b, playerId)
         == RowsOf(a, playerId) + (if r.playerId == playerId then [r] else []) + RowsOf(b, playerId)
  {
    FilterSplit(a, r, b, (r: SeasonRow) => r.playerId == playerId);
  }

  lemma ValidPointsCons(r: SeasonRow, rest: seq<SeasonRow>)
    ensures ValidPoints([r] + rest) == (if r.avgFpPerGame.Some? then [Point(r.season, r.avgFpPerGame.value)] else []) + ValidPoints(rest)
  {
    assert ([r] + rest)[0] == r && ([r] + rest)[1..] == rest;
  }

  lemma {:induction false} ValidPointsAppend(a: seq<SeasonRow>, b: seq<SeasonRow>)
    ensures ValidPoints(a + b) == ValidPoints(a) + ValidPoints(b)
  {
    if a == [] {
      assert a + b == b;
    } else {
      var h := (if a[0].avgFpPerGame.Some? then [Point(a[0].season, a[0].avgFpPerGame.value)] else []);
      calc {
        ValidPoints(a + b);
        { assert a + b == [a[0]] + (a[1..] + b); }
        ValidPoints([a[0]] + (a[1..] + b));
        { ValidPointsCons(a[0], a[1..] + b); }
        h + ValidPoints(a[1..] + b);
        { ValidPointsAppend(a[1..], b); }
        h + (ValidPoints(a[1..]) + ValidPoints(b));
        { ValidPointsCons(a[0], a[1..]); assert a == [a[0]] + a[1..]; }
        ValidPoints(a) + ValidPoints(b);
      }
    }
  }

  /** `ValidPoints` works row by row: the rows before, the one row's point if
      its average is not null, and the rows after, in that order. */
  lemma ValidPointsSplit(a: seq<SeasonRow>, r: SeasonRow, b: seq<SeasonRow>)
    ensures ValidPoints(a + [r] + b)
         == ValidPoints(a) + (if r.avgFpPerGame.Some? then [Point(r.season, r.avgFpPerGame.value)] else [])
            + ValidPoints(b)
  {
    ValidPointsAppend(a + [r], b);
    ValidPointsAppend(a, [r]);
    ValidPointsCons(r, []);
    assert [r] + [] == [r];
  }

  /** The seasons of the points, as the integers the source sums. */
  function Seasons(ps: seq<Point>): (xs: seq<int>)
    ensures |xs| == |ps|
    ensures forall k :: 0 <= k < |ps| ==> xs[k] == ps[k].season
  {
    seq(|ps|, k requires 0 <= k < |ps| => ps[k].season)
  }

  function Averages(ps: seq<Point>): (ys: seq<real>)
    ensures |ys| == |ps|
    ensures forall k :: 0 <= k < |ps| ==> ys[k] == ps[k].avg
  {
    seq(|ps|, k requires 0 <= k < |ps| => ps[k].avg)
  }

  function AsReals(xs: seq<int>): (rs: seq<real>)
    ensures |rs| == |xs|
    ensures forall k :: 0 <= k < |xs| ==> rs[k] == xs[k] as real
  {
    seq(|xs|, k requires 0 <= k < |xs| => xs[k] as real)
  }

  /** Σx over integers. */
  function IntSum(xs: seq<int>): int
  {
    if xs == [] then 0 else xs[0] + IntSum(xs[1..])
  }

  /** Σx² over integers. */
  function SumOfSquares(xs: seq<int>): int
  {
    if xs == [] then 0 else xs[0] * xs[0] + SumOfSquares(xs[1..])
  }

  /** Denominator of the slope, n·Σx² − (Σx)², computed exactly on the
      integer seasons. */
  function Denominator(xs: seq<int>): int
  {
    |xs| * SumOfSquares(xs) - IntSum(xs) * IntSum(xs)
  }

  /** n·a − b·c: both the numerator and the denominator of the slope
      have this shape. */
  function Cross(n: real, a: real, b: real, c: real): real
  {
    n * a - b * c
  }

  /** Numerator of the slope, n·Σxy − Σx·Σy, in floating point. */
  function Numerator(xs: seq<int>, ys: seq<real>): real
    requires |xs| == |ys|
  {
    Cross(|xs| as real, Dot(AsReals(xs), ys), IntSum(xs) as real, Sum(ys))
  }

  /** Closed-form least-squares slope; 0.0 when the denominator vanishes,
      which happens when every point has the same season. */
  function Slope(ps: seq<Point>): (s: real)
    ensures ps != [] && SameSeason(ps) ==> s == 0.0
  {
    assert ps != [] && SameSeason(ps) ==> Denominator(Seasons(ps)) == 0 by {
      if ps != [] {
        DenominatorZeroIffSameSeason(ps);
      }
    }
    var xs, ys := Seasons(ps), Averages(ps);
    if Denominator(xs) == 0 then 0.0 else Numerator(xs, ys) / (Denominator(xs) as real)
  }

  /** The trend of one player: 0.0 for fewer than two seasonal rows or
      fewer than two non-null averages, else the slope over those averages. */
  function Trend(seasonal: seq<SeasonRow>, playerId: string): (t: real)
    ensures |RowsOf(seasonal, playerId)| < 2 || |ValidPoints(RowsOf(seasonal, playerId))| < 2 ==> t == 0.0
    ensures SameSeason(ValidPoints(RowsOf(seasonal, playerId))) ==> t == 0.0
  {
    var rows := RowsOf(seasonal, playerId);
    if |rows| < 2 then 0.0
    else
      var ps := ValidPoints(rows);
      if |ps| < 2 then 0.0 else Slope(ps)
  }

  // ---------------------------------------------------------------------
  // The denominator vanishes exactly when every season is the same
  // ---------------------------------------------------------------------

  /** Every point has the same season. */
  predicate SameSeason(ps: seq<Point>)
  {
    forall k :: 0 <= k < |ps| ==> ps[k].season == ps[0].season
  }

  /** Σ(x − c)² over the integers. */
  function SquaredGaps(xs: seq<int>, c: int): int
  {
    if xs == [] then 0 else (xs[0] - c) * (xs[0] - c) + SquaredGaps(xs[1..], c)
  }

  /** Σ(x − c)² expanded: Σx² − 2·c·Σx + n·c². */
  lemma {:induction false} GapExpansion(xs: seq<int>, c: int)
    ensures SquaredGaps(xs, c) == SumOfSquares(xs) - 2 * c * IntSum(xs) + |xs| * c * c
  {
    if xs != [] {
      var t := xs[1..];
      GapExpansion(t, c);
      ExpansionStep(xs[0], c, SquaredGaps(t, c), SumOfSquares(t), IntSum(t), |t|,
                    SquaredGaps(xs, c), SumOfSquares(xs), IntSum(xs), |xs|);
    }
  }

  /** One step of the expansion, on plain numbers: the primed names are the
      whole-sequence values, the others those of the tail. */
  lemma ExpansionStep(x: int, c: int, rest: int, q: int, s: int, n: int,
                      rest': int, q': int, s': int, n': int)
    requires rest == q - 2 * c * s + n * c * c
    requires rest' == (x - c) * (x - c) + rest && q' == x * x + q && s' == x + s && n' == n + 1
    ensures rest' == q' - 2 * c * s' + n' * c * c
  {
  }

  /** Peeling off the first season x adds the squared distances of the
      remaining seasons from x: D(x :: t) = D(t) + Σ(t_j − x)². */
  lemma DenominatorStep(xs: seq<int>)
    requires xs != []
    ensures Denominator(xs) == Denominator(xs[1..]) + SquaredGaps(xs[1..], xs[0])
  {
    var x, t := xs[0], xs[1..];
    GapExpansion(t, x);
    StepAlgebra(x, |t|, IntSum(t), SumOfSquares(t), SquaredGaps(t, x), Denominator(t),
                IntSum(xs), SumOfSquares(xs), Denominator(xs));
  }

  lemma StepAlgebra(x: int, n: int, s: int, q: int, gaps: int, d: int, s': int, q': int, d': int)
    requires gaps == q - 2 * x * s + n * x * x
    requires d == n * q - s * s
    requires s' == x + s && q' == x * x + q
    requires d' == (n + 1) * q' - s' * s'
    ensures d' == d + gaps
  {
  }

  lemma {:induction false} GapsNonNegative(xs: seq<int>, c: int)
    ensures SquaredGaps(xs, c) >= 0
  {
    if xs != [] {
      GapsNonNegative(xs[1..], c);
      IntSquareNonNegative(xs[0] - c);
    }
  }

  lemma IntSquareNonNegative(d: int)
    ensures d * d >= 0
  {
    if d < 0 {
      assert d * d == (-d) * (-d);
    }
  }

  /** A value other than c makes the squared gaps positive. */
  lemma {:induction false} GapsPositive(xs: seq<int>, c: int, k: nat)
    requires k < |xs| && xs[k] != c
    ensures SquaredGaps(xs, c) > 0
  {
    if k == 0 {
      GapsNonNegative(xs[1..], c);
    } else {
      GapsPositive(xs[1..], c, k - 1);
    }
  }

  lemma {:induction false} GapsOfConstant(xs: seq<int>, c: int)
    requires forall k :: 0 <= k < |xs| ==> xs[k] == c
    ensures SquaredGaps(xs, c) == 0
  {
    if xs != [] {
      GapsOfConstant(xs[1..], c);
    }
  }

  /** The denominator is a sum of squared gaps, so never negative. */
  lemma {:induction false} DenominatorNonNegative(xs: seq<int>)
    ensures Denominator(xs) >= 0
  {
    if xs != [] {
      DenominatorStep(xs);
      DenominatorNonNegative(xs[1..]);
      GapsNonNegative(xs[1..], xs[0]);
    }
  }

  /** The denominator vanishes exactly when every value equals the first. */
  lemma {:induction false} DenominatorZeroIffConstant(xs: seq<int>)
    requires xs != []
    ensures Denominator(xs) == 0 <==> forall k :: 0 <= k < |xs| ==> xs[k] == xs[0]
  {
    var t := xs[1..];
    DenominatorStep(xs);
    DenominatorNonNegative(t);
    if forall k :: 0 <= k < |xs| ==> xs[k] == xs[0] {
      GapsOfConstant(t, xs[0]);
      if t != [] {
        DenominatorZeroIffConstant(t);
        assert forall k :: 0 <= k < |t| ==> t[k] == t[0];
      }
    } else {
      var k :| 0 <= k < |xs| && xs[k] != xs[0];
      GapsPositive(t, xs[0], k - 1);
    }
  }

  /** The slope's denominator is never negative, and zero exactly when all
      seasons coincide. */
  lemma DenominatorZeroIffSameSeason(ps: seq<Point>)
    requires ps != []
    ensures Denominator(Seasons(ps)) >= 0
    ensures Denominator(Seasons(ps)) == 0 <==> SameSeason(ps)
  {
    var xs := Seasons(ps);
    DenominatorNonNegative(xs);
    DenominatorZeroIffConstant(xs);
    assert SameSeason(ps) <==> forall k :: 0 <= k < |xs| ==> xs[k] == xs[0];
  }

  // ---------------------------------------------------------------------
  // Points on a line recover its slope
  // ---------------------------------------------------------------------

  /** The integer sums agree with the floating-point ones on the same values. */
  lemma {:induction false} SumsAsReals(xs: seq<int>)
    ensures Sum(AsReals(xs)) == IntSum(xs) as real
    ensures Dot(AsReals(xs), AsReals(xs)) == SumOfSquares(xs) as real
  {
    if xs != [] {
      SumsAsReals(xs[1..]);
      assert AsReals(xs)[1..] == AsReals(xs[1..]);
      ProductAsReal(xs[0], xs[0]);
    }
  }

  lemma ProductAsReal(a: int, b: int)
    ensures (a as real) * (b as real) == (a * b) as real
  {
  }

  /** The denominator computed in floating point equals the exact one. */
  lemma DenominatorAsReal(xs: seq<int>)
    ensures Denominator(xs) as real
         == Cross(|xs| as real, Dot(AsReals(xs), AsReals(xs)), Sum(AsReals(xs)), Sum(AsReals(xs)))
  {
    SumsAsReals(xs);
    ProductAsReal(|xs|, SumOfSquares(xs));
    ProductAsReal(IntSum(xs), IntSum(xs));
  }

  /** a·x + c·y, kept as one term so that equal combinations are matched
      as wholes. */
  function Combination(a: real, x: real, c: real, y: real): real
  {
    Times(a, x) + Times(c, y)
  }

  /** Σx·(m·x + b) = m·Σx² + b·Σx. */
  lemma DotLine(xs: seq<real>, m: real, b: real)
    ensures Dot(xs, Add(Scale(m, xs), Constant(|xs|, b))) == Combination(m, Dot(xs, xs), b, Sum(xs))
  {
    DotAdd(xs, Scale(m, xs), Constant(|xs|, b));
    DotScale(xs, xs, m);
    DotConstant(xs, b);
  }

  /** Σ(m·x + b) = m·Σx + n·b. */
  lemma SumLine(xs: seq<real>, m: real, b: real)
    ensures Sum(Add(Scale(m, xs), Constant(|xs|, b))) == Combination(m, Sum(xs), |xs| as real, b)
  {
    SumAdd(Scale(m, xs), Constant(|xs|, b));
    SumScale(m, xs);
    SumConstant(|xs|, b);
  }

  /** When Σy and Σxy are those of the line m·x + b, the numerator
      n·Σxy − Σx·Σy is m times the denominator n·Σx² − (Σx)². */
  lemma NumeratorOnLine(xs: seq<int>, ys: seq<real>, m: real, b: real)
    requires |ys| == |xs|
    requires Sum(ys) == Combination(m, Sum(AsReals(xs)), |xs| as real, b)
    requires Dot(AsReals(xs), ys) == Combination(m, Dot(AsReals(xs), AsReals(xs)), b, Sum(AsReals(xs)))
    ensures Numerator(xs, ys)
         == Times(m, Cross(|xs| as real, Dot(AsReals(xs), AsReals(xs)), Sum(AsReals(xs)), Sum(AsReals(xs))))
  {
    var rs := AsReals(xs);
    SumsAsReals(xs);
    LineAlgebra(|xs| as real, Sum(rs), Dot(rs, rs), m, b, Dot(rs, ys), Sum(ys), IntSum(xs) as real);
  }

  /** The algebra behind the previous lemma, on plain numbers. */
  lemma LineAlgebra(n: real, s: real, q: real, m: real, b: real, sxy: real, sy: real, si: real)
    requires sxy == Combination(m, q, b, s) && sy == Combination(m, s, n, b) && si == s
    ensures Cross(n, sxy, si, sy) == Times(m, Cross(n, q, s, s))
  {
  }

  /** The value of the line m·season + b at a season. */
  function LineValue(m: real, b: real, season: int): real
  {
    m * (season as real) + b
  }

  /** Points on the line m·season + b have exactly the line's averages. */
  lemma AveragesOnLine(ps: seq<Point>, m: real, b: real)
    requires forall k :: 0 <= k < |ps| ==> ps[k].avg == LineValue(m, b, ps[k].season)
    ensures Averages(ps) == Add(Scale(m, AsReals(Seasons(ps))), Constant(|ps|, b))
  {
    var rs := AsReals(Seasons(ps));
    forall k | 0 <= k < |ps|
      ensures Averages(ps)[k] == Add(Scale(m, rs), Constant(|rs|, b))[k]
    {
      ScaleAt(m, rs, k);
    }
  }

  /** Points on a line with at least two distinct seasons give the line's slope. */
  lemma SlopeOfLine(ps: seq<Point>, m: real, b: real)
    requires forall k :: 0 <= k < |ps| ==> ps[k].avg == LineValue(m, b, ps[k].season)
    requires exists k :: 0 <= k < |ps| && ps[k].season != ps[0].season
    ensures Slope(ps) == m
  {
    AveragesOnLine(ps, m, b);
    LineMoments(AsReals(Seasons(ps)), Averages(ps), m, b);
    DenominatorZeroIffSameSeason(ps);
    DenominatorAsReal(Seasons(ps));
    QuotientOnLine(Seasons(ps), Averages(ps), m, b);
  }

  /** Σy and Σxy of the values m·x + b. */
  lemma LineMoments(xs: seq<real>, ys: seq<real>, m: real, b: real)
    requires ys == Add(Scale(m, xs), Constant(|xs|, b))
    ensures Sum(ys) == Combination(m, Sum(xs), |xs| as real, b)
    ensures Dot(xs, ys) == Combination(m, Dot(xs, xs), b, Sum(xs))
  {
    DotLine(xs, m, b);
    SumLine(xs, m, b);
  }

  /** Numerator over denominator, when Σy and Σxy are those of the line m·x + b. */
  lemma QuotientOnLine(xs: seq<int>, ys: seq<real>, m: real, b: real)
    requires |ys| == |xs|
    requires Cross(|xs| as real, Dot(AsReals(xs), AsReals(xs)), Sum(AsReals(xs)), Sum(AsReals(xs))) != 0.0
    requires Sum(ys) == Combination(m, Sum(AsReals(xs)), |xs| as real, b)
    requires Dot(AsReals(xs), ys) == Combination(m, Dot(AsReals(xs), AsReals(xs)), b, Sum(AsReals(xs)))
    ensures Numerator(xs, ys) / Cross(|xs| as real, Dot(AsReals(xs), AsReals(xs)), Sum(AsReals(xs)), Sum(AsReals(xs))) == m
  {
    var rs := AsReals(xs);
    NumeratorOnLine(xs, ys, m, b);
    CancelFactor(m, Numerator(xs, ys), Cross(|xs| as real, Dot(rs, rs), Sum(rs), Sum(rs)));
  }

  lemma CancelFactor(m: real, num: real, d: real)
    requires d != 0.0 && num == Times(m, d)
    ensures num / d == m
  {
  }

  // ---------------------------------------------------------------------
  // The trend of a player
  // ---------------------------------------------------------------------

  /** With every average present, the points are the rows themselves. */
  lemma {:induction false} ValidPointsAllPresent(rows: seq<SeasonRow>, k: nat)
    requires forall j :: 0 <= j < |rows| ==> rows[j].avgFpPerGame.Some?
    requires k < |rows|
    ensures |ValidPoints(rows)| == |rows|
    ensures ValidPoints(rows)[k] == Point(rows[k].season, rows[k].avgFpPerGame.value)
  {
    if k > 0 {
      ValidPointsAllPresent(rows[1..], k - 1);
    }
  }

  /** Rows whose averages all lie on m·season + b give points on that line. */
  lemma PointsOnLine(rows: seq<SeasonRow>, m: real, b: real)
    requires forall j :: 0 <= j < |rows| ==> rows[j].avgFpPerGame == Some(LineValue(m, b, rows[j].season))
    ensures |ValidPoints(rows)| == |rows|
    ensures forall k :: 0 <= k < |rows| ==> ValidPoints(rows)[k].season == rows[k].season
    ensures forall k :: 0 <= k < |rows| ==>
              ValidPoints(rows)[k].avg == LineValue(m, b, ValidPoints(rows)[k].season)
  {
    forall k | 0 <= k < |rows|
      ensures ValidPoints(rows)[k] == Point(rows[k].season, rows[k].avgFpPerGame.value)
    {
      ValidPointsAllPresent(rows, k);
    }
  }

  /** A player whose averages all lie on m·season + b, over at least two
      different seasons, has trend m. */
  lemma TrendOfLine(seasonal: seq<SeasonRow>, playerId: string, m: real, b: real)
    requires forall r :: r in seasonal && r.playerId == playerId ==>
               r.avgFpPerGame == Some(LineValue(m, b, r.season))
    requires exists r, r' :: r in seasonal && r' in seasonal && r.playerId == playerId
               && r'.playerId == playerId && r.season != r'.season
    ensures Trend(seasonal, playerId) == m
  {
    var rows := RowsOf(seasonal, playerId);
    var r, r' :| r in seasonal && r' in seasonal && r.playerId == playerId
                 && r'.playerId == playerId && r.season != r'.season;
    var i :| 0 <= i < |rows| && rows[i] == r;
    var i' :| 0 <= i' < |rows| && rows[i'] == r';
    assert forall j :: 0 <= j < |rows| ==> rows[j] in rows;
    PointsOnLine(rows, m, b);
    var ps := ValidPoints(rows);
    assert ps[i].season != ps[0].season || ps[i'].season != ps[0].season;
    SlopeOfLine(ps, m, b);
  }
}
