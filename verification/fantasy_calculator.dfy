/** The scoring engine: fantasy points of one game as a fixed linear form over
    ten optional statistical categories, with configurable weights. */
module FantasyCalculator {
  import opened Wrappers
  import opened Tables
  import Strings

  /** The statistical categories the calculator scores. */
  datatype Category =
    | PassingYards | PassingTds | Interceptions
    | RushingYards | RushingTds
    | Receptions | ReceivingYards | ReceivingTds
    | FumblesLost | TwoPointConversions

  /** The ten categories in the order their points are added up. */
  const Categories: seq<Category> :=
    [PassingYards, PassingTds, Interceptions, RushingYards, RushingTds,
     Receptions, ReceivingYards, ReceivingTds, FumblesLost, TwoPointConversions]

  /** A column of a game frame: a statistical category, the computed
      `fantasy_points`, one of the ten per-category point columns the
      calculator adds, or any other column (identifiers, season, ...). */
  datatype Column =
    | StatColumn(category: Category)
    | FantasyPointsColumn
    | PointsColumn(of: Category)
    | OtherColumn(name: string)

  /** Column name of a category, which is also its key in a scoring configuration. */
  function Key(c: Category): string
  {
    match c
    case PassingYards => "passing_yards"
    case PassingTds => "passing_tds"
    case Interceptions => "interceptions"
    case RushingYards => "rushing_yards"
    case RushingTds => "rushing_tds"
    case Receptions => "receptions"
    case ReceivingYards => "receiving_yards"
    case ReceivingTds => "receiving_tds"
    case FumblesLost => "fumbles_lost"
    case TwoPointConversions => "two_point_conversions"
  }

  /** Name of the per-category points column the calculator adds. */
  function PointsColumnName(c: Category): string
  {
    match c
    case PassingYards => "passing_fp"
    case PassingTds => "passing_td_fp"
    case Interceptions => "int_fp"
    case RushingYards => "rushing_fp"
    case RushingTds => "rushing_td_fp"
    case Receptions => "rec_fp"
    case ReceivingYards => "receiving_fp"
    case ReceivingTds => "receiving_td_fp"
    case FumblesLost => "fumble_fp"
    case TwoPointConversions => "two_pt_fp"
  }

  /** The ten per-category points columns. */
  function PointsColumns(): (cols: set<Column>)
    ensures forall c :: PointsColumn(c) in cols
    ensures forall col :: col in cols ==> col.PointsColumn?
  {
    set c: Category | true :: PointsColumn(c)
  }

  /** Standard scoring: the weight used when a configuration lacks the key. */
  function DefaultWeight(c: Category): real
  {
    match c
    case PassingYards => 0.04
    case PassingTds => 4.0
    case Interceptions => -2.0
    case RushingYards => 0.1
    case RushingTds => 6.0
    case Receptions => 0.5
    case ReceivingYards => 0.1
    case ReceivingTds => 6.0
    case FumblesLost => -2.0
    case TwoPointConversions => 2.0
  }

  /** The scoring table installed when no configuration is given. */
  function StandardScoring(): (m: map<Category, real>)
    ensures forall c :: c in m && m[c] == DefaultWeight(c)
  {
    map c: Category | true :: DefaultWeight(c)
  }

  /** A calculator holds the scoring configuration it was built with, keyed
      by category (a configuration key `Key(c)` sets the weight of `c`; other
      keys are never read). */
  datatype Calculator = Calculator(scoring: map<Category, real>)

  /** Build a calculator; an absent configuration selects standard scoring,
      a present one (even an empty one) is kept as given. */
  function NewCalculator(config: Option<map<Category, real>>): (calculator: Calculator)
    ensures config.Some? ==> calculator.scoring == config.value
    ensures config.None? ==> forall c :: Weight(calculator, c) == DefaultWeight(c)
  {
    match config
    case None => Calculator(StandardScoring())
    case Some(m) => Calculator(m)
  }

  /** Weight of a category: the configured value, else the category's default. */
  function Weight(calculator: Calculator, c: Category): (w: real)
    ensures c in calculator.scoring ==> w == calculator.scoring[c]
    ensures c !in calculator.scoring ==> w == DefaultWeight(c)
  {
    if c in calculator.scoring then calculator.scoring[c] else DefaultWeight(c)
  }

  /** One game of one player. `stats` holds the non-null cells of the
      statistical columns; a category missing from it is a null cell, and so
      is a `None` position. */
  datatype GameRow = GameRow(
    playerId: string,
    playerName: string,
    season: int,
    position: Option<string>,
    stats: map<Category, real>,
    fantasyPoints: Option<real>)

  /** Points a category adds: 0.0 when its column is absent from the frame,
      value times weight when present, null when its cell is null. */
  function Contribution(calculator: Calculator, columns: set<Column>, row: GameRow, c: Category): (r: Option<real>)
    ensures r.None? <==> StatColumn(c) in columns && c !in row.stats
    ensures StatColumn(c) !in columns ==> r == Some(0.0)
    ensures StatColumn(c) in columns && c in row.stats ==> r == Some(row.stats[c] * Weight(calculator, c))
  {
    if StatColumn(c) !in columns then Some(0.0)
    else if c in row.stats then Some(row.stats[c] * Weight(calculator, c))
    else None
  }

  /** Null-propagating addition: null when either side is null. */
  function Plus(a: Option<real>, b: Option<real>): Option<real>
  {
    if a.Some? && b.Some? then Some(a.value + b.value) else None
  }

  /** Null-propagating sum of `points(c)` over the categories `cats`. */
  function Total(points: Category -> Option<real>, cats: seq<Category>): Option<real>
  {
    if cats == [] then Some(0.0)
    else Plus(points(cats[0]), Total(points, cats[1..]))
  }

  /** The contribution of every category to one row's points. */
  function Contributions(calculator: Calculator, columns: set<Column>, row: GameRow): Category -> Option<real>
  {
    c => Contribution(calculator, columns, row, c)
  }

  /** Fantasy points of one game: the null-propagating sum of the ten
      contributions, passing yards first and two-point conversions last. */
  function FantasyPoints(calculator: Calculator, columns: set<Column>, row: GameRow): Option<real>
  {
    var points := Contributions(calculator, columns, row);
    Plus(points(PassingYards), Plus(points(PassingTds), Plus(points(Interceptions),
    Plus(points(RushingYards), Plus(points(RushingTds), Plus(points(Receptions),
    Plus(points(ReceivingYards), Plus(points(ReceivingTds), Plus(points(FumblesLost),
    Plus(points(TwoPointConversions), Some(0.0)))))))))))
  }

  /** The value a category counts with: its cell, or 0 when its column is absent. */
  function Amount(columns: set<Column>, row: GameRow, c: Category): real
  {
    if StatColumn(c) in columns && c in row.stats then row.stats[c] else 0.0
  }

  /** No present statistical column holds a null cell in this row. */
  predicate NoNullCells(columns: set<Column>, row: GameRow)
  {
    forall c :: StatColumn(c) in columns ==> c in row.stats
  }

  /** Score every row of a frame. The result has the same rows in the same
      order, every column of the input unchanged except `fantasy_points`, which
      is recomputed (a previous value is overwritten, never added to), plus
      `fantasy_points` and the ten per-category columns. */
  function CalculateFantasyPoints(calculator: Calculator, frame: Frame<Column, GameRow>): (out: Frame<Column, GameRow>)
    ensures out.columns == frame.columns + {FantasyPointsColumn} + PointsColumns()
    ensures |out.rows| == |frame.rows|
    ensures forall i :: 0 <= i < |frame.rows| ==>
      out.rows[i] == frame.rows[i].(fantasyPoints := FantasyPoints(calculator, frame.columns, frame.rows[i]))
  {
    Frame(frame.columns + {FantasyPointsColumn} + PointsColumns(),
          seq(|frame.rows|, i requires 0 <= i < |frame.rows| =>
            frame.rows[i].(fantasyPoints := FantasyPoints(calculator, frame.columns, frame.rows[i]))))
  }

  /** Scoring columns relevant to a position, looked up case-insensitively;
      an unknown position has none. */
  function PositionScoringColumns(position: string): (cols: seq<Category>)
    ensures cols != [] <==> Strings.Upper(position) in {"QB", "RB", "WR", "TE"}
    ensures Strings.Upper(position) == "QB" ==> cols == [PassingYards, PassingTds, Interceptions, RushingYards, RushingTds]
    ensures Strings.Upper(position) == "RB" ==> cols == [RushingYards, RushingTds, Receptions, ReceivingYards, ReceivingTds]
    ensures Strings.Upper(position) == "WR" ==> cols == [Receptions, ReceivingYards, ReceivingTds, RushingYards, RushingTds]
    ensures Strings.Upper(position) == "TE" ==> cols == [Receptions, ReceivingYards, ReceivingTds]
    ensures forall i, j :: 0 <= i < j < |cols| ==> cols[i] != cols[j]
  {
    var positionMap := map[
      "QB" := [PassingYards, PassingTds, Interceptions, RushingYards, RushingTds],
      "RB" := [RushingYards, RushingTds, Receptions, ReceivingYards, ReceivingTds],
      "WR" := [Receptions, ReceivingYards, ReceivingTds, RushingYards, RushingTds],
      "TE" := [Receptions, ReceivingYards, ReceivingTds]];
    var p := Strings.Upper(position);
    if p in positionMap then positionMap[p] else []
  }

  // ---------------------------------------------------------------------
  // Properties of the scoring engine
  // ---------------------------------------------------------------------

  lemma CategoryListed(c: Category)
    ensures c in Categories
  {
  }

  /** A total is null exactly when one listed category contributes null. */
  lemma {:induction false} TotalNullIff(points: Category -> Option<real>, cats: seq<Category>)
    ensures Total(points, cats).None? <==> exists c :: c in cats && points(c).None?
  {
    if cats != [] {
      TotalNullIff(points, cats[1..]);
      assert forall c :: c in cats <==> c == cats[0] || c in cats[1..];
    }
  }

  /** Fantasy points are null exactly when some present column has a null cell
      (polars propagates nulls through `*` and `+`). */
  lemma FantasyPointsNullIff(calculator: Calculator, columns: set<Column>, row: GameRow)
    ensures FantasyPoints(calculator, columns, row).None? <==> !NoNullCells(columns, row)
  {
    var points := Contributions(calculator, columns, row);
    FantasyPointsIsTotal(calculator, columns, row);
    TotalNullIff(points, Categories);
    if !NoNullCells(columns, row) {
      var c :| StatColumn(c) in columns && c !in row.stats;
      CategoryListed(c);
      assert points(c).None?;
    }
  }

  /** The total over the ten categories, written out term by term. */
  lemma TotalOverCategories(points: Category -> Option<real>)
    ensures Total(points, Categories) ==
      Plus(points(PassingYards), Plus(points(PassingTds), Plus(points(Interceptions),
      Plus(points(RushingYards), Plus(points(RushingTds), Plus(points(Receptions),
      Plus(points(ReceivingYards), Plus(points(ReceivingTds), Plus(points(FumblesLost),
      Plus(points(TwoPointConversions), Some(0.0)))))))))))
  {
    var cats := Categories;
    assert cats[1..] == [PassingTds, Interceptions, RushingYards, RushingTds, Receptions, ReceivingYards, ReceivingTds, FumblesLost, TwoPointConversions];
    assert cats[2..] == cats[1..][1..];
    assert cats[3..] == cats[2..][1..];
    assert cats[4..] == cats[3..][1..];
    assert cats[5..] == cats[4..][1..];
    assert cats[6..] == cats[5..][1..];
    assert cats[7..] == cats[6..][1..];
    assert cats[8..] == cats[7..][1..];
    assert cats[9..] == cats[8..][1..];
    assert cats[10..] == cats[9..][1..] == [];
  }

  /** Fantasy points are the total of the contributions over the category list. */
  lemma FantasyPointsIsTotal(calculator: Calculator, columns: set<Column>, row: GameRow)
    ensures FantasyPoints(calculator, columns, row) == Total(Contributions(calculator, columns, row), Categories)
  {
    TotalOverCategories(Contributions(calculator, columns, row));
  }

  /** Without null cells a category contributes its value times its weight
      (0 when its column is absent). */
  lemma ContributionIsProduct(calculator: Calculator, columns: set<Column>, row: GameRow, c: Category)
    requires NoNullCells(columns, row)
    ensures Contribution(calculator, columns, row, c).Some?
    ensures Contribution(calculator, columns, row, c).value == Amount(columns, row, c) * Weight(calculator, c)
  {
    if StatColumn(c) in columns {
      assert c in row.stats;
    } else {
      assert 0.0 * Weight(calculator, c) == 0.0;
    }
  }

  /** Reference definition of a score: the sum over `cats` of value times
      weight, an absent column counting as 0. */
  function WeightedSum(calculator: Calculator, columns: set<Column>, row: GameRow, cats: seq<Category>): real
  {
    if cats == [] then 0.0
    else Amount(columns, row, cats[0]) * Weight(calculator, cats[0]) + WeightedSum(calculator, columns, row, cats[1..])
  }

  /** Without null cells, the null-propagating total is the plain weighted sum. */
  lemma {:induction false} TotalIsWeightedSum(calculator: Calculator, columns: set<Column>, row: GameRow, cats: seq<Category>)
    requires NoNullCells(columns, row)
    ensures Total(Contributions(calculator, columns, row), cats) == Some(WeightedSum(calculator, columns, row, cats))
  {
    if cats != [] {
      TotalIsWeightedSum(calculator, columns, row, cats[1..]);
      ContributionIsProduct(calculator, columns, row, cats[0]);
    }
  }

  /** Fantasy points are the linear form sum of value times weight over the ten categories. */
  lemma LinearForm(calculator: Calculator, columns: set<Column>, row: GameRow)
    requires NoNullCells(columns, row)
    ensures FantasyPoints(calculator, columns, row) == Some(WeightedSum(calculator, columns, row, Categories))
  {
    FantasyPointsIsTotal(calculator, columns, row);
    TotalIsWeightedSum(calculator, columns, row, Categories);
  }

  lemma AbsentContributionIsZero(calculator: Calculator, columns: set<Column>, row: GameRow, c: Category, d: Category)
    requires StatColumn(c) !in columns
    ensures Contribution(calculator, columns, row, d)
         == Contribution(calculator, columns + {StatColumn(c)}, row.(stats := row.stats[c := 0.0]), d)
  {
    if d == c {
      assert 0.0 * Weight(calculator, c) == 0.0;
    }
  }

  /** An absent column scores exactly like a present column holding 0. */
  lemma AbsentCountsAsZero(calculator: Calculator, columns: set<Column>, row: GameRow, c: Category)
    requires StatColumn(c) !in columns
    ensures FantasyPoints(calculator, columns, row)
         == FantasyPoints(calculator, columns + {StatColumn(c)}, row.(stats := row.stats[c := 0.0]))
  {
    var row' := row.(stats := row.stats[c := 0.0]);
    forall d
      ensures Contribution(calculator, columns, row, d) == Contribution(calculator, columns + {StatColumn(c)}, row', d)
    {
      AbsentContributionIsZero(calculator, columns, row, c, d);
    }
    SameContributionsSameScore(calculator, columns, row, columns + {StatColumn(c)}, row');
  }

  /** The score never reads the row's previous `fantasy_points` value: it is
      recomputed from scratch, not added to. */
  lemma StaleScoreIgnored(calculator: Calculator, columns: set<Column>, row: GameRow, stale: Option<real>)
    ensures FantasyPoints(calculator, columns, row.(fantasyPoints := stale)) == FantasyPoints(calculator, columns, row)
  {
    ScoreIgnoresStaleAndOtherColumns(calculator, columns, columns, row, stale);
  }

  /** Adding columns that are not statistical columns does not change a score. */
  lemma ExtraColumnsIgnored(calculator: Calculator, columns: set<Column>, extra: set<Column>, row: GameRow)
    requires forall c :: StatColumn(c) !in extra
    ensures FantasyPoints(calculator, columns + extra, row) == FantasyPoints(calculator, columns, row)
  {
    assert row.(fantasyPoints := row.fantasyPoints) == row;
    ScoreIgnoresStaleAndOtherColumns(calculator, columns, columns + extra, row, row.fantasyPoints);
  }

  /** Re-scoring a scored row gives the same score. */
  lemma RescoredRowUnchanged(calculator: Calculator, columns: set<Column>, row: GameRow)
    ensures FantasyPoints(calculator, columns + {FantasyPointsColumn} + PointsColumns(),
                          row.(fantasyPoints := FantasyPoints(calculator, columns, row)))
         == FantasyPoints(calculator, columns, row)
  {
    ScoredColumnsAddNoStat(columns);
    ScoreIgnoresStaleAndOtherColumns(calculator, columns, columns + {FantasyPointsColumn} + PointsColumns(),
                                     row, FantasyPoints(calculator, columns, row));
  }

  /** The columns the calculator adds are not statistical columns. */
  lemma ScoredColumnsAddNoStat(columns: set<Column>)
    ensures forall c :: StatColumn(c) in columns + {FantasyPointsColumn} + PointsColumns() <==> StatColumn(c) in columns
  {
  }

  /** Two column sets with the same statistical columns give the same score,
      whatever the row's previous `fantasy_points` value. */
  lemma ScoreIgnoresStaleAndOtherColumns(calculator: Calculator, columns: set<Column>, cols: set<Column>,
                                         row: GameRow, stale: Option<real>)
    requires forall c :: StatColumn(c) in cols <==> StatColumn(c) in columns
    ensures FantasyPoints(calculator, cols, row.(fantasyPoints := stale)) == FantasyPoints(calculator, columns, row)
  {
    forall c
      ensures Contribution(calculator, cols, row.(fantasyPoints := stale), c) == Contribution(calculator, columns, row, c)
    {
    }
    SameContributionsSameScore(calculator, cols, row.(fantasyPoints := stale), columns, row);
  }

  /** Rows whose categories contribute alike score alike. */
  lemma SameContributionsSameScore(calculator: Calculator, columns1: set<Column>, row1: GameRow,
                                   columns2: set<Column>, row2: GameRow)
    requires forall c :: Contribution(calculator, columns1, row1, c) == Contribution(calculator, columns2, row2, c)
    ensures FantasyPoints(calculator, columns1, row1) == FantasyPoints(calculator, columns2, row2)
  {
  }

  /** Scoring an already scored frame changes nothing: the added columns are
      not statistical columns, and each score is recomputed from the same cells. */
  lemma RecalculationIsIdempotent(calculator: Calculator, frame: Frame<Column, GameRow>)
    ensures CalculateFantasyPoints(calculator, CalculateFantasyPoints(calculator, frame))
         == CalculateFantasyPoints(calculator, frame)
  {
    var once := CalculateFantasyPoints(calculator, frame);
    var twice := CalculateFantasyPoints(calculator, once);
    forall i | 0 <= i < |frame.rows|
      ensures twice.rows[i] == once.rows[i]
    {
      RescoredRowUnchanged(calculator, frame.columns, frame.rows[i]);
    }
    assert twice.rows == once.rows;
  }

  /** When every listed category contributes 0.0 the total is 0.0. */
  lemma {:induction false} ZeroContributionsTotalZero(points: Category -> Option<real>, cats: seq<Category>)
    requires forall c :: c in cats ==> points(c) == Some(0.0)
    ensures Total(points, cats) == Some(0.0)
  {
    if cats != [] {
      ZeroContributionsTotalZero(points, cats[1..]);
    }
  }

  /** A frame without any statistical column scores every row 0.0. */
  lemma NoColumnsScoresZero(calculator: Calculator, columns: set<Column>, row: GameRow)
    requires forall c :: StatColumn(c) !in columns
    ensures FantasyPoints(calculator, columns, row) == Some(0.0)
  {
    FantasyPointsIsTotal(calculator, columns, row);
    ZeroContributionsTotalZero(Contributions(calculator, columns, row), Categories);
  }

  /** An empty configuration scores exactly like the standard table. */
  lemma EmptyConfigIsStandard(columns: set<Column>, row: GameRow)
    ensures FantasyPoints(NewCalculator(Some(map[])), columns, row)
         == FantasyPoints(NewCalculator(None), columns, row)
  {
    var p1, p2 := Contributions(NewCalculator(Some(map[])), columns, row), Contributions(NewCalculator(None), columns, row);
    forall c
      ensures p1(c) == p2(c)
    {
      assert Weight(NewCalculator(Some(map[])), c) == Weight(NewCalculator(None), c);
    }
  }

  /** The row with every statistic doubled. */
  function Double(row: GameRow): (r: GameRow)
    ensures r.stats.Keys == row.stats.Keys
    ensures forall c :: c in row.stats ==> r.stats[c] == 2.0 * row.stats[c]
  {
    row.(stats := map c | c in row.stats :: 2.0 * row.stats[c])
  }

  /** Adding two doubled amounts doubles their sum. */
  lemma PlusDoubles(a: Option<real>, t: Option<real>, a': Option<real>, t': Option<real>)
    requires a'.Some? == a.Some? && t'.Some? == t.Some?
    requires a.Some? ==> a'.value == 2.0 * a.value
    requires t.Some? ==> t'.value == 2.0 * t.value
    ensures Plus(a', t').Some? == Plus(a, t).Some?
    ensures Plus(a, t).Some? ==> Plus(a', t').value == 2.0 * Plus(a, t).value
  {
  }

  /** Doubling the statistics doubles each category's contribution. */
  lemma ContributionDoubles(calculator: Calculator, columns: set<Column>, row: GameRow, c: Category)
    ensures Contribution(calculator, columns, Double(row), c).Some? == Contribution(calculator, columns, row, c).Some?
    ensures Contribution(calculator, columns, row, c).Some? ==>
      Contribution(calculator, columns, Double(row), c).value == 2.0 * Contribution(calculator, columns, row, c).value
  {
    if StatColumn(c) in columns && c in row.stats {
      var v, w := row.stats[c], Weight(calculator, c);
      assert (2.0 * v) * w == 2.0 * (v * w);
    }
  }

  /** Doubling every statistic doubles the total over any list of categories
      (and a null total stays null). */
  lemma {:induction false} TotalDoubles(calculator: Calculator, columns: set<Column>, row: GameRow, cats: seq<Category>)
    ensures Total(Contributions(calculator, columns, Double(row)), cats).Some? == Total(Contributions(calculator, columns, row), cats).Some?
    ensures Total(Contributions(calculator, columns, row), cats).Some? ==>
      Total(Contributions(calculator, columns, Double(row)), cats).value == 2.0 * Total(Contributions(calculator, columns, row), cats).value
  {
    if cats != [] {
      var p1, p2 := Contributions(calculator, columns, row), Contributions(calculator, columns, Double(row));
      TotalDoubles(calculator, columns, row, cats[1..]);
      ContributionDoubles(calculator, columns, row, cats[0]);
      PlusDoubles(p1(cats[0]), Total(p1, cats[1..]), p2(cats[0]), Total(p2, cats[1..]));
    }
  }

  /** Scoring is linear: doubling every statistic doubles the fantasy points,
      and a null score stays null. */
  lemma DoublingDoubles(calculator: Calculator, columns: set<Column>, row: GameRow)
    ensures FantasyPoints(calculator, columns, Double(row)).Some? == FantasyPoints(calculator, columns, row).Some?
    ensures FantasyPoints(calculator, columns, row).Some? ==>
      FantasyPoints(calculator, columns, Double(row)).value == 2.0 * FantasyPoints(calculator, columns, row).value
  {
    FantasyPointsIsTotal(calculator, columns, row);
    FantasyPointsIsTotal(calculator, columns, Double(row));
    TotalDoubles(calculator, columns, row, Categories);
  }

  /** Standard scoring of 300 passing yards, 2 passing touchdowns, 1
      interception and 20 rushing yards: 12 + 8 - 2 + 2 = 20 points. A stale
      `fantasy_points` value in the row plays no part. */
  lemma StandardScoringExample()
    ensures FantasyPoints(NewCalculator(None),
      {StatColumn(PassingYards), StatColumn(PassingTds), StatColumn(Interceptions), StatColumn(RushingYards)},
      GameRow("00-1", "A. Passer", 2024, Some("QB"),
              map[PassingYards := 300.0, PassingTds := 2.0, Interceptions := 1.0, RushingYards := 20.0],
              Some(99.0))) == Some(20.0)
  {
    var columns := {StatColumn(PassingYards), StatColumn(PassingTds), StatColumn(Interceptions), StatColumn(RushingYards)};
    var row := GameRow("00-1", "A. Passer", 2024, Some("QB"),
                       map[PassingYards := 300.0, PassingTds := 2.0, Interceptions := 1.0, RushingYards := 20.0],
                       Some(99.0));
    var calculator := NewCalculator(None);
    assert Contribution(calculator, columns, row, PassingYards) == Some(12.0);
    assert Contribution(calculator, columns, row, PassingTds) == Some(8.0);
    assert Contribution(calculator, columns, row, Interceptions) == Some(-2.0);
    assert Contribution(calculator, columns, row, RushingYards) == Some(2.0);
    assert Contribution(calculator, columns, row, RushingTds) == Some(0.0);
    assert Contribution(calculator, columns, row, Receptions) == Some(0.0);
    assert Contribution(calculator, columns, row, ReceivingYards) == Some(0.0);
    assert Contribution(calculator, columns, row, ReceivingTds) == Some(0.0);
    assert Contribution(calculator, columns, row, FumblesLost) == Some(0.0);
    assert Contribution(calculator, columns, row, TwoPointConversions) == Some(0.0);
  }

  /** The position lookup ignores case. */
  lemma PositionLookupIgnoresCase(position: string)
    ensures PositionScoringColumns(position) == PositionScoringColumns(Strings.Upper(position))
  {
    Strings.UpperIdempotent(position);
  }
}
