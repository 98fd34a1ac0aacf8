/** The predictor: per-player predictions for the target season from the
    seasonal table, the eligibility rules and position filter that choose the
    players, the loop that collects the predictions, and the ranking. */
module Predictor {
  import opened Wrappers
  import opened SeqUtil
  import opened Tables
  import opened FantasyCalculator
  import opened Seasonal
  import opened TrendEstimator

  // ---------------------------------------------------------------------
  // Configuration
  // ---------------------------------------------------------------------

  /** The `prediction` and `output` settings the predictor reads; an absent
      optional key is `None`. */
  datatype PredictionConfig = PredictionConfig(
    targetSeason: int,
    trendWeight: Option<real>,
    consistencyWeight: Option<real>,
    minSeasonsPlayed: Option<int>,
    positionFilters: Option<map<string, bool>>,
    topNPlayers: Option<int>,
    scoring: Option<map<Category, real>>)

  function TrendWeight(config: PredictionConfig): real { config.trendWeight.GetOr(0.3) }
  function ConsistencyWeight(config: PredictionConfig): real { config.consistencyWeight.GetOr(0.2) }
  function MinSeasons(config: PredictionConfig): int { config.minSeasonsPlayed.GetOr(2) }
  function PositionFilters(config: PredictionConfig): map<string, bool> { config.positionFilters.GetOr(map[]) }
  function TopN(config: PredictionConfig): int { config.topNPlayers.GetOr(50) }

  /** The predictor's state, fixed once it is built. */
  datatype FantasyPredictor = FantasyPredictor(config: PredictionConfig, calculator: Calculator, targetSeason: int)

  /** Build a predictor: the scoring table is the configured one, or an empty
      one (so every weight is its default) when the key is absent. */
  function NewPredictor(config: PredictionConfig): (p: FantasyPredictor)
    ensures p.targetSeason == config.targetSeason
    ensures config.scoring.None? ==> forall c :: Weight(p.calculator, c) == DefaultWeight(c)
    ensures config.scoring.Some? ==> forall c :: c in config.scoring.value ==> Weight(p.calculator, c) == config.scoring.value[c]
    ensures config.scoring.Some? ==> forall c :: c !in config.scoring.value ==> Weight(p.calculator, c) == DefaultWeight(c)
  {
    FantasyPredictor(config, NewCalculator(Some(config.scoring.GetOr(map[]))), config.targetSeason)
  }

  // ---------------------------------------------------------------------
  // Position normalisation
  // ---------------------------------------------------------------------

  /** A position cell as read from storage: a list of positions, a null, or
      a scalar already rendered as text. */
  datatype RawPosition = PosList(items: seq<string>) | PosNull | PosText(text: string)

  /** Python's `str` of a list of strings: `[]`, `['QB']`, `['QB', 'RB']`. */
  function ListText(items: seq<string>): string
  {
    "[" + Quoted(items) + "]"
  }

  function Quoted(items: seq<string>): string
  {
    if items == [] then ""
    else if |items| == 1 then "'" + items[0] + "'"
    else "'" + items[0] + "', " + Quoted(items[1..])
  }

  /** The normalisation applied when the stats are loaded. It is applied to
      non-null cells only, so a null cell stays null; a non-empty list gives
      its first entry, anything else (an empty list included) its text. */
  function LoadedPosition(raw: RawPosition): (cell: Option<string>)
    ensures cell.None? <==> raw.PosNull?
    ensures raw.PosList? && raw.items != [] ==> cell == Some(raw.items[0])
    ensures raw == PosList([]) ==> cell == Some("[]")
    ensures raw.PosText? ==> cell == Some(raw.text)
  {
    match raw
    case PosList(items) =>
      if |items| > 0 then Some(items[0])
      else assert ListText(items) == "[" + "" + "]" == "[]"; Some(ListText(items))
    case PosNull => None
    case PosText(s) => Some(s)
  }

  /** A stored position cell as the prediction reads it back. */
  function CellPosition(cell: Option<string>): RawPosition
  {
    match cell
    case None => PosNull
    case Some(s) => PosText(s)
  }

  /** The normalisation applied when a prediction is built: the first entry
      of a list or "UNK" for an empty one, "UNK" for a null, the text of
      anything else. The result is never null. */
  function PredictionPosition(raw: RawPosition): (position: string)
    ensures raw.PosList? && raw.items != [] ==> position == raw.items[0]
    ensures raw == PosList([]) || raw.PosNull? ==> position == "UNK"
    ensures raw.PosText? ==> position == raw.text
  {
    match raw
    case PosList(items) => if |items| > 0 then items[0] else "UNK"
    case PosNull => "UNK"
    case PosText(s) => s
  }

  /** Loading a cell and then building a prediction from it names the same
      position as building the prediction from the raw cell, except for the
      empty list, which loads as the text "[]" where the prediction alone
      would say "UNK". A null cell is still null after loading. */
  lemma PositionNormalisations(raw: RawPosition)
    ensures raw != PosList([]) ==> PredictionPosition(CellPosition(LoadedPosition(raw))) == PredictionPosition(raw)
    ensures PredictionPosition(CellPosition(LoadedPosition(PosList([])))) == "[]"
    ensures PredictionPosition(PosList([])) == "UNK"
    ensures raw.PosNull? ==> LoadedPosition(raw).None? && PredictionPosition(CellPosition(LoadedPosition(raw))) == "UNK"
  {
  }

  /** Loading is idempotent on stored cells, and the prediction reads a stored
      cell as its text, or "UNK" for a null. */
  lemma NormalisedPositionIsStable(cell: Option<string>)
    ensures LoadedPosition(CellPosition(cell)) == cell
    ensures PredictionPosition(CellPosition(cell)) == cell.GetOr("UNK")
  {
  }

  // ---------------------------------------------------------------------
  // The recent-season window and its weighted average
  // ---------------------------------------------------------------------

  /** The rows of the last three seasons before the target, in table order. */
  function Window(rows: seq<SeasonRow>, targetSeason: int): (recent: seq<SeasonRow>)
    ensures forall r :: r in recent <==> r in rows && r.season >= targetSeason - 3
  {
    var keep := (r: SeasonRow) => r.season >= targetSeason - 3;
    FilterMembers(rows, keep);
    Filter(rows, keep)
  }

  /** The non-null averages of the rows, in order. */
  function ValidAverages(rows: seq<SeasonRow>): (fs: seq<real>)
    ensures |fs| <= |rows|
    ensures fs == [] <==> forall k :: 0 <= k < |rows| ==> rows[k].avgFpPerGame.None?
  {
    if rows == [] then []
    else
      var rest := ValidAverages(rows[1..]);
      assert forall k :: 1 <= k < |rows| ==> rows[k] == rows[1..][k - 1];
      match rows[0].avgFpPerGame
      case Some(a) => [a] + rest
      case None => rest
  }

  /** `Window` keeps the order and repeats of the player's rows: the rows
      before, the one row if it is recent enough, and the rows after. */
  lemma WindowSplit(a: seq<SeasonRow>, r: SeasonRow, b: seq<SeasonRow>, targetSeason: int)
    ensures Window(a + [r] + b, targetSeason)
         == Window(a, targetSeason) + (if r.season >= targetSeason - 3 then [r] else []) + Window(b, targetSeason)
  {
    FilterSplit(a, r, b, (r: SeasonRow) => r.season >= targetSeason - 3);
  }

  lemma ValidAveragesCons(r: SeasonRow, rest: seq<SeasonRow>)
    ensures ValidAverages([r] + rest)
         == (if r.avgFpPerGame.Some? then [r.avgFpPerGame.value] else []) + ValidAverages(rest)
  {
    assert ([r] + rest)[0] == r && ([r] + rest)[1..] == rest;
  }

  lemma {:induction false} ValidAveragesAppend(a: seq<SeasonRow>, b: seq<SeasonRow>)
    ensures ValidAverages(a + b) == ValidAverages(a) + ValidAverages(b)
  {
    if a == [] {
      assert a + b == b;
    } else {
      var h := if a[0].avgFpPerGame.Some? then [a[0].avgFpPerGame.value] else [];
      calc {
        ValidAverages(a + b);
        { assert a + b == [a[0]] + (a[1..] + b); }
        ValidAverages([a[0]] + (a[1..] + b));
        { ValidAveragesCons(a[0], a[1..] + b); }
        h + ValidAverages(a[1..] + b);
        { ValidAveragesAppend(a[1..], b); }
        h + (ValidAverages(a[1..]) + ValidAverages(b));
        { ValidAveragesCons(a[0], a[1..]); assert a == [a[0]] + a[1..]; }
        ValidAverages(a) + ValidAverages(b);
      }
    }
  }

  /** `ValidAverages` works row by row: the rows before, the one row's
      average if it is not null, and the rows after, in that order. */
  lemma ValidAveragesSplit(a: seq<SeasonRow>, r: SeasonRow, b: seq<SeasonRow>)
    ensures ValidAverages(a + [r] + b)
         == ValidAverages(a) + (if r.avgFpPerGame.Some? then [r.avgFpPerGame.value] else []) + ValidAverages(b)
  {
    ValidAveragesAppend(a + [r], b);
    ValidAveragesAppend(a, [r]);
    ValidAveragesCons(r, []);
    assert [r] + [] == [r];
  }

  /** The weights 1.0, 1.3, 1.6, … in ascending order. */
  function AscendingWeights(n: nat): (ws: seq<real>)
    ensures |ws| == n
    ensures forall i :: 0 <= i < n ==> ws[i] == 1.0 + (i as real) * 0.3
  {
    seq(n, i => 1.0 + (i as real) * 0.3)
  }

  function Reverse<T>(s: seq<T>): (r: seq<T>)
    ensures |r| == |s|
    ensures forall i :: 0 <= i < |s| ==> r[i] == s[|s| - 1 - i]
  {
    seq(|s|, i requires 0 <= i < |s| => s[|s| - 1 - i])
  }

  /** The weights by list position: reversed, so the first entry of the list
      gets the largest. */
  function Weights(n: nat): seq<real>
  {
    Reverse(AscendingWeights(n))
  }

  /** Position j of n gets weight 1.0 + 0.3·(n − 1 − j): every weight is at
      least 1, and earlier positions get strictly larger weights. */
  lemma WeightsByPosition(n: nat)
    ensures |Weights(n)| == n
    ensures forall j :: 0 <= j < n ==> Weights(n)[j] == 1.0 + ((n - 1 - j) as real) * 0.3
    ensures forall j :: 0 <= j < n ==> Weights(n)[j] >= 1.0
    ensures forall i, j :: 0 <= i < j < n ==> Weights(n)[i] > Weights(n)[j]
  {
  }

  /** The weights add up to at least their number. */
  lemma WeightsTotal(n: nat)
    ensures Sum(Weights(n)) >= n as real
  {
    WeightsByPosition(n);
    SumAtLeast(Weights(n), 1.0);
  }

  /** Σ f·w / Σ w with the positional weights: a convex combination, so it
      lies between the smallest and the largest value. Applied to the valid
      averages in table order this is the source's weighting as written, which
      the prediction uses; the recency order below is the corrected one. */
  function WeightedAverage(fs: seq<real>): (r: real)
    requires fs != []
    ensures MinOf(fs) <= r <= MaxOf(fs)
  {
    WeightsByPosition(|fs|);
    WeightsTotal(|fs|);
    WeightedMeanBetween(fs, Weights(|fs|), MinOf(fs), MaxOf(fs));
    Dot(fs, Weights(|fs|)) / Sum(Weights(|fs|))
  }

  /** With two values the first one listed gets weight 1.3 and the second
      1.0, whichever season each belongs to: a window listed oldest first
      leans towards the oldest season. */
  lemma TwoValueWeighting(a: real, b: real)
    ensures WeightedAverage([a, b]) == (1.3 * a + b) / 2.3
  {
    var ws := Weights(2);
    assert ws == [1.3, 1.0];
    assert Dot([b], [1.0]) == b * 1.0 + Dot([], []);
    assert Dot([a, b], ws) == a * 1.3 + Dot([b], [1.0]) by {
      assert [a, b][1..] == [b] && ws[1..] == [1.0];
    }
    assert Sum([1.0]) == 1.0 + Sum([]);
    assert Sum(ws) == 1.3 + Sum([1.0]) by {
      assert ws[1..] == [1.0];
    }
  }

  /** Identical values average to that value. */
  lemma WeightedAverageOfConstant(fs: seq<real>, x: real)
    requires fs != []
    requires forall k :: 0 <= k < |fs| ==> fs[k] == x
    ensures WeightedAverage(fs) == x
  {
    assert MinOf(fs) == x && MaxOf(fs) == x;
  }

  // ---------------------------------------------------------------------
  // Weighting by recency
  // ---------------------------------------------------------------------

  /** A row's season, as the key the window is ordered by. */
  function Recency(r: SeasonRow): real
  {
    r.season as real
  }

  predicate HasAverage(r: SeasonRow)
  {
    r.avgFpPerGame.Some?
  }

  /** The rows with a non-null average, in table order. */
  function ValidRows(rows: seq<SeasonRow>): seq<SeasonRow>
  {
    Filter(rows, HasAverage)
  }

  /** The averages of the rows, a null one read as 0. */
  function RowAverages(rows: seq<SeasonRow>): (fs: seq<real>)
    ensures |fs| == |rows|
    ensures forall k :: 0 <= k < |rows| ==> fs[k] == rows[k].avgFpPerGame.GetOr(0.0)
  {
    seq(|rows|, k requires 0 <= k < |rows| => rows[k].avgFpPerGame.GetOr(0.0))
  }

  lemma RowAveragesCons(r: SeasonRow, tail: seq<SeasonRow>)
    ensures RowAverages([r] + tail) == [r.avgFpPerGame.GetOr(0.0)] + RowAverages(tail)
  {
  }

  /** The valid averages are the averages of the valid rows, in order. */
  lemma {:induction false} ValidAveragesOfValidRows(rows: seq<SeasonRow>)
    ensures ValidAverages(rows) == RowAverages(Filter(rows, HasAverage))
  {
    if rows != [] {
      var r := rows[0];
      var tail := Filter(rows[1..], HasAverage);
      ValidAveragesOfValidRows(rows[1..]);
      assert rows == [r] + rows[1..];
      ValidAveragesCons(r, rows[1..]);
      FilterCons(r, rows[1..], HasAverage);
      if r.avgFpPerGame.Some? {
        RowAveragesCons(r, tail);
      }
    }
  }

  /** The valid rows of the window, most recent season first. */
  function NewestFirst(recent: seq<SeasonRow>): (vs: seq<SeasonRow>)
    ensures forall i, j :: 0 <= i < j < |vs| ==> vs[i].season >= vs[j].season
    ensures multiset(vs) == multiset(ValidRows(recent))
  {
    SortBy(ValidRows(recent), Recency)
  }

  /** Every average of a rearrangement of rows is an average of the rows. */
  lemma RowAveragesOfRearrangement(a: seq<SeasonRow>, b: seq<SeasonRow>)
    requires multiset(a) == multiset(b)
    ensures |b| == |a|
    ensures forall k :: 0 <= k < |b| ==> RowAverages(b)[k] in RowAverages(a)
  {
    assert |a| == |multiset(a)| == |multiset(b)| == |b|;
    forall k | 0 <= k < |b|
      ensures RowAverages(b)[k] in RowAverages(a)
    {
      assert b[k] in multiset(a);
      var j :| 0 <= j < |a| && a[j] == b[k];
      assert RowAverages(a)[j] == RowAverages(b)[k];
    }
  }

  /** The window's averages weighted by recency: the valid averages ordered
      most recent season first, then weighted by position as above, so the
      most recent season weighs most whatever the table order. Like the
      positional average it lies between the smallest and the largest valid
      average. */
  function RecencyWeightedAverage(recent: seq<SeasonRow>): (r: real)
    requires ValidAverages(recent) != []
    ensures MinOf(ValidAverages(recent)) <= r <= MaxOf(ValidAverages(recent))
  {
    var ordered := RowAverages(NewestFirst(recent));
    ValidAveragesOfValidRows(recent);
    RowAveragesOfRearrangement(ValidRows(recent), NewestFirst(recent));
    ExtremesOfMembers(ValidAverages(recent), ordered);
    WeightedAverage(ordered)
  }

  /** In the recency order a more recent season always sits at a position
      with a larger weight than an older one. */
  lemma RecentSeasonsWeighMore(recent: seq<SeasonRow>)
    ensures var vs := NewestFirst(recent);
            forall i, j :: 0 <= i < |vs| && 0 <= j < |vs| && vs[i].season > vs[j].season
                           ==> Weights(|vs|)[i] > Weights(|vs|)[j]
  {
    WeightsByPosition(|NewestFirst(recent)|);
  }

  /** When no two valid rows share a season, the recency order, and so the
      recency-weighted average, does not depend on the order in which the
      rows are listed. */
  lemma RecencyIgnoresRowOrder(a: seq<SeasonRow>, b: seq<SeasonRow>)
    requires multiset(a) == multiset(b)
    requires forall r1, r2 ::
               r1 in a && r2 in a && r1.avgFpPerGame.Some? && r2.avgFpPerGame.Some? && r1.season == r2.season
               ==> r1 == r2
    ensures NewestFirst(a) == NewestFirst(b)
    ensures ValidAverages(a) != [] ==> ValidAverages(b) != [] && RecencyWeightedAverage(a) == RecencyWeightedAverage(b)
  {
    FilterPermutation(a, b, HasAverage);
    FilterMembers(a, HasAverage);
    var va := NewestFirst(a);
    forall i, j | 0 <= i < |va| && 0 <= j < |va| && Recency(va[i]) == Recency(va[j])
      ensures va[i] == va[j]
    {
      assert va[i] in multiset(ValidRows(a)) && va[j] in multiset(ValidRows(a));
    }
    SortedUnique(va, NewestFirst(b), Recency);
    ValidAveragesOfValidRows(a);
    ValidAveragesOfValidRows(b);
    assert |ValidRows(a)| == |multiset(ValidRows(a))| == |multiset(ValidRows(b))| == |ValidRows(b)|;
  }

  lemma ValidAveragesOfPair(x: SeasonRow, y: SeasonRow)
    requires x.avgFpPerGame.Some? && y.avgFpPerGame.Some?
    ensures ValidAverages([x, y]) == [x.avgFpPerGame.value, y.avgFpPerGame.value]
  {
    ValidAveragesCons(x, [y]);
    ValidAveragesCons(y, []);
    assert [x] + [y] == [x, y] && [y] + [] == [y];
  }

  /** Two rows listed oldest first, the older season averaging 10 and the
      newer 20. Weighted by position as written, the older season gets
      weight 1.3 and the newer 1.0 (33/2.3); listed newest first the same
      rows give 36/2.3. */
  lemma OldestFirstWeighting(older: SeasonRow, newer: SeasonRow)
    requires older.season < newer.season
    requires older.avgFpPerGame == Some(10.0) && newer.avgFpPerGame == Some(20.0)
    ensures WeightedAverage(ValidAverages([older, newer])) == 33.0 / 2.3
    ensures WeightedAverage(ValidAverages([newer, older])) == 36.0 / 2.3
  {
    ValidAveragesOfPair(older, newer);
    ValidAveragesOfPair(newer, older);
    TwoValueWeighting(10.0, 20.0);
    TwoValueWeighting(20.0, 10.0);
    assert 1.3 * 10.0 + 20.0 == 33.0 && 1.3 * 20.0 + 10.0 == 36.0;
  }

  /** The same two rows weighted by recency: 36/2.3 in either order, the
      newer season weighing 1.3. */
  lemma RecencyWeightingOfTwo(older: SeasonRow, newer: SeasonRow)
    requires older.season < newer.season
    requires older.avgFpPerGame == Some(10.0) && newer.avgFpPerGame == Some(20.0)
    ensures RecencyWeightedAverage([newer, older]) == 36.0 / 2.3
    ensures RecencyWeightedAverage([older, newer]) == 36.0 / 2.3
  {
    NewestPairAverage(older, newer);
    RecencyIgnoresRowOrder([newer, older], [older, newer]);
  }

  lemma NewestPairAverage(older: SeasonRow, newer: SeasonRow)
    requires older.season < newer.season
    requires older.avgFpPerGame == Some(10.0) && newer.avgFpPerGame == Some(20.0)
    ensures ValidAverages([newer, older]) != [] && RecencyWeightedAverage([newer, older]) == 36.0 / 2.3
  {
    ValidAveragesOfPair(newer, older);
    NewestFirstOfTwo(older, newer);
    assert RowAverages([newer, older]) == [20.0, 10.0];
    TwoValueWeighting(20.0, 10.0);
    assert 1.3 * 20.0 + 10.0 == 36.0;
  }

  /** The two weightings agree on a window already listed newest first:
      when the seasons strictly decrease along the rows, weighting by list
      position as written is weighting by recency. */
  lemma WeightingsAgreeNewestFirst(recent: seq<SeasonRow>)
    requires forall i, j :: 0 <= i < j < |recent| ==> recent[i].season > recent[j].season
    requires ValidAverages(recent) != []
    ensures RecencyWeightedAverage(recent) == WeightedAverage(ValidAverages(recent))
  {
    var vs := ValidRows(recent);
    assert SortedBy(recent, Recency);
    FilterSortedBy(recent, HasAverage, Recency);
    ValidRowsAreDistinctSeasons(recent);
    SortedUnique(vs, NewestFirst(recent), Recency);
    ValidAveragesOfValidRows(recent);
  }

  /** Valid rows of a window with strictly decreasing seasons never share a
      season unless they are the same row. */
  lemma ValidRowsAreDistinctSeasons(recent: seq<SeasonRow>)
    requires forall i, j :: 0 <= i < j < |recent| ==> recent[i].season > recent[j].season
    ensures var vs := ValidRows(recent);
            forall i, j :: 0 <= i < |vs| && 0 <= j < |vs| && Recency(vs[i]) == Recency(vs[j]) ==> vs[i] == vs[j]
  {
    var vs := ValidRows(recent);
    FilterMembers(recent, HasAverage);
    forall i, j | 0 <= i < |vs| && 0 <= j < |vs| && Recency(vs[i]) == Recency(vs[j])
      ensures vs[i] == vs[j]
    {
      assert vs[i] in recent && vs[j] in recent;
      var a :| 0 <= a < |recent| && recent[a] == vs[i];
      var b :| 0 <= b < |recent| && recent[b] == vs[j];
      assert a == b;
    }
  }

  /** Two valid rows of different seasons are ordered newest first. */
  lemma NewestFirstOfTwo(older: SeasonRow, newer: SeasonRow)
    requires older.season < newer.season
    requires older.avgFpPerGame.Some? && newer.avgFpPerGame.Some?
    ensures NewestFirst([newer, older]) == [newer, older]
  {
    FilterCons(older, [], HasAverage);
    FilterCons(newer, [older], HasAverage);
    assert [older] + [] == [older] && [newer] + [older] == [newer, older];
    assert ValidRows([newer, older]) == [newer, older];
    assert [older][1..] == [] && [newer, older][1..] == [older];
    assert SortBy([older], Recency) == InsertBy(older, [], Recency) == [older];
    assert SortBy([newer, older], Recency) == InsertBy(newer, [older], Recency) == [newer, older];
  }

  // ---------------------------------------------------------------------
  // One player's prediction
  // ---------------------------------------------------------------------

  /** One row of the prediction table. */
  datatype Prediction = Prediction(
    playerId: string,
    playerName: string,
    position: string,
    predictedAvgFpPerGame: real,
    predictedSeasonFp: real,
    recentAvgFp: real,
    trend: real,
    consistencyScore: real,
    seasonsAnalyzed: nat,
    lastSeason: int)

  function WindowSeasons(rows: seq<SeasonRow>): (xs: seq<int>)
    ensures |xs| == |rows|
    ensures forall k :: 0 <= k < |rows| ==> xs[k] == rows[k].season
  {
    seq(|rows|, k requires 0 <= k < |rows| => rows[k].season)
  }

  /** Largest season of a non-empty list. */
  function LatestSeason(xs: seq<int>): (m: int)
    requires xs != []
    ensures m in xs
    ensures forall k :: 0 <= k < |xs| ==> xs[k] <= m
  {
    if |xs| == 1 then xs[0]
    else
      var rest := LatestSeason(xs[1..]);
      if xs[0] >= rest then xs[0] else rest
  }

  function ConsistencyScores(rows: seq<SeasonRow>): (cs: seq<real>)
    ensures |cs| == |rows|
    ensures forall k :: 0 <= k < |rows| ==> cs[k] == rows[k].consistencyScore
  {
    seq(|rows|, k requires 0 <= k < |rows| => rows[k].consistencyScore)
  }

  /** The prediction before the floor at 0: weighted average plus trend
      adjustment plus consistency bonus. */
  function RawPrediction(wavg: real, trend: real, consistency: real, config: PredictionConfig): (r: real)
    ensures trend == 0.0 && consistency == 0.5 ==> r == wavg
    ensures trend >= 0.0 && TrendWeight(config) >= 0.0 && consistency >= 0.5 && ConsistencyWeight(config) >= 0.0
            ==> r >= wavg
    ensures trend <= 0.0 && TrendWeight(config) >= 0.0 && consistency <= 0.5 && ConsistencyWeight(config) >= 0.0
            ==> r <= wavg
  {
    wavg + trend * TrendWeight(config) + (consistency - 0.5) * ConsistencyWeight(config)
  }

  function Floor0(x: real): real
  {
    if x > 0.0 then x else 0.0
  }

  /** The prediction built from a player's first row, window and the
      window's valid averages, weighted by list position as written. */
  function Assemble(p: FantasyPredictor, seasonal: seq<SeasonRow>, playerId: string,
                    first: SeasonRow, recent: seq<SeasonRow>, fs: seq<real>): (pr: Prediction)
    requires recent != [] && fs == ValidAverages(recent) && fs != []
    ensures pr.playerId == playerId && pr.playerName == first.playerName && pr.position == first.position.GetOr("UNK")
    ensures pr.trend == Trend(seasonal, playerId)
    ensures pr.consistencyScore == Mean(ConsistencyScores(recent))
    ensures MinOf(ConsistencyScores(recent)) <= pr.consistencyScore <= MaxOf(ConsistencyScores(recent))
    ensures var raw := RawPrediction(WeightedAverage(fs), pr.trend, pr.consistencyScore, p.config);
            && pr.predictedAvgFpPerGame >= 0.0
            && pr.predictedAvgFpPerGame >= raw
            && (raw >= 0.0 ==> pr.predictedAvgFpPerGame == raw)
            && (raw < 0.0 ==> pr.predictedAvgFpPerGame == 0.0)
    ensures pr.predictedSeasonFp == 17.0 * pr.predictedAvgFpPerGame
    ensures pr.recentAvgFp == Mean(fs)
    ensures MinOf(fs) <= pr.recentAvgFp <= MaxOf(fs)
    ensures pr.seasonsAnalyzed == |recent|
    ensures pr.lastSeason in WindowSeasons(recent)
    ensures forall k :: 0 <= k < |recent| ==> recent[k].season <= pr.lastSeason
  {
    var position := PredictionPosition(CellPosition(first.position));
    var wavg := WeightedAverage(fs);
    var trend := Trend(seasonal, playerId);
    var consistency := Mean(ConsistencyScores(recent));
    var predicted := Floor0(RawPrediction(wavg, trend, consistency, p.config));
    Prediction(
      playerId, first.playerName, PredictionPosition(PosText(position)),
      predicted, predicted * 17.0, Mean(fs), trend, consistency,
      |recent|, LatestSeason(WindowSeasons(recent)))
  }

  /** The prediction for one player, or `None` when the player has no rows,
      no row in the window, or no non-null average in the window. */
  function PredictPlayer(p: FantasyPredictor, seasonal: seq<SeasonRow>, playerId: string): (r: Option<Prediction>)
    ensures r.Some? ==> r.value.playerId == playerId
  {
    var rows := RowsOf(seasonal, playerId);
    if |rows| == 0 then None
    else
      var recent := Window(rows, p.targetSeason);
      if |recent| == 0 then None
      else
        var fs := ValidAverages(recent);
        if fs == [] then None
        else Some(Assemble(p, seasonal, playerId, rows[0], recent, fs))
  }

  /** A prediction exists exactly when the player has a row in the window
      with a non-null average. */
  lemma PredictionExistsIff(p: FantasyPredictor, seasonal: seq<SeasonRow>, playerId: string)
    ensures PredictPlayer(p, seasonal, playerId).Some?
        <==> exists r :: r in seasonal && r.playerId == playerId && r.season >= p.targetSeason - 3
                         && r.avgFpPerGame.Some?
  {
    var rows := RowsOf(seasonal, playerId);
    var recent := Window(rows, p.targetSeason);
    if exists r :: r in seasonal && r.playerId == playerId && r.season >= p.targetSeason - 3
                   && r.avgFpPerGame.Some? {
      var r :| r in seasonal && r.playerId == playerId && r.season >= p.targetSeason - 3
               && r.avgFpPerGame.Some?;
      assert r in recent;
      var k :| 0 <= k < |recent| && recent[k] == r;
      assert ValidAverages(recent) != [];
    } else {
      forall k | 0 <= k < |recent|
        ensures recent[k].avgFpPerGame.None?
      {
        assert recent[k] in recent;
      }
    }
  }

  /** The three early exits. */
  lemma NoPredictionCases(p: FantasyPredictor, seasonal: seq<SeasonRow>, playerId: string)
    ensures RowsOf(seasonal, playerId) == [] ==> PredictPlayer(p, seasonal, playerId) == None
    ensures Window(RowsOf(seasonal, playerId), p.targetSeason) == [] ==> PredictPlayer(p, seasonal, playerId) == None
    ensures ValidAverages(Window(RowsOf(seasonal, playerId), p.targetSeason)) == []
            ==> PredictPlayer(p, seasonal, playerId) == None
  {
  }

  /** What a produced prediction holds: the player's name and position from
      their first row, the floored sum of the weighted average of the window,
      the trend adjustment over the whole history and the consistency bonus
      (the mean consistency of the window); 17 games of it for the season;
      the size and the latest season of the window. */
  lemma PredictionFormula(p: FantasyPredictor, seasonal: seq<SeasonRow>, playerId: string)
    requires PredictPlayer(p, seasonal, playerId).Some?
    ensures var pr := PredictPlayer(p, seasonal, playerId).value;
            var rows := RowsOf(seasonal, playerId);
            var recent := Window(rows, p.targetSeason);
            var fs := ValidAverages(recent);
            var raw := RawPrediction(WeightedAverage(fs), pr.trend, pr.consistencyScore, p.config);
            && rows != [] && recent != [] && fs != []
            && pr.playerId == playerId && pr.playerName == rows[0].playerName
            && pr.position == rows[0].position.GetOr("UNK")
            && pr.trend == Trend(seasonal, playerId)
            && pr.consistencyScore == Mean(ConsistencyScores(recent))
            && pr.recentAvgFp == Mean(fs)
            && pr.predictedAvgFpPerGame >= 0.0
            && pr.predictedAvgFpPerGame >= raw
            && (raw >= 0.0 ==> pr.predictedAvgFpPerGame == raw)
            && (raw < 0.0 ==> pr.predictedAvgFpPerGame == 0.0)
            && pr.predictedSeasonFp == 17.0 * pr.predictedAvgFpPerGame
            && pr.seasonsAnalyzed == |recent|
            && pr.lastSeason >= p.targetSeason - 3
            && (forall r :: r in recent ==> r.season <= pr.lastSeason)
  {
    var rows := RowsOf(seasonal, playerId);
    var recent := Window(rows, p.targetSeason);
    var pr := PredictPlayer(p, seasonal, playerId).value;
    forall r | r in recent
      ensures r.season <= pr.lastSeason
    {
      var k :| 0 <= k < |recent| && recent[k] == r;
    }
    var k :| 0 <= k < |recent| && WindowSeasons(recent)[k] == pr.lastSeason;
    assert recent[k] in recent;
  }

  /** With no trend and a neutral consistency, the per-game prediction is the
      weighted average itself, which lies between the window's extreme
      averages; so identical recent averages x >= 0 predict x per game. */
  lemma NeutralPredictionIsWeightedAverage(p: FantasyPredictor, seasonal: seq<SeasonRow>, playerId: string)
    requires PredictPlayer(p, seasonal, playerId).Some?
    requires Trend(seasonal, playerId) == 0.0
    requires Mean(ConsistencyScores(Window(RowsOf(seasonal, playerId), p.targetSeason))) == 0.5
    ensures var fs := ValidAverages(Window(RowsOf(seasonal, playerId), p.targetSeason));
            && fs != []
            && PredictPlayer(p, seasonal, playerId).value.predictedAvgFpPerGame >= MinOf(fs)
            && PredictPlayer(p, seasonal, playerId).value.predictedAvgFpPerGame <= Floor0(MaxOf(fs))
  {
    PredictionFormula(p, seasonal, playerId);
  }

  // ---------------------------------------------------------------------
  // Eligibility and the position filter
  // ---------------------------------------------------------------------

  /** Number of seasonal rows of a player (rows, not distinct seasons). */
  function SeasonCount(seasonal: seq<SeasonRow>, playerId: string): nat
  {
    |RowsOf(seasonal, playerId)|
  }

  function PlayerIds(rows: seq<SeasonRow>): (ids: seq<string>)
    ensures |ids| == |rows|
    ensures forall k :: 0 <= k < |rows| ==> ids[k] == rows[k].playerId
  {
    seq(|rows|, k requires 0 <= k < |rows| => rows[k].playerId)
  }

  /** Some filter is switched on. */
  predicate AnyEnabled(filters: map<string, bool>)
  {
    exists pos :: pos in filters && filters[pos]
  }

  /** The positions whose filter is switched on. */
  function Allowed(filters: map<string, bool>): (allowed: set<string>)
    ensures forall pos :: pos in allowed <==> pos in filters && filters[pos]
  {
    set pos | pos in filters && filters[pos]
  }

  /** The row's position is one of `allowed`; a null position never is. */
  predicate AtAllowed(r: SeasonRow, allowed: set<string>)
  {
    r.position.Some? && r.position.value in allowed
  }

  /** Players with at least `minSeasons` seasonal rows, each once. */
  function ByCount(seasonal: seq<SeasonRow>, minSeasons: int): seq<string>
  {
    Filter(Dedup(PlayerIds(seasonal)), EnoughSeasons(seasonal, minSeasons))
  }

  function EnoughSeasons(seasonal: seq<SeasonRow>, minSeasons: int): string -> bool
  {
    (id: string) => SeasonCount(seasonal, id) >= minSeasons
  }

  /** The players to predict for: enough seasonal rows and, when some
      position filter is on, a row at an allowed position. Polars leaves the
      order of the ids unspecified; here they come in order of first
      appearance. */
  function Eligible(seasonal: seq<SeasonRow>, config: PredictionConfig): seq<string>
  {
    var byCount := ByCount(seasonal, MinSeasons(config));
    var filters := PositionFilters(config);
    if AnyEnabled(filters) then
      var allowed := Allowed(filters);
      Dedup(PlayerIds(Filter(seasonal, (r: SeasonRow) => r.playerId in byCount && AtAllowed(r, allowed))))
    else byCount
  }

  lemma IdOccurs(rows: seq<SeasonRow>, id: string)
    ensures id in PlayerIds(rows) <==> exists r :: r in rows && r.playerId == id
  {
    if id in PlayerIds(rows) {
      var k :| 0 <= k < |rows| && PlayerIds(rows)[k] == id;
      assert rows[k] in rows;
    }
    if exists r :: r in rows && r.playerId == id {
      var r :| r in rows && r.playerId == id;
      var k :| 0 <= k < |rows| && rows[k] == r;
      assert PlayerIds(rows)[k] == id;
    }
  }

  /** A player has seasonal rows exactly when the table mentions them. */
  lemma RowsOfNonEmpty(seasonal: seq<SeasonRow>, id: string)
    ensures SeasonCount(seasonal, id) > 0 <==> exists r :: r in seasonal && r.playerId == id
  {
    var rows := RowsOf(seasonal, id);
    if rows != [] {
      assert rows[0] in rows;
    }
  }

  /** The players kept by the row count: each once, exactly those with at
      least one and at least `minSeasons` seasonal rows. */
  lemma ByCountIff(seasonal: seq<SeasonRow>, minSeasons: int, id: string)
    ensures Distinct(ByCount(seasonal, minSeasons))
    ensures id in ByCount(seasonal, minSeasons) <==> SeasonCount(seasonal, id) > 0 && SeasonCount(seasonal, id) >= minSeasons
  {
    FilterDistinct(Dedup(PlayerIds(seasonal)), EnoughSeasons(seasonal, minSeasons));
    FilterMembers(Dedup(PlayerIds(seasonal)), EnoughSeasons(seasonal, minSeasons));
    IdOccurs(seasonal, id);
    RowsOfNonEmpty(seasonal, id);
  }

  /** A player is eligible exactly when they have at least `min_seasons_played`
      seasonal rows and, if some position filter is on, a seasonal row at an
      enabled position; no player is listed twice. */
  lemma EligibleIff(seasonal: seq<SeasonRow>, config: PredictionConfig, id: string)
    ensures Distinct(Eligible(seasonal, config))
    ensures id in Eligible(seasonal, config)
        <==> SeasonCount(seasonal, id) > 0 && SeasonCount(seasonal, id) >= MinSeasons(config)
             && (AnyEnabled(PositionFilters(config)) ==>
                   exists r :: r in seasonal && r.playerId == id && AtAllowed(r, Allowed(PositionFilters(config))))
  {
    var byCount := ByCount(seasonal, MinSeasons(config));
    var filters := PositionFilters(config);
    ByCountIff(seasonal, MinSeasons(config), id);
    if AnyEnabled(filters) {
      var allowed := Allowed(filters);
      var keep := (r: SeasonRow) => r.playerId in byCount && AtAllowed(r, allowed);
      var kept := Filter(seasonal, keep);
      FilterMembers(seasonal, keep);
      IdOccurs(kept, id);
      RowsOfNonEmpty(seasonal, id);
    }
  }

  // ---------------------------------------------------------------------
  // Predicting for every eligible player
  // ---------------------------------------------------------------------

  const NoPredictionsMessage := "No predictions generated. Check data and filters."

  /** The predictions of the given players, in their order, skipping the
      players for whom no prediction is produced. */
  function Collect(p: FantasyPredictor, seasonal: seq<SeasonRow>, ids: seq<string>): (preds: seq<Prediction>)
    ensures |preds| <= |ids|
  {
    if ids == [] then []
    else
      var rest := Collect(p, seasonal, ids[..|ids| - 1]);
      match PredictPlayer(p, seasonal, ids[|ids| - 1])
      case Some(x) => rest + [x]
      case None => rest
  }

  /** Each collected prediction is the prediction of a listed player. */
  lemma {:induction false} CollectIsSound(p: FantasyPredictor, seasonal: seq<SeasonRow>, ids: seq<string>)
    ensures forall x :: x in Collect(p, seasonal, ids) ==>
              x.playerId in ids && PredictPlayer(p, seasonal, x.playerId) == Some(x)
  {
    if ids != [] {
      var init := ids[..|ids| - 1];
      CollectIsSound(p, seasonal, init);
      assert forall id :: id in init ==> id in ids;
    }
  }

  /** Every listed player with a prediction has it collected. */
  lemma {:induction false} CollectIsComplete(p: FantasyPredictor, seasonal: seq<SeasonRow>, ids: seq<string>)
    ensures forall id :: id in ids && PredictPlayer(p, seasonal, id).Some? ==>
              PredictPlayer(p, seasonal, id).value in Collect(p, seasonal, ids)
  {
    if ids != [] {
      var init := ids[..|ids| - 1];
      CollectIsComplete(p, seasonal, init);
      assert forall id :: id in ids ==> id in init || id == ids[|ids| - 1];
    }
  }

  /** Nothing is collected exactly when no listed player has a prediction. */
  lemma CollectEmptyIff(p: FantasyPredictor, seasonal: seq<SeasonRow>, ids: seq<string>)
    ensures Collect(p, seasonal, ids) == [] <==> forall id :: id in ids ==> PredictPlayer(p, seasonal, id).None?
  {
    var preds := Collect(p, seasonal, ids);
    CollectIsSound(p, seasonal, ids);
    CollectIsComplete(p, seasonal, ids);
    if preds != [] {
      assert preds[0] in preds;
    }
  }


  /** The seasonal table built from the loaded games: scored with the
      predictor's calculator, then aggregated per player, season and position. */
  function SeasonalTable(p: FantasyPredictor, loaded: Frame<Column, GameRow>, sqrt: real -> real): (t: seq<SeasonRow>)
    requires SqrtLike(sqrt)
    ensures Distinct(SeasonKeys(t))
    ensures forall key :: key in SeasonKeys(t) <==> key in GameKeys(loaded.rows)
    ensures GamesCounted(t) == loaded.Height()
  {
    var scored := CalculateFantasyPoints(p.calculator, loaded).rows;
    assert GameKeys(scored) == GameKeys(loaded.rows);
    GamesAreConserved(scored, sqrt);
    SeasonalStats(CalculateFantasyPoints(p.calculator, loaded).rows, sqrt)
  }

  /** The ranking key: predicted season points. */
  function SeasonPoints(x: Prediction): real
  {
    x.predictedSeasonFp
  }

  /** Ordered by predicted season points, largest first. */
  predicate SortedDesc(preds: seq<Prediction>)
  {
    SortedBy(preds, SeasonPoints)
  }

  /** The descending sort of the prediction table. Polars does not promise
      an order among equal scores; this is one of the allowed orders. */
  function SortDesc(preds: seq<Prediction>): (r: seq<Prediction>)
    ensures forall i, j :: 0 <= i < j < |r| ==> r[i].predictedSeasonFp >= r[j].predictedSeasonFp
    ensures multiset(r) == multiset(preds)
  {
    SortBy(preds, SeasonPoints)
  }

  /** Predict for every eligible player of the seasonal table, skipping
      players without a prediction; fail when nothing is left, otherwise rank
      the predictions by predicted season points. */
  method PredictAll(p: FantasyPredictor, seasonal: seq<SeasonRow>) returns (r: Result<seq<Prediction>, string>)
    ensures var collected := Collect(p, seasonal, Eligible(seasonal, p.config));
            && (collected == [] ==> r == Failure(NoPredictionsMessage))
            && (collected != [] ==> r == Success(SortDesc(collected)))
  {
    var eligible := Eligible(seasonal, p.config);
    var predictions: seq<Prediction> := [];
    var i := 0;
    while i < |eligible|
      invariant 0 <= i <= |eligible|
      invariant predictions == Collect(p, seasonal, eligible[..i])
    {
      var prediction := PredictPlayer(p, seasonal, eligible[i]);
      assert eligible[..i + 1][..i] == eligible[..i];
      if prediction.Some? {
        predictions := predictions + [prediction.value];
      }
      i := i + 1;
    }
    assert eligible[..i] == eligible;
    if predictions == [] {
      return Failure(NoPredictionsMessage);
    }
    return Success(SortDesc(predictions));
  }

  /** The whole run from the loaded games: score them, aggregate them per
      season, then predict for every eligible player. */
  method PredictAllPlayers(p: FantasyPredictor, loaded: Frame<Column, GameRow>, sqrt: real -> real)
    returns (r: Result<seq<Prediction>, string>)
    requires SqrtLike(sqrt)
    ensures var seasonal := SeasonalTable(p, loaded, sqrt);
            var collected := Collect(p, seasonal, Eligible(seasonal, p.config));
            && (collected == [] ==> r == Failure(NoPredictionsMessage))
            && (collected != [] ==> r == Success(SortDesc(collected)))
  {
    var seasonal := SeasonalTable(p, loaded, sqrt);
    r := PredictAll(p, seasonal);
  }

  /** Every collected prediction belongs to an eligible player with enough
      seasonal rows, and is that player's prediction. */
  lemma CollectedAreEligible(p: FantasyPredictor, seasonal: seq<SeasonRow>, x: Prediction)
    requires x in Collect(p, seasonal, Eligible(seasonal, p.config))
    ensures x.playerId in Eligible(seasonal, p.config)
    ensures SeasonCount(seasonal, x.playerId) >= MinSeasons(p.config)
    ensures PredictPlayer(p, seasonal, x.playerId) == Some(x)
  {
    CollectIsSound(p, seasonal, Eligible(seasonal, p.config));
    EligibleIff(seasonal, p.config, x.playerId);
  }

  /** A successful run ranks the collected predictions: each of them is an
      eligible player's, and every eligible player with a prediction is in
      it. A failure means no eligible player has a prediction. */
  lemma AllPlayersOutcome(p: FantasyPredictor, seasonal: seq<SeasonRow>)
    ensures var collected := Collect(p, seasonal, Eligible(seasonal, p.config));
            && SortedDesc(SortDesc(collected))
            && multiset(SortDesc(collected)) == multiset(collected)
            && (forall x :: x in SortDesc(collected) ==>
                  x.playerId in Eligible(seasonal, p.config)
                  && SeasonCount(seasonal, x.playerId) >= MinSeasons(p.config))
            && (forall id :: id in Eligible(seasonal, p.config) && PredictPlayer(p, seasonal, id).Some? ==>
                  PredictPlayer(p, seasonal, id).value in SortDesc(collected))
            && (collected == [] <==>
                  forall id :: id in Eligible(seasonal, p.config) ==> PredictPlayer(p, seasonal, id).None?)
  {
    var collected := Collect(p, seasonal, Eligible(seasonal, p.config));
    CollectIsSound(p, seasonal, Eligible(seasonal, p.config));
    CollectIsComplete(p, seasonal, Eligible(seasonal, p.config));
    CollectEmptyIff(p, seasonal, Eligible(seasonal, p.config));
    forall x | x in SortDesc(collected)
      ensures x.playerId in Eligible(seasonal, p.config)
      ensures SeasonCount(seasonal, x.playerId) >= MinSeasons(p.config)
    {
      assert x in multiset(SortDesc(collected));
      CollectedAreEligible(p, seasonal, x);
    }
    forall id | id in Eligible(seasonal, p.config) && PredictPlayer(p, seasonal, id).Some?
      ensures PredictPlayer(p, seasonal, id).value in SortDesc(collected)
    {
      assert PredictPlayer(p, seasonal, id).value in multiset(collected);
    }
  }

  // ---------------------------------------------------------------------
  // The top of the ranking
  // ---------------------------------------------------------------------

  /** How many rows `head(n)` keeps: the first n, or all but the last |n|
      for a negative n. */
  function HeadLength(n: int, len: nat): (k: nat)
    ensures k <= len
    ensures n >= 0 ==> k == if n < len then n else len
    ensures n < 0 ==> k + (if -n < len then -n else len) == len
  {
    if n >= 0 then (if n < len then n else len)
    else if len + n > 0 then len + n else 0
  }

  /** The first rows of the ranking; n defaults to the configured
      `top_n_players`, else 50. A non-negative n keeps the first n rows (all
      of them when there are fewer); a negative n drops the last |n|. */
  function GetTopPlayers(p: FantasyPredictor, preds: seq<Prediction>, n: Option<int>): (top: seq<Prediction>)
    ensures |top| <= |preds| && top == preds[..|top|]
    ensures var k := n.GetOr(TopN(p.config));
            && (0 <= k <= |preds| ==> |top| == k)
            && (k > |preds| ==> top == preds)
            && (-|preds| <= k < 0 ==> |top| == |preds| + k)
            && (k < -|preds| ==> top == [])
  {
    preds[..HeadLength(n.GetOr(TopN(p.config)), |preds|)]
  }

  /** Taken from a ranking, the top players are ranked too and none of them
      scores below a player left out. */
  lemma TopPlayersAreBest(p: FantasyPredictor, preds: seq<Prediction>, n: Option<int>)
    requires SortedDesc(preds)
    ensures var top := GetTopPlayers(p, preds, n);
            && SortedDesc(top)
            && top == preds[..|top|]
            && forall i, j :: 0 <= i < |top| <= j < |preds| ==> top[i].predictedSeasonFp >= preds[j].predictedSeasonFp
  {
  }

  /** Without an explicit count and without a configured one, the top 50 are
      returned, or everything when there are fewer. */
  lemma DefaultTopIsFifty(p: FantasyPredictor, preds: seq<Prediction>)
    requires p.config.topNPlayers.None?
    ensures |GetTopPlayers(p, preds, None)| == if |preds| < 50 then |preds| else 50
  {
  }
}
