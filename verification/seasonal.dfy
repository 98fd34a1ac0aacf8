/** Per-season aggregation of scored games: one row per player, name, season
    and position, with the total, mean, count, spread and extremes of the
    games' fantasy points and a consistency score derived from the spread. */
module Seasonal {
  import opened Wrappers
  import opened SeqUtil
  import opened FantasyCalculator

  /** The grouping key of a game. */
  datatype GroupKey = GroupKey(playerId: string, playerName: string, season: int, position: Option<string>)

  function KeyOf(game: GameRow): GroupKey
  {
    GroupKey(game.playerId, game.playerName, game.season, game.position)
  }

  /** One aggregated season of one player. Every aggregate of the points
      column skips null cells, except `gamesPlayed`, which counts rows. */
  datatype SeasonRow = SeasonRow(
    playerId: string,
    playerName: string,
    season: int,
    position: Option<string>,
    totalFp: real,
    avgFpPerGame: Option<real>,
    gamesPlayed: nat,
    fpStd: Option<real>,
    minFp: Option<real>,
    maxFp: Option<real>,
    consistencyScore: real)

  function KeyOfSeason(row: SeasonRow): GroupKey
  {
    GroupKey(row.playerId, row.playerName, row.season, row.position)
  }

  /** Every game of the list has a non-null points cell. */
  predicate AllPresent(games: seq<GameRow>)
  {
    forall k :: 0 <= k < |games| ==> games[k].fantasyPoints.Some?
  }

  /** The non-null fantasy points of the games, in order. */
  function Present(games: seq<GameRow>): (xs: seq<real>)
    ensures |xs| <= |games|
    ensures AllPresent(games) ==> |xs| == |games|
  {
    if games == [] then []
    else
      var rest := Present(games[1..]);
      assert AllPresent(games) ==> AllPresent(games[1..]) by {
        assert forall k :: 1 <= k < |games| ==> games[k] == games[1..][k - 1];
      }
      match games[0].fantasyPoints
      case Some(x) => [x] + rest
      case None => rest
  }

  /** With no null cell the scores are the games' own, index by index; there
      are none exactly when every cell is null. */
  lemma {:induction false} PresentValues(games: seq<GameRow>)
    ensures AllPresent(games) ==>
              forall k :: 0 <= k < |games| ==> Present(games)[k] == games[k].fantasyPoints.value
    ensures Present(games) == [] <==> forall k :: 0 <= k < |games| ==> games[k].fantasyPoints.None?
  {
    if games != [] {
      PresentValues(games[1..]);
      assert forall k :: 1 <= k < |games| ==> games[k] == games[1..][k - 1];
    }
  }

  lemma PresentCons(g: GameRow, rest: seq<GameRow>)
    ensures Present([g] + rest) == (if g.fantasyPoints.Some? then [g.fantasyPoints.value] else []) + Present(rest)
  {
    assert ([g] + rest)[0] == g && ([g] + rest)[1..] == rest;
  }

  lemma {:induction false} PresentAppend(a: seq<GameRow>, b: seq<GameRow>)
    ensures Present(a + b) == Present(a) + Present(b)
  {
    if a == [] {
      assert a + b == b;
    } else {
      var h := (if a[0].fantasyPoints.Some? then [a[0].fantasyPoints.value] else []);
      calc {
        Present(a + b);
        { assert a + b == [a[0]] + (a[1..] + b); }
        Present([a[0]] + (a[1..] + b));
        { PresentCons(a[0], a[1..] + b); }
        h + Present(a[1..] + b);
        { PresentAppend(a[1..], b); }
        h + (Present(a[1..]) + Present(b));
        { PresentCons(a[0], a[1..]); assert a == [a[0]] + a[1..]; }
        Present(a) + Present(b);
      }
    }
  }

  /** `Present` works game by game: the games before, the one game's score
      if it is not null, and the games after, in that order. */
  lemma PresentSplit(a: seq<GameRow>, g: GameRow, b: seq<GameRow>)
    ensures Present(a + [g] + b)
         == Present(a) + (if g.fantasyPoints.Some? then [g.fantasyPoints.value] else []) + Present(b)
  {
    PresentAppend(a + [g], b);
    PresentAppend(a, [g]);
    PresentCons(g, []);
    assert [g] + [] == [g];
  }

  lemma SquareNonNegative(x: real)
    ensures x * x >= 0.0
  {
    if x < 0.0 {
      assert x * x == (-x) * (-x);
    }
  }

  /** Sum of squared deviations of the values from `mu`. */
  function SquaredDeviations(xs: seq<real>, mu: real): real
  {
    if xs == [] then 0.0 else (xs[0] - mu) * (xs[0] - mu) + SquaredDeviations(xs[1..], mu)
  }

  lemma {:induction false} DeviationsNonNegative(xs: seq<real>, mu: real)
    ensures SquaredDeviations(xs, mu) >= 0.0
  {
    if xs != [] {
      SquareNonNegative(xs[0] - mu);
      DeviationsNonNegative(xs[1..], mu);
    }
  }

  /** Sample variance with one delta degree of freedom. */
  function SampleVariance(xs: seq<real>): (v: real)
    requires |xs| >= 2
    ensures v >= 0.0
  {
    DeviationsNonNegative(xs, Mean(xs));
    SquaredDeviations(xs, Mean(xs)) / ((|xs| - 1) as real)
  }

  /** What the model needs of the square root: it maps non-negative numbers
      to non-negative numbers and 0 to 0. */
  ghost predicate SqrtLike(sqrt: real -> real)
  {
    sqrt(0.0) == 0.0 && forall x :: 0.0 <= x ==> 0.0 <= sqrt(x)
  }

  /** Sample standard deviation; null for fewer than two values. */
  function StdDev(xs: seq<real>, sqrt: real -> real): (s: Option<real>)
    requires SqrtLike(sqrt)
    ensures s.Some? <==> |xs| >= 2
    ensures s.Some? ==> s.value >= 0.0
  {
    if |xs| < 2 then None else Some(sqrt(SampleVariance(xs)))
  }

  /** Consistency score: 0.5 for a null spread, otherwise 1/(std + 1), which
      lies in (0, 1] and is 1 exactly for a zero spread. */
  function Consistency(std: Option<real>): (c: real)
    requires std.Some? ==> std.value >= 0.0
    ensures 0.0 < c <= 1.0
    ensures std.None? ==> c == 0.5
    ensures std.Some? ==> (c == 1.0 <==> std.value == 0.0)
    ensures std.Some? ==> c * (std.value + 1.0) == 1.0
  {
    if std.None? then 0.5 else 1.0 / (std.value + 1.0)
  }

  /** The aggregate of one group of games. */
  function Summarize(key: GroupKey, group: seq<GameRow>, sqrt: real -> real): (r: SeasonRow)
    requires SqrtLike(sqrt)
    ensures KeyOfSeason(r) == key
    ensures r.gamesPlayed == |group|
    ensures r.avgFpPerGame.Some? == r.minFp.Some? == r.maxFp.Some?
    ensures r.avgFpPerGame.None? <==> forall k :: 0 <= k < |group| ==> group[k].fantasyPoints.None?
    ensures r.avgFpPerGame.Some? ==> r.minFp.value <= r.avgFpPerGame.value <= r.maxFp.value
    ensures r.avgFpPerGame.None? ==> r.totalFp == 0.0
    ensures r.totalFp == Sum(Present(group))
    ensures Present(group) != [] ==>
              && r.avgFpPerGame == Some(Mean(Present(group)))
              && r.minFp == Some(MinOf(Present(group)))
              && r.maxFp == Some(MaxOf(Present(group)))
    ensures r.fpStd == StdDev(Present(group), sqrt)
    ensures r.fpStd.Some? <==> |Present(group)| >= 2
    ensures r.fpStd.Some? ==> r.fpStd.value >= 0.0
    ensures r.consistencyScore == Consistency(r.fpStd)
    ensures 0.0 < r.consistencyScore <= 1.0
  {
    PresentValues(group);
    var xs := Present(group);
    var std := StdDev(xs, sqrt);
    SeasonRow(
      key.playerId, key.playerName, key.season, key.position,
      Sum(xs),
      if xs == [] then None else Some(Mean(xs)),
      |group|,
      std,
      if xs == [] then None else Some(MinOf(xs)),
      if xs == [] then None else Some(MaxOf(xs)),
      Consistency(std))
  }

  /** The key of every game, in order. */
  function GameKeys(games: seq<GameRow>): (keys: seq<GroupKey>)
    ensures |keys| == |games|
    ensures forall k :: 0 <= k < |games| ==> keys[k] == KeyOf(games[k])
  {
    seq(|games|, k requires 0 <= k < |games| => KeyOf(games[k]))
  }

  /** The key of every aggregated row, in order. */
  function SeasonKeys(rows: seq<SeasonRow>): (keys: seq<GroupKey>)
    ensures |keys| == |rows|
    ensures forall i :: 0 <= i < |rows| ==> keys[i] == KeyOfSeason(rows[i])
  {
    seq(|rows|, i requires 0 <= i < |rows| => KeyOfSeason(rows[i]))
  }

  /** The games that share a key, in their original order. */
  function GroupOf(games: seq<GameRow>, key: GroupKey): (group: seq<GameRow>)
    ensures forall g :: g in group <==> g in games && KeyOf(g) == key
  {
    var keep := (g: GameRow) => KeyOf(g) == key;
    FilterMembers(games, keep);
    Filter(games, keep)
  }

  /** The aggregate of the group of games with the given key. */
  function RowFor(games: seq<GameRow>, key: GroupKey, sqrt: real -> real): (r: SeasonRow)
    requires SqrtLike(sqrt)
    ensures KeyOfSeason(r) == key
    ensures r.gamesPlayed == |GroupOf(games, key)|
    ensures r.gamesPlayed == 0 <==> forall g :: g in games ==> KeyOf(g) != key
  {
    var group := GroupOf(games, key);
    assert group != [] ==> group[0] in group;
    Summarize(key, group, sqrt)
  }

  /** Group the games and aggregate each group: one row per distinct key,
      and a row for every key. Polars leaves the order of the groups
      unspecified; here they come in order of first appearance. */
  function SeasonalStats(games: seq<GameRow>, sqrt: real -> real): (out: seq<SeasonRow>)
    requires SqrtLike(sqrt)
    ensures Distinct(SeasonKeys(out))
    ensures forall key :: key in SeasonKeys(out) <==> key in GameKeys(games)
    ensures forall i :: 0 <= i < |out| ==> out[i] == RowFor(games, KeyOfSeason(out[i]), sqrt)
  {
    var keys := Dedup(GameKeys(games));
    var out := seq(|keys|, i requires 0 <= i < |keys| => RowFor(games, keys[i], sqrt));
    assert SeasonKeys(out) == keys;
    out
  }

  // ---------------------------------------------------------------------
  // Properties of the aggregation
  // ---------------------------------------------------------------------

  /** The points of the games with a null cell read as 0. */
  function PointsOrZero(games: seq<GameRow>): (xs: seq<real>)
    ensures |xs| == |games|
  {
    seq(|games|, k requires 0 <= k < |games| => games[k].fantasyPoints.GetOr(0.0))
  }

  /** The season total skips null cells, which is the same as counting them as 0. */
  lemma {:induction false} TotalCountsNullsAsZero(games: seq<GameRow>)
    ensures Sum(Present(games)) == Sum(PointsOrZero(games))
  {
    if games != [] {
      TotalCountsNullsAsZero(games[1..]);
      assert PointsOrZero(games) == [games[0].fantasyPoints.GetOr(0.0)] + PointsOrZero(games[1..]);
      SumAppend([games[0].fantasyPoints.GetOr(0.0)], PointsOrZero(games[1..]));
      if games[0].fantasyPoints.Some? {
        SumAppend([games[0].fantasyPoints.value], Present(games[1..]));
      }
    }
  }

  /** Without null cells the average per game is the total over the number
      of games played. */
  lemma AverageIsTotalPerGame(key: GroupKey, group: seq<GameRow>, sqrt: real -> real)
    requires SqrtLike(sqrt)
    requires group != [] && AllPresent(group)
    ensures Summarize(key, group, sqrt).avgFpPerGame
         == Some(Summarize(key, group, sqrt).totalFp / (Summarize(key, group, sqrt).gamesPlayed as real))
  {
    var xs := Present(group);
    assert |xs| == |group|;
  }

  /** A player who scored exactly `x` in each of at least two games has zero
      spread and the highest consistency, 1.0; minimum, average and maximum
      all equal `x`. */
  lemma IdenticalGamesFullyConsistent(key: GroupKey, group: seq<GameRow>, sqrt: real -> real, x: real)
    requires SqrtLike(sqrt)
    requires |group| >= 2
    requires forall k :: 0 <= k < |group| ==> group[k].fantasyPoints == Some(x)
    ensures Summarize(key, group, sqrt).fpStd == Some(0.0)
    ensures Summarize(key, group, sqrt).consistencyScore == 1.0
    ensures Summarize(key, group, sqrt).minFp == Summarize(key, group, sqrt).avgFpPerGame
         == Summarize(key, group, sqrt).maxFp == Some(x)
  {
    var xs := Present(group);
    PresentValues(group);
    assert forall k :: 0 <= k < |xs| ==> xs[k] == x;
    ConstantStatistics(xs, x);
  }

  lemma ConstantStatistics(xs: seq<real>, x: real)
    requires |xs| >= 2
    requires forall k :: 0 <= k < |xs| ==> xs[k] == x
    ensures MinOf(xs) == x && MaxOf(xs) == x && Mean(xs) == x
    ensures SampleVariance(xs) == 0.0
  {
    assert MinOf(xs) == x && MaxOf(xs) == x;
    ConstantDeviations(xs, x);
  }

  lemma {:induction false} ConstantDeviations(xs: seq<real>, x: real)
    requires forall k :: 0 <= k < |xs| ==> xs[k] == x
    ensures SquaredDeviations(xs, x) == 0.0
  {
    if xs != [] {
      ConstantDeviations(xs[1..], x);
    }
  }

  /** A single game gives no spread, so the consistency falls back to 0.5. */
  lemma SingleGameHalfConsistent(key: GroupKey, game: GameRow, sqrt: real -> real)
    requires SqrtLike(sqrt)
    ensures Summarize(key, [game], sqrt).fpStd.None?
    ensures Summarize(key, [game], sqrt).consistencyScore == 0.5
  {
  }

  /** A larger spread never gives a higher consistency score, and a strictly
      larger one gives a strictly lower score. */
  lemma ConsistencyDecreases(s1: real, s2: real)
    requires 0.0 <= s1 <= s2
    ensures Consistency(Some(s2)) <= Consistency(Some(s1))
    ensures s1 < s2 ==> Consistency(Some(s2)) < Consistency(Some(s1))
  {
    ReciprocalAntitone(s1 + 1.0, s2 + 1.0);
  }

  lemma ReciprocalAntitone(a: real, b: real)
    requires 0.0 < a <= b
    ensures 1.0 / b <= 1.0 / a
    ensures a < b ==> 1.0 / b < 1.0 / a
  {
    var ra, rb := 1.0 / a, 1.0 / b;
    assert ra * a == 1.0;
    assert rb * b == 1.0;
    MulBetween(a, rb, a, b);
    assert rb * a <= 1.0;
    if rb > ra {
      MulBetween(ra, a, ra, rb);
      assert false;
    }
  }

  /** Total of the games played over the aggregated rows. */
  function GamesCounted(rows: seq<SeasonRow>): nat
  {
    if rows == [] then 0 else rows[0].gamesPlayed + GamesCounted(rows[1..])
  }

  /** Number of keys in `keys` equal to `key`. */
  function Occurrences(keys: seq<GroupKey>, key: GroupKey): nat
  {
    if keys == [] then 0 else (if keys[0] == key then 1 else 0) + Occurrences(keys[1..], key)
  }

  lemma {:induction false} DistinctOccursOnce(keys: seq<GroupKey>, key: GroupKey)
    requires Distinct(keys)
    ensures Occurrences(keys, key) == if key in keys then 1 else 0
  {
    if keys != [] {
      DistinctOccursOnce(keys[1..], key);
      if keys[0] == key {
        assert key !in keys[1..] by {
          forall j | 0 <= j < |keys[1..]|
            ensures keys[1..][j] != key
          {
            assert keys[1..][j] == keys[j + 1];
          }
        }
      }
    }
  }

  /** Sum over `keys` of the sizes of their groups. */
  function GroupSizes(games: seq<GameRow>, keys: seq<GroupKey>): nat
  {
    if keys == [] then 0 else |GroupOf(games, keys[0])| + GroupSizes(games, keys[1..])
  }

  lemma {:induction false} GroupSizesStep(g: GameRow, rest: seq<GameRow>, keys: seq<GroupKey>)
    ensures GroupSizes([g] + rest, keys) == Occurrences(keys, KeyOf(g)) + GroupSizes(rest, keys)
  {
    if keys != [] {
      GroupSizesStep(g, rest, keys[1..]);
      assert ([g] + rest)[1..] == rest;
    }
  }

  /** Distinct keys that cover every game's key split the games exactly:
      the group sizes add up to the number of games. */
  lemma {:induction false} GroupSizesCover(games: seq<GameRow>, keys: seq<GroupKey>)
    requires Distinct(keys)
    requires forall k :: 0 <= k < |games| ==> KeyOf(games[k]) in keys
    ensures GroupSizes(games, keys) == |games|
  {
    if games == [] {
      EmptyGroups(keys);
    } else {
      assert games == [games[0]] + games[1..];
      GroupSizesStep(games[0], games[1..], keys);
      DistinctOccursOnce(keys, KeyOf(games[0]));
      forall k | 0 <= k < |games[1..]|
        ensures KeyOf(games[1..][k]) in keys
      {
        assert games[1..][k] == games[k + 1];
      }
      GroupSizesCover(games[1..], keys);
    }
  }

  lemma {:induction false} EmptyGroups(keys: seq<GroupKey>)
    ensures GroupSizes([], keys) == 0
  {
    if keys != [] {
      EmptyGroups(keys[1..]);
    }
  }

  lemma {:induction false} GamesCountedIsGroupSizes(games: seq<GameRow>, rows: seq<SeasonRow>, sqrt: real -> real)
    requires SqrtLike(sqrt)
    requires forall i :: 0 <= i < |rows| ==> rows[i] == RowFor(games, KeyOfSeason(rows[i]), sqrt)
    ensures GamesCounted(rows) == GroupSizes(games, SeasonKeys(rows))
  {
    if rows != [] {
      GamesCountedIsGroupSizes(games, rows[1..], sqrt);
      assert SeasonKeys(rows)[1..] == SeasonKeys(rows[1..]);
    }
  }

  /** Every game is counted in exactly one aggregated row: the games played
      over all rows add up to the number of games. */
  lemma GamesAreConserved(games: seq<GameRow>, sqrt: real -> real)
    requires SqrtLike(sqrt)
    ensures GamesCounted(SeasonalStats(games, sqrt)) == |games|
  {
    var out := SeasonalStats(games, sqrt);
    GamesCountedIsGroupSizes(games, out, sqrt);
    forall k | 0 <= k < |games|
      ensures KeyOf(games[k]) in SeasonKeys(out)
    {
      assert GameKeys(games)[k] == KeyOf(games[k]);
    }
    GroupSizesCover(games, SeasonKeys(out));
  }
}
