# Fantasy football prediction core, modelled in Dafny

This project models the part of `pwn_fantasy_football` that turns game-level
player statistics into predictions for the next season:

- **Scoring** (`FantasyCalculator`, `fantasy_calculator.dfy`). The points of one game are a
  fixed linear form over ten optional statistical categories. The weights come from a
  scoring table: the standard one when no table is given, otherwise the given table with
  per-key defaults. An absent column contributes 0; a null cell makes the game's points
  null, as polars propagates nulls through `*` and `+`.
- **Seasonal aggregation** (`Seasonal`, `seasonal.dfy`). Games are grouped per player,
  season and position into total, mean, count, sample standard deviation, minimum and
  maximum. The consistency score is `1 / (std + 1)`, or 0.5 when the deviation is null.
- **Trend** (`TrendEstimator`, `trend_estimator.dfy`). The least-squares slope of a
  player's per-game average against the season, with its three fall-backs to 0.
- **Prediction** (`Predictor`, `predictor.dfy`). The per-player prediction: a
  weighted average of the last three seasons plus a trend adjustment and a
  consistency bonus, floored at 0 and projected to 17 games. As in the source, the
  weights go by the order the rows happen to be listed in; a weighting by season, most
  recent first, is modelled beside it as the corrected one (see "## Findings"). Around it sit the
  eligibility rule (minimum seasonal rows, optional position filter), the loop collecting
  every eligible player's prediction with its "no predictions" error, the ranking by
  predicted season points, and the top-N selection.
- **Data helpers** (`DataUtils`, `data_utils.dfy`). The season list with optional removal
  of the current year, vertical concatenation of polars/pandas tables with its
  empty-input error, and the case-insensitive output-format check that precedes a save.

Shared pieces:

- `Wrappers`: `Option` and `Result`.
- `SeqUtil`: sums, minimum, maximum, mean, dot products, de-duplication, filtering and a
  descending sort by a key, with their algebra.
- `Strings`: ASCII `upper`/`lower`.
- `Tables`: a frame as a set of columns plus a sequence of rows.

Other modelling choices:

- Floating-point numbers are modelled as mathematical reals. Seasons are integers, as in
  the source, so the trend's denominator `n·Σx² − (Σx)²` is exact.
- The square root used by the standard deviation is a parameter of which only
  "non-negative on non-negative input, and 0 at 0" is assumed (`Seasonal.SqrtLike`).
- Reading the clock in `get_season_list` is replaced by a `currentYear` parameter.

The predictor is a value (`FantasyPredictor`): once built, the source never updates its
fields. The two loops of the source are methods proved against specification
functions:

- `Predictor.PredictAll` against `Collect`;
- `DataUtils.MergeDataFrames` against `Concat`.

`DataUtils.GetSeasonList` is a method as well. It is a method because it stands for a
call that reads the clock.

## Model

| member | source | states |
|---|---|---|
| FantasyCalculator.NewCalculator | src/pwn_fantasy_football/prediction/fantasy_calculator.py:10-31 | no configuration installs the standard table, so every weight is its default; a given configuration, even an empty one, is kept as given |
| FantasyCalculator.Weight | src/pwn_fantasy_football/prediction/fantasy_calculator.py:50-132 | a category weighs its configured value when the scoring table has that key, and its standard default otherwise |
| FantasyCalculator.Contribution | src/pwn_fantasy_football/prediction/fantasy_calculator.py:50-132 | a category contributes 0 when its column is absent, value × weight when its cell is present, and null exactly when its column is present with a null cell |
| FantasyCalculator.StandardScoring | src/pwn_fantasy_football/prediction/fantasy_calculator.py:17-29 | the standard table holds every one of the ten categories at its standard weight |
| FantasyCalculator.PointsColumns | src/pwn_fantasy_football/prediction/fantasy_calculator.py:49-132 | the calculator adds one points column per category and no other kind of column |
| FantasyCalculator.CalculateFantasyPoints | src/pwn_fantasy_football/prediction/fantasy_calculator.py:33-150 | the output keeps every input row, in order, replacing only its `fantasy_points` by the game's score; its columns are the input's plus `fantasy_points` plus the ten points columns |
| FantasyCalculator.FantasyPointsNullIff | src/pwn_fantasy_football/prediction/fantasy_calculator.py:50-148 | a game's score is null exactly when some statistical column of the frame has a null cell in that row |
| FantasyCalculator.TotalNullIff | src/pwn_fantasy_football/prediction/fantasy_calculator.py:135-148 | a null-propagating sum is null exactly when one of its terms is null |
| FantasyCalculator.TotalOverCategories | src/pwn_fantasy_football/prediction/fantasy_calculator.py:135-148 | the sum over the category list adds the ten per-category points in the source's order, passing yards first and two-point conversions last |
| FantasyCalculator.FantasyPointsIsTotal | src/pwn_fantasy_football/prediction/fantasy_calculator.py:135-148 | the score is the null-propagating total of the ten category contributions |
| FantasyCalculator.ContributionIsProduct | src/pwn_fantasy_football/prediction/fantasy_calculator.py:50-132 | without null cells a category contributes its value times its weight, the value being 0 when its column is absent |
| FantasyCalculator.TotalIsWeightedSum | src/pwn_fantasy_football/prediction/fantasy_calculator.py:135-148 | without null cells the total over any list of categories is the plain weighted sum |
| FantasyCalculator.LinearForm | src/pwn_fantasy_football/prediction/fantasy_calculator.py:50-148 | without null cells the score is Σ value·weight over the ten categories |
| FantasyCalculator.AbsentContributionIsZero | src/pwn_fantasy_football/prediction/fantasy_calculator.py:50-56 | a category whose column is absent contributes exactly as a present column holding 0 would |
| FantasyCalculator.AbsentCountsAsZero | src/pwn_fantasy_football/prediction/fantasy_calculator.py:50-132 | adding an absent statistical column filled with 0 does not change any score |
| FantasyCalculator.StaleScoreIgnored | src/pwn_fantasy_football/prediction/fantasy_calculator.py:45-47 | the score is recomputed from the statistics; a previous `fantasy_points` value is never read or added to |
| FantasyCalculator.ExtraColumnsIgnored | src/pwn_fantasy_football/prediction/fantasy_calculator.py:50-132 | columns that are not statistical columns do not change a score |
| FantasyCalculator.ScoredColumnsAddNoStat | src/pwn_fantasy_football/prediction/fantasy_calculator.py:45-132 | the columns the calculator adds are not statistical columns, so a scored frame has the same statistical columns as its input |
| FantasyCalculator.ScoreIgnoresStaleAndOtherColumns | src/pwn_fantasy_football/prediction/fantasy_calculator.py:45-148 | two frames with the same statistical columns score a row alike, whatever its previous `fantasy_points` |
| FantasyCalculator.SameContributionsSameScore | src/pwn_fantasy_football/prediction/fantasy_calculator.py:135-148 | rows whose ten contributions agree get the same score |
| FantasyCalculator.RescoredRowUnchanged | src/pwn_fantasy_football/prediction/fantasy_calculator.py:33-150 | scoring a row of an already scored frame gives the score it already has |
| FantasyCalculator.RecalculationIsIdempotent | src/pwn_fantasy_football/prediction/fantasy_calculator.py:33-150 | scoring a scored frame returns it unchanged |
| FantasyCalculator.ZeroContributionsTotalZero | src/pwn_fantasy_football/prediction/fantasy_calculator.py:135-148 | when every term is 0 the null-propagating sum is 0 |
| FantasyCalculator.NoColumnsScoresZero | src/pwn_fantasy_football/prediction/fantasy_calculator.py:50-148 | a frame without any statistical column scores every game 0 |
| FantasyCalculator.EmptyConfigIsStandard | src/pwn_fantasy_football/prediction/fantasy_calculator.py:17-128 | an empty scoring configuration scores every game exactly like standard scoring, because every missing key falls back to its standard weight |
| FantasyCalculator.ContributionDoubles | src/pwn_fantasy_football/prediction/fantasy_calculator.py:50-132 | doubling the statistics doubles each contribution and keeps its null-ness |
| FantasyCalculator.PlusDoubles | src/pwn_fantasy_football/prediction/fantasy_calculator.py:135-148 | null-propagating addition commutes with doubling |
| FantasyCalculator.TotalDoubles | src/pwn_fantasy_football/prediction/fantasy_calculator.py:135-148 | doubling the statistics doubles the total over any category list and keeps its null-ness |
| FantasyCalculator.DoublingDoubles | src/pwn_fantasy_football/prediction/fantasy_calculator.py:50-148 | the score is homogeneous: a game with every statistic doubled scores twice as much, and is null exactly when the original is |
| FantasyCalculator.StandardScoringExample | src/pwn_fantasy_football/prediction/fantasy_calculator.py:17-148 | a quarterback game of 300 passing yards, 2 passing touchdowns, 1 interception and 20 rushing yards scores 12 + 8 − 2 + 2 = 20 under standard scoring, whatever its previous score |
| FantasyCalculator.PositionScoringColumns | src/pwn_fantasy_football/prediction/fantasy_calculator.py:162-169 | after upper-casing, QB gets passing yards, passing touchdowns, interceptions, rushing yards and rushing touchdowns; RB rushing yards, rushing touchdowns, receptions, receiving yards and receiving touchdowns; WR receptions, receiving yards, receiving touchdowns, rushing yards and rushing touchdowns; TE receptions, receiving yards and receiving touchdowns; any other position none; no list repeats a category |
| FantasyCalculator.PositionLookupIgnoresCase | src/pwn_fantasy_football/prediction/fantasy_calculator.py:169 | the lookup depends only on the upper-cased position |
| Strings.Upper | src/pwn_fantasy_football/prediction/fantasy_calculator.py:169 | upper-casing keeps the length and upper-cases each character |
| Strings.Lower | src/pwn_fantasy_football/data_fetch/utils.py:40-47 | lower-casing keeps the length and lower-cases each character |
| Strings.UpperIdempotent | src/pwn_fantasy_football/prediction/fantasy_calculator.py:169 | upper-casing twice is upper-casing once |
| Strings.LowerIdempotent | src/pwn_fantasy_football/data_fetch/utils.py:40-47 | lower-casing twice is lower-casing once |
| Seasonal.Present | src/pwn_fantasy_football/prediction/predictor.py:85-90 | the non-null scores never outnumber the games, and with no null score there is one per game |
| Seasonal.PresentSplit | src/pwn_fantasy_football/prediction/predictor.py:85-90 | the non-null scores come game by game in the games' order: those of the games before, the game's own score when it is not null, those of the games after; so order and repeats are kept |
| Seasonal.PresentValues | src/pwn_fantasy_football/prediction/predictor.py:85-90 | with no null score the scores are the games' own, index by index; there are none exactly when every score is null |
| Seasonal.SampleVariance | src/pwn_fantasy_football/prediction/predictor.py:88 | the sample variance (divisor n − 1) is never negative |
| Seasonal.StdDev | src/pwn_fantasy_football/prediction/predictor.py:88 | the standard deviation is defined exactly when there are at least two non-null scores, and is never negative |
| Seasonal.Consistency | src/pwn_fantasy_football/prediction/predictor.py:99-106 | the consistency lies in (0, 1]; it is 0.5 for a null deviation, 1 exactly for deviation 0, and otherwise the reciprocal of deviation + 1 |
| Seasonal.Summarize | src/pwn_fantasy_football/prediction/predictor.py:84-106 | a group's row keeps the group key; the total is the sum of the non-null scores; `games_played` counts the rows; average, minimum and maximum are the mean, minimum and maximum of the non-null scores, and all three are null exactly when every score is null; the deviation is the sample deviation of the non-null scores, present exactly when there are at least two; the consistency is the one of that deviation |
| Seasonal.SeasonalStats | src/pwn_fantasy_football/prediction/predictor.py:84-91 | one row per distinct (player, name, season, position) key occurring in the games, no key twice, each row the summary of its own group |
| Seasonal.GroupOf | src/pwn_fantasy_football/prediction/predictor.py:84 | a group holds exactly the games with its key |
| Seasonal.RowFor | src/pwn_fantasy_football/prediction/predictor.py:84-91 | the row for a key carries that key and counts exactly the games with that key, so zero exactly when no game has it |
| Seasonal.TotalCountsNullsAsZero | src/pwn_fantasy_football/prediction/predictor.py:85 | the total skips null scores, which is the same as counting them as 0 |
| Seasonal.AverageIsTotalPerGame | src/pwn_fantasy_football/prediction/predictor.py:85-87 | without null scores the average is the total divided by the games played |
| Seasonal.IdenticalGamesFullyConsistent | src/pwn_fantasy_football/prediction/predictor.py:86-106 | two or more identical scores give deviation 0, consistency 1, and minimum = average = maximum = that score |
| Seasonal.ConstantStatistics | src/pwn_fantasy_football/prediction/predictor.py:86-90 | a constant sequence has that constant as minimum, maximum and mean, and variance 0 |
| Seasonal.SingleGameHalfConsistent | src/pwn_fantasy_football/prediction/predictor.py:101-106 | a player-season with one game has a null deviation and consistency 0.5 |
| Seasonal.ConsistencyDecreases | src/pwn_fantasy_football/prediction/predictor.py:99-106 | a larger deviation never gives a higher consistency, and a strictly larger one gives a strictly lower consistency |
| Seasonal.GamesAreConserved | src/pwn_fantasy_football/prediction/predictor.py:84-87 | the `games_played` values of the seasonal table add up to the number of games |
| TrendEstimator.RowsOf | src/pwn_fantasy_football/prediction/predictor.py:121 | a player's rows are exactly the table's rows with that id |
| TrendEstimator.RowsOfSplit | src/pwn_fantasy_football/prediction/predictor.py:121 | a player's rows keep the table's order and repeats: the rows before a row, that row when it is the player's, the rows after |
| TrendEstimator.ValidPoints | src/pwn_fantasy_football/prediction/predictor.py:133-134 | dropping null averages never adds points, and drops none when every average is present |
| TrendEstimator.ValidPointsSplit | src/pwn_fantasy_football/prediction/predictor.py:133-134 | the points come row by row in the rows' order: those of the rows before, the row's (season, average) when its average is not null, those of the rows after |
| TrendEstimator.DenominatorNonNegative | src/pwn_fantasy_football/prediction/predictor.py:150 | n·Σx² − (Σx)² is never negative |
| TrendEstimator.DenominatorZeroIffConstant | src/pwn_fantasy_football/prediction/predictor.py:150-151 | the denominator is 0 exactly when every season is the same |
| TrendEstimator.DenominatorZeroIffSameSeason | src/pwn_fantasy_football/prediction/predictor.py:150-151 | the zero-denominator fall-back is taken exactly when all valid points share one season |
| TrendEstimator.DenominatorAsReal | src/pwn_fantasy_football/prediction/predictor.py:144-150 | the integer denominator equals the same expression over the seasons as reals |
| TrendEstimator.NumeratorOnLine | src/pwn_fantasy_football/prediction/predictor.py:143-153 | when the averages lie on m·season + b, the slope's numerator is m times its denominator |
| TrendEstimator.SlopeOfLine | src/pwn_fantasy_football/prediction/predictor.py:143-155 | points lying on a line m·season + b with at least two distinct seasons have slope exactly m |
| TrendEstimator.Slope | src/pwn_fantasy_football/prediction/predictor.py:150-153 | points that all share one season have slope 0: the zero-denominator fall-back |
| TrendEstimator.Trend | src/pwn_fantasy_football/prediction/predictor.py:110-155 | fewer than two seasonal rows, fewer than two non-null averages, or valid averages all from one season give trend 0 |
| TrendEstimator.TrendOfLine | src/pwn_fantasy_football/prediction/predictor.py:110-155 | a player whose averages lie on m·season + b, with two different seasons, has trend m: the estimator recovers an exact linear trend |
| Predictor.NewPredictor | src/pwn_fantasy_football/prediction/predictor.py:18-33 | the predictor keeps the target season; without a scoring key every weight is the standard one; with one, each configured weight is used and every category missing from it falls back to its standard weight |
| Predictor.LoadedPosition | src/pwn_fantasy_football/prediction/predictor.py:48-59 | on load a null cell stays null; a non-empty list gives its first entry, an empty list the text "[]", any other value its text |
| Predictor.PredictionPosition | src/pwn_fantasy_football/prediction/predictor.py:178-184 | at prediction time a non-empty list gives its first entry, an empty list or a null gives "UNK", any other value its text |
| Predictor.PositionNormalisations | src/pwn_fantasy_football/prediction/predictor.py:48-59 | loading a cell and then predicting from it names the same position as predicting from the raw cell, except for the empty list, loaded as "[]" where the prediction alone says "UNK"; a null cell stays null on load and is predicted as "UNK" |
| Predictor.NormalisedPositionIsStable | src/pwn_fantasy_football/prediction/predictor.py:178-184 | loading a stored cell again changes nothing, and the prediction reads a stored cell as its text, or "UNK" for a null |
| Predictor.Window | src/pwn_fantasy_football/prediction/predictor.py:187-189 | the window holds exactly the player's rows from target season − 3 on |
| Predictor.WindowSplit | src/pwn_fantasy_football/prediction/predictor.py:187-189 | the window keeps the rows' order and repeats: the rows before a row, that row when it is recent enough, the rows after |
| Predictor.ValidAverages | src/pwn_fantasy_football/prediction/predictor.py:198-203 | there are never more valid averages than rows, and none exactly when every average in the window is null |
| Predictor.ValidAveragesSplit | src/pwn_fantasy_football/prediction/predictor.py:198-203 | the valid averages come row by row in the window's order: those of the rows before, the row's average when it is not null, those of the rows after |
| Predictor.AscendingWeights | src/pwn_fantasy_football/prediction/predictor.py:210 | the i-th weight before reversal is 1 + 0.3·i |
| Predictor.WeightsByPosition | src/pwn_fantasy_football/prediction/predictor.py:209-211 | after reversal position j of n gets 1 + 0.3·(n − 1 − j): every weight is at least 1 and earlier list positions get strictly larger weights |
| Predictor.WeightsTotal | src/pwn_fantasy_football/prediction/predictor.py:213 | the weights add up to at least their number, so the division is defined |
| Predictor.WeightedAverage | src/pwn_fantasy_football/prediction/predictor.py:208-213 | the weighted average with the weights by list position, as written, lies between the smallest and the largest value |
| Predictor.TwoValueWeighting | src/pwn_fantasy_football/prediction/predictor.py:209-213 | with two values the first listed gets weight 1.3 and the second 1.0, whichever season each belongs to |
| Predictor.OldestFirstWeighting | src/pwn_fantasy_football/prediction/predictor.py:208-213 | as written, two rows listed oldest first with averages 10 (older season) and 20 give 33/2.3: the older season weighs 1.3 and the newer 1.0; listed newest first the same rows give 36/2.3 |
| Predictor.ValidAveragesOfValidRows | src/pwn_fantasy_football/prediction/predictor.py:198-203 | the valid averages are, in order, the averages of the rows whose average is not null |
| Predictor.NewestFirst | src/pwn_fantasy_football/prediction/predictor.py:210-211 | the valid rows of the window, rearranged so that seasons never increase: most recent first |
| Predictor.RowAveragesOfRearrangement | src/pwn_fantasy_football/prediction/predictor.py:198-203 | rearranging rows only rearranges their averages: each one is an average of the original rows |
| Predictor.RecencyWeightedAverage | src/pwn_fantasy_football/prediction/predictor.py:208-213 | the window's valid averages weighted most recent season first lie between the smallest and the largest valid average |
| Predictor.RecentSeasonsWeighMore | src/pwn_fantasy_football/prediction/predictor.py:210-211 | in the recency order a more recent season always sits where the weight is strictly larger than where an older season sits |
| Predictor.RecencyIgnoresRowOrder | src/pwn_fantasy_football/prediction/predictor.py:208-213 | when no two valid rows share a season, listing the window's rows in any other order gives the same recency order and the same weighted average |
| Predictor.WeightingsAgreeNewestFirst | src/pwn_fantasy_football/prediction/predictor.py:208-213 | when the window's rows are listed in strictly decreasing season order, the weighting by list position as written equals the weighting by recency |
| Predictor.ValidRowsAreDistinctSeasons | src/pwn_fantasy_football/prediction/predictor.py:198-203 | in a window with strictly decreasing seasons, two valid rows of the same season are the same row |
| Predictor.RecencyWeightingOfTwo | src/pwn_fantasy_football/prediction/predictor.py:208-213 | the two rows of OldestFirstWeighting weighted by recency give 36/2.3 in either order |
| Predictor.WeightedAverageOfConstant | src/pwn_fantasy_football/prediction/predictor.py:213 | identical values average to that value |
| Predictor.LatestSeason | src/pwn_fantasy_football/prediction/predictor.py:255 | the last season is one of the window's seasons and no window season exceeds it |
| Predictor.RawPrediction | src/pwn_fantasy_football/prediction/predictor.py:216-229 | with no trend and neutral consistency the raw prediction is the weighted average; with non-negative weights a rising trend and above-neutral consistency never lower it, and a falling trend and below-neutral consistency never raise it |
| Predictor.Assemble | src/pwn_fantasy_football/prediction/predictor.py:205-256 | the prediction carries the player's id and name, the position or "UNK" for a null one, the trend, the mean consistency of the window; per-game points = max(0, weighted average of the valid averages by list position, as written, + trend·trend_weight + (consistency − 0.5)·consistency_weight); season points = 17 × per-game points; the plain mean of the valid averages; the window's size and its latest season |
| Predictor.PredictPlayer | src/pwn_fantasy_football/prediction/predictor.py:157-256 | a produced prediction is for the requested player; when one exists and what it holds are stated by Predictor.PredictionExistsIff, Predictor.NoPredictionCases and Predictor.PredictionFormula |
| Predictor.PredictionExistsIff | src/pwn_fantasy_football/prediction/predictor.py:168-203 | a prediction exists exactly when the player has a row in the window with a non-null average |
| Predictor.NoPredictionCases | src/pwn_fantasy_football/prediction/predictor.py:168-203 | no rows, an empty window, or no non-null average in the window each give no prediction |
| Predictor.PredictionFormula | src/pwn_fantasy_football/prediction/predictor.py:157-256 | every field of a produced prediction as computed from the player's first row, window and valid averages, with the valid averages weighted by list position as written, the floor at 0 and the 17-game projection |
| Predictor.NeutralPredictionIsWeightedAverage | src/pwn_fantasy_football/prediction/predictor.py:213-232 | with trend 0 and mean consistency 0.5 the per-game prediction lies between the window's smallest average and its largest floored at 0 |
| Predictor.Allowed | src/pwn_fantasy_football/prediction/predictor.py:284-286 | the allowed positions are exactly those whose filter is switched on |
| Predictor.ByCountIff | src/pwn_fantasy_football/prediction/predictor.py:272-279 | the count filter keeps each player once, exactly those with at least `min_seasons_played` seasonal rows |
| Predictor.EligibleIff | src/pwn_fantasy_football/prediction/predictor.py:271-290 | a player is eligible exactly when they have enough seasonal rows and, if some position filter is on, a seasonal row at an enabled position; no player is listed twice |
| Predictor.Collect | src/pwn_fantasy_football/prediction/predictor.py:294-302 | no more predictions are collected than there are players |
| Predictor.CollectIsSound | src/pwn_fantasy_football/prediction/predictor.py:294-302 | each collected prediction is the prediction of a listed player |
| Predictor.CollectIsComplete | src/pwn_fantasy_football/prediction/predictor.py:294-302 | every listed player with a prediction has it collected |
| Predictor.CollectEmptyIff | src/pwn_fantasy_football/prediction/predictor.py:294-305 | nothing is collected exactly when no listed player has a prediction |
| SeqUtil.InsertBy | src/pwn_fantasy_football/prediction/predictor.py:329 | inserting into a sequence sorted by descending key keeps it sorted and adds exactly the new element |
| SeqUtil.SortBy | src/pwn_fantasy_football/prediction/predictor.py:329 | the sort orders by descending key and is a permutation of its input |
| SeqUtil.FilterSortedBy | src/pwn_fantasy_football/prediction/predictor.py:198-203 | filtering a sequence sorted by descending key keeps it sorted |
| SeqUtil.SortedUnique | src/pwn_fantasy_football/prediction/predictor.py:329 | two sorted permutations of the same elements are equal when no two different elements share a key |
| SeqUtil.FilterPermutation | src/pwn_fantasy_football/prediction/predictor.py:198-203 | filtering two permutations of the same elements gives two permutations of the same elements |
| Predictor.SortDesc | src/pwn_fantasy_football/prediction/predictor.py:329 | the ranking is ordered by descending predicted season points and is a permutation of its input |
| Predictor.SeasonalTable | src/pwn_fantasy_football/prediction/predictor.py:266-269 | the seasonal table has one row per distinct (player, name, season, position) key of the loaded games, no key twice, and its `games_played` add up to the number of loaded games |
| Predictor.PredictAll | src/pwn_fantasy_football/prediction/predictor.py:271-329 | the loop over the eligible players yields the "No predictions generated" error when nothing is collected, otherwise the ranking of the collected predictions |
| Predictor.PredictAllPlayers | src/pwn_fantasy_football/prediction/predictor.py:258-331 | the same outcome for the seasonal table built by scoring and aggregating the loaded games |
| Predictor.CollectedAreEligible | src/pwn_fantasy_football/prediction/predictor.py:271-302 | every collected prediction belongs to an eligible player with enough seasonal rows and is that player's prediction |
| Predictor.AllPlayersOutcome | src/pwn_fantasy_football/prediction/predictor.py:271-331 | the ranked output is ordered, is a permutation of the collected predictions, holds only eligible players, holds the prediction of every eligible player who has one, and is empty exactly when no eligible player has a prediction |
| Predictor.HeadLength | src/pwn_fantasy_football/prediction/predictor.py:373 | `head(n)` keeps min(n, len) rows for n ≥ 0 and drops the last \|n\| rows for negative n |
| Predictor.GetTopPlayers | src/pwn_fantasy_football/prediction/predictor.py:359-373 | the top list is a prefix of the ranking: the first n rows for 0 ≤ n, all of them when n exceeds their number, all but the last \|n\| for negative n, none when \|n\| exceeds their number; n defaults to `top_n_players`, else 50 |
| Predictor.TopPlayersAreBest | src/pwn_fantasy_football/prediction/predictor.py:359-373 | the top players of a ranking are a prefix of it, still ordered, and none ranks below a player left out |
| Predictor.DefaultTopIsFifty | src/pwn_fantasy_football/prediction/predictor.py:370-371 | without an explicit n or configured value the top list has min(50, len) players |
| DataUtils.Range | src/pwn_fantasy_football/data_fetch/utils.py:75 | the range from lo to hi − 1 lists lo + k at position k |
| DataUtils.RangeMembers | src/pwn_fantasy_football/data_fetch/utils.py:75 | a year is in the range exactly when lo ≤ year < hi |
| DataUtils.RemoveFirst | src/pwn_fantasy_football/data_fetch/utils.py:77-78 | removing an occurring element shortens the list by one |
| DataUtils.RemoveFirstSplit | src/pwn_fantasy_football/data_fetch/utils.py:77-78 | exactly the first occurrence goes: what precedes it and what follows it stay, in order |
| DataUtils.RemoveFromIncreasing | src/pwn_fantasy_football/data_fetch/utils.py:77-78 | removing a year from an increasing list keeps it increasing and removes exactly that year |
| DataUtils.GetSeasonList | src/pwn_fantasy_football/data_fetch/utils.py:60-80 | the seasons are increasing; they are exactly the years from start to end, minus the current year when it is excluded; with the current year included the list is the whole range |
| DataUtils.Concat | src/pwn_fantasy_football/data_fetch/utils.py:104 | vertical concatenation succeeds exactly when every table has the first table's columns |
| DataUtils.MergeDataFrames | src/pwn_fantasy_football/data_fetch/utils.py:83-104 | an empty list yields the "No DataFrames provided" error; otherwise the result is the concatenation of the inputs converted to polars, in order |
| DataUtils.MergeKeepsRows | src/pwn_fantasy_football/data_fetch/utils.py:96-104 | a successful merge keeps the first table's columns, has as many rows as all inputs together, and holds each input's rows, in order, at that input's offset |
| DataUtils.MergeThreeCopies | src/tests/test_utils.py:239-247 | three copies of a table merge into three times its rows |
| DataUtils.CheckFormat | src/pwn_fantasy_football/data_fetch/utils.py:40-50 | the lower-cased names parquet, csv and json select Parquet, CSV and JSON respectively; any other name is refused with "Unsupported format: " followed by the name as given |
| DataUtils.FormatIgnoresCase | src/pwn_fantasy_football/data_fetch/utils.py:40-47 | the chosen format depends only on the lower-cased name |
| DataUtils.FormatExamples | src/tests/test_utils.py:109-113 | "CSV" selects CSV, "Parquet" selects Parquet, and "invalid" is refused with the unsupported-format message |

## Left out

- File and configuration I/O: reading the statistics parquet and its missing-file error
  (`predictor.py:35-46`), the JSON configuration, `save_predictions`, `ensure_directory`,
  `load_config`, and the writes in `save_dataframe`. The configuration is a parameter
  (`Predictor.PredictionConfig`); only the format check in front of a save is modelled.
- Logging is not modelled.
- The clock read in `get_season_list` is not modelled; the current year is a parameter.
- Floating-point arithmetic and NaN are not modelled. Numbers are reals, and NaN is
  identified with null.
- The square root is abstract (`Seasonal.SqrtLike`). The model proves nothing that
  depends on its exact value beyond non-negativity and √0 = 0.
- `round(…, 2)` and `round(…, 3)` on the prediction fields (`predictor.py:249-253`) are
  not modelled. The model's fields are unrounded.
- The `try/except` around each player's prediction (`predictor.py:296-302`) is not
  modelled. No exception is raised in the model, so no player is skipped for that reason.
- The position re-cast after the loop (`predictor.py:311-327`) is not modelled. A
  prediction's position is already text (`Predictor.PredictionPosition` never yields
  null), so the cast changes nothing.
- Predictor.LoadedPosition: a polars List cell may reach the lambda as a polars Series
  rather than a Python list, and then takes the `str(x)` branch; the model treats every
  list cell as a Python list. Game rows carry the normalised cell (`Option<string>`, null
  kept as null) rather than the raw one.
- Polars leaves the order of `group_by` and `unique` unspecified, and the model fixes
  order of first appearance. The source's prediction depends on that order: its weights go
  by list position, not by season (`Predictor.OldestFirstWeighting`), and the name and
  position come from the player's first row. The model's prediction does the same, in
  first-appearance order. The corrected weighting by season
  (`Predictor.RecencyWeightedAverage`) no longer depends on the order when seasons are
  distinct (`Predictor.RecencyIgnoresRowOrder`). Properties of the grouping
  itself (`Seasonal.SeasonalStats`, `Predictor.ByCountIff`, `Predictor.AllPlayersOutcome`)
  are stated independently of that order.
- The order among predictions with equal season points is unspecified, and the model fixes
  one such order. `Predictor.SortDesc` guarantees only descending order and permutation.
- The sort by season in `calculate_trend` (`predictor.py:127`) is not modelled. The four
  sums of the slope do not depend on the order.
- The `consistency = 0.5` fall-back (`predictor.py:224-225`) is not modelled. The
  consistency score is always present in the seasonal table (`Seasonal.Consistency`), so a
  non-empty window always has a consistency to average.
- Predictor.Assemble: the per-game and season points are stated before rounding, because
  rounding is not modelled.
- Predictor.PredictionFormula: the same, before rounding.
- Seasonal.Summarize: the sample deviation is stated through the abstract square root,
  not as a number.
- DataUtils.Concat: polars' own schema checks (column order and data types) are reduced to
  "the same set of column names"; the failure is one `ColumnsDiffer` value, not polars'
  message.
- Rescaling the statistics by an arbitrary factor is not proved; the homogeneity of the
  score is stated for doubling (`FantasyCalculator.DoublingDoubles`).
- Strings.Upper, Strings.Lower: ASCII letters only; Python's `str.upper`/`str.lower` also
  map non-ASCII letters.
- The per-category `_fp` columns that `calculate` adds (`fantasy_calculator.py:50-132`) are
  not kept on the scored row; only their sum, `fantasy_points`, is. Their names are
  `FantasyCalculator.PointsColumnName`.
- Columns are a datatype: an `OtherColumn` whose name is that of a known column is a
  different value in the model, while in a frame it would be the same column.
- Predictor.RecencyIgnoresRowOrder: the order the sort gives rows of the same season (the
  same player under two names or positions) is not stated, so with such ties the
  weighted average can still depend on the row order; independence is proved only for
  distinct seasons.
- The rest of the repository is not part of this model: the data fetcher, the command-line
  interface, the example scripts and the release script.

## Findings

| source | as written | input that shows it | evidently intended | confidence | as-written member | corrected member |
|---|---|---|---|---|---|---|
| src/pwn_fantasy_football/prediction/predictor.py:208-213 | the weights 1.0, 1.3, 1.6, … are reversed and paired with the valid averages in the order the seasonal rows are listed, so the first row listed weighs most; nothing sorts a player's rows by season, and the seasonal table's row order is whatever polars' `group_by` returns | one player with two seasonal rows, the older season averaging 10 and the newer 20, listed oldest first: weighted average 33/2.3 ≈ 14.35, the older season weighing 1.3 (`Predictor.OldestFirstWeighting`) | the most recent season gets the largest weight, as the comment at line 211 says: 36/2.3 ≈ 15.65 in either order | medium; not executed | Predictor.WeightedAverage | Predictor.RecencyWeightedAverage |
