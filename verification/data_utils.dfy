/** Helpers of the data-fetch side: the list of seasons to fetch, vertical
    concatenation of tables, and the output-format check in front of a save. */
module DataUtils {
  import opened Wrappers
  import opened Tables
  import Strings

  // ---------------------------------------------------------------------
  // Season list
  // ---------------------------------------------------------------------

  /** Python's `range(lo, hi)`: lo, lo + 1, …, hi − 1. */
  function Range(lo: int, hi: int): (xs: seq<int>)
    ensures |xs| == if lo < hi then hi - lo else 0
    ensures forall k :: 0 <= k < |xs| ==> xs[k] == lo + k
    decreases hi - lo
  {
    if lo >= hi then [] else [lo] + Range(lo + 1, hi)
  }

  lemma RangeMembers(lo: int, hi: int)
    ensures forall y :: y in Range(lo, hi) <==> lo <= y < hi
  {
    var xs := Range(lo, hi);
    forall y | lo <= y < hi
      ensures y in xs
    {
      assert xs[y - lo] == y;
    }
  }

  /** Python's `list.remove(x)`: drop the first occurrence of `x`. */
  function RemoveFirst(xs: seq<int>, x: int): (r: seq<int>)
    requires x in xs
    ensures |r| == |xs| - 1
  {
    if xs[0] == x then xs[1..] else [xs[0]] + RemoveFirst(xs[1..], x)
  }

  /** Exactly the first occurrence goes: whatever precedes it (which does not
      hold `x`) and whatever follows it stay, in order. */
  lemma {:induction false} RemoveFirstSplit(a: seq<int>, x: int, b: seq<int>)
    requires x !in a
    ensures RemoveFirst(a + [x] + b, x) == a + b
  {
    if a == [] {
      assert a + [x] + b == [x] + b;
      assert ([x] + b)[1..] == b;
    } else {
      var s := a + [x] + b;
      assert s[0] == a[0] && s[1..] == a[1..] + [x] + b;
      assert a[0] in a;
      RemoveFirstSplit(a[1..], x, b);
      assert RemoveFirst(s, x) == [a[0]] + RemoveFirst(s[1..], x);
      assert a == [a[0]] + a[1..];
    }
  }

  /** Strictly increasing, hence also free of repeats. */
  predicate Increasing(xs: seq<int>)
  {
    forall i, j :: 0 <= i < j < |xs| ==> xs[i] < xs[j]
  }

  /** Removing an element from an increasing list keeps it increasing and
      removes exactly that element. */
  lemma {:induction false} RemoveFromIncreasing(xs: seq<int>, x: int)
    requires x in xs && Increasing(xs)
    ensures Increasing(RemoveFirst(xs, x))
    ensures forall y :: y in RemoveFirst(xs, x) <==> y in xs && y != x
  {
    if xs[0] != x {
      assert Increasing(xs[1..]);
      RemoveFromIncreasing(xs[1..], x);
      var r := RemoveFirst(xs, x);
      var rest := RemoveFirst(xs[1..], x);
      assert r == [xs[0]] + rest;
      forall i, j | 0 <= i < j < |r|
        ensures r[i] < r[j]
      {
        if i == 0 {
          assert r[j] in rest;
          assert r[j] in xs[1..];
        }
      }
    }
  }

  /** The seasons from `startYear` to `endYear`, both included; when
      `includeCurrent` is false the current year is removed if present. The
      clock's current year is a parameter. */
  method GetSeasonList(startYear: int, endYear: int, includeCurrent: bool, currentYear: int)
    returns (seasons: seq<int>)
    ensures Increasing(seasons)
    ensures includeCurrent ==> seasons == Range(startYear, endYear + 1)
    ensures forall y :: y in seasons <==>
              startYear <= y <= endYear && (includeCurrent || y != currentYear)
    ensures |seasons| == (if startYear <= endYear then endYear - startYear + 1 else 0)
              - (if !includeCurrent && startYear <= currentYear <= endYear then 1 else 0)
  {
    seasons := Range(startYear, endYear + 1);
    RangeMembers(startYear, endYear + 1);
    if !includeCurrent && currentYear in seasons {
      RemoveFromIncreasing(seasons, currentYear);
      seasons := RemoveFirst(seasons, currentYear);
    }
  }

  /** The three seasons 2020 to 2022, and a single season. */
  method SeasonListExamples()
  {
    var s := GetSeasonList(2020, 2022, true, 2026);
    assert s == [2020, 2021, 2022];
    var t := GetSeasonList(2022, 2022, true, 2026);
    assert t == [2022];
    var u := GetSeasonList(2010, 2020, true, 2026);
    assert |u| == 11 && u[0] == 2010 && u[|u| - 1] == 2020;
    var v := GetSeasonList(2024, 2026, false, 2026);
    assert 2026 !in v && 2025 in v && 2024 in v;
  }

  // ---------------------------------------------------------------------
  // Concatenation
  // ---------------------------------------------------------------------

  /** A table from either library; converting a pandas table to polars keeps
      its columns and rows. */
  datatype AnyFrame<R> = PolarsFrame(frame: Frame<string, R>) | PandasFrame(frame: Frame<string, R>)

  function ToPolars<R>(df: AnyFrame<R>): Frame<string, R>
  {
    match df
    case PolarsFrame(f) => f
    case PandasFrame(f) => f
  }

  /** Why a merge fails: no input, or a table whose columns differ from the
      first table's (vertical concatenation needs one schema). */
  datatype MergeError = NoDataFrames | ColumnsDiffer

  function MergeMessage(e: MergeError): string
  {
    match e
    case NoDataFrames => "No DataFrames provided"
    case ColumnsDiffer => "column names of the tables differ"
  }

  /** The rows of the tables one after the other. */
  function AllRows<R>(dfs: seq<Frame<string, R>>): seq<R>
  {
    if dfs == [] then [] else AllRows(dfs[..|dfs| - 1]) + dfs[|dfs| - 1].rows
  }

  /** Total number of rows. */
  function TotalHeight<R>(dfs: seq<Frame<string, R>>): nat
  {
    if dfs == [] then 0 else TotalHeight(dfs[..|dfs| - 1]) + dfs[|dfs| - 1].Height()
  }

  lemma {:induction false} AllRowsLength<R>(dfs: seq<Frame<string, R>>)
    ensures |AllRows(dfs)| == TotalHeight(dfs)
  {
    if dfs != [] {
      AllRowsLength(dfs[..|dfs| - 1]);
    }
  }

  /** Vertical concatenation of polars tables. */
  function Concat<R>(dfs: seq<Frame<string, R>>): (r: Result<Frame<string, R>, MergeError>)
    requires dfs != []
    ensures r.Success? <==> forall k :: 0 <= k < |dfs| ==> dfs[k].columns == dfs[0].columns
  {
    if forall k :: 0 <= k < |dfs| ==> dfs[k].columns == dfs[0].columns then
      Success(Frame(dfs[0].columns, AllRows(dfs)))
    else Failure(ColumnsDiffer)
  }

  /** Merge tables vertically: an error for an empty list, otherwise every
      table is converted to polars and the results are concatenated. */
  method MergeDataFrames<R>(dfs: seq<AnyFrame<R>>) returns (r: Result<Frame<string, R>, MergeError>)
    ensures dfs == [] ==> r == Failure(NoDataFrames)
    ensures dfs != [] ==> r == Concat(seq(|dfs|, k requires 0 <= k < |dfs| => ToPolars(dfs[k])))
  {
    if dfs == [] {
      return Failure(NoDataFrames);
    }
    var polarsDfs: seq<Frame<string, R>> := [];
    var i := 0;
    while i < |dfs|
      invariant 0 <= i <= |dfs|
      invariant |polarsDfs| == i
      invariant forall k :: 0 <= k < i ==> polarsDfs[k] == ToPolars(dfs[k])
    {
      polarsDfs := polarsDfs + [ToPolars(dfs[i])];
      i := i + 1;
    }
    assert polarsDfs == seq(|dfs|, k requires 0 <= k < |dfs| => ToPolars(dfs[k]));
    r := Concat(polarsDfs);
  }

  /** A successful merge keeps the first table's columns, has as many rows
      as all inputs together, and lists every input's rows in input order. */
  lemma {:induction false} MergeKeepsRows<R>(dfs: seq<Frame<string, R>>, k: nat)
    requires dfs != [] && Concat(dfs).Success? && k < |dfs|
    ensures Concat(dfs).value.columns == dfs[0].columns
    ensures Concat(dfs).value.Height() == TotalHeight(dfs)
    ensures TotalHeight(dfs[..k]) <= TotalHeight(dfs[..k + 1]) <= Concat(dfs).value.Height()
    ensures Concat(dfs).value.rows[TotalHeight(dfs[..k])..TotalHeight(dfs[..k + 1])] == dfs[k].rows
  {
    AllRowsLength(dfs);
    RowsAt(dfs, k);
  }

  /** Table k's rows sit between the heights of the tables before it and
      the tables up to it. */
  lemma {:induction false} RowsAt<R>(dfs: seq<Frame<string, R>>, k: nat)
    requires k < |dfs|
    ensures TotalHeight(dfs[..k]) + dfs[k].Height() == TotalHeight(dfs[..k + 1]) <= |AllRows(dfs)|
    ensures AllRows(dfs)[TotalHeight(dfs[..k])..TotalHeight(dfs[..k + 1])] == dfs[k].rows
  {
    var init := dfs[..|dfs| - 1];
    assert dfs[..k + 1][..k] == dfs[..k];
    AllRowsLength(dfs[..k]);
    AllRowsLength(dfs[..k + 1]);
    AllRowsLength(dfs);
    if k == |dfs| - 1 {
      assert dfs[..k + 1] == dfs;
      assert dfs[..k] == init;
    } else {
      assert init[..k] == dfs[..k] && init[..k + 1] == dfs[..k + 1];
      RowsAt(init, k);
      AllRowsLength(init);
    }
  }

  /** Three copies of one table merge into three times its rows. */
  lemma MergeThreeCopies<R>(df: Frame<string, R>)
    ensures Concat([df, df, df]).Success?
    ensures Concat([df, df, df]).value.Height() == 3 * df.Height()
  {
    var dfs := [df, df, df];
    AllRowsLength(dfs);
    assert dfs[..2] == [df, df] && [df, df][..1] == [df] && [df][..0] == [];
    assert TotalHeight([df]) == df.Height();
    assert TotalHeight([df, df]) == 2 * df.Height();
  }

  // ---------------------------------------------------------------------
  // Output format
  // ---------------------------------------------------------------------

  datatype OutputFormat = Parquet | Csv | Json

  /** The format named by `format`, compared case-insensitively; any other
      name is an error that quotes the name as given. */
  function CheckFormat(format: string): (r: Result<OutputFormat, string>)
    ensures r.Success? <==> Strings.Lower(format) in ["parquet", "csv", "json"]
    ensures Strings.Lower(format) == "parquet" ==> r == Success(Parquet)
    ensures Strings.Lower(format) == "csv" ==> r == Success(Csv)
    ensures Strings.Lower(format) == "json" ==> r == Success(Json)
    ensures r.Failure? ==> r.error == "Unsupported format: " + format
  {
    var f := Strings.Lower(format);
    if f == "parquet" then Success(Parquet)
    else if f == "csv" then Success(Csv)
    else if f == "json" then Success(Json)
    else Failure("Unsupported format: " + format)
  }

  /** The format chosen depends only on the lower-cased name. */
  lemma FormatIgnoresCase(format: string)
    ensures CheckFormat(format).Success? ==> CheckFormat(Strings.Lower(format)) == CheckFormat(format)
  {
    Strings.LowerIdempotent(format);
  }

  /** Upper-case names are accepted; an unknown name is refused. */
  lemma FormatExamples()
    ensures CheckFormat("CSV") == Success(Csv)
    ensures CheckFormat("Parquet") == Success(Parquet)
    ensures CheckFormat("invalid") == Failure("Unsupported format: " + "invalid")
  {
    LowerOf("CSV", "csv");
    LowerOf("Parquet", "parquet");
    LowerOf("invalid", "invalid");
  }

  lemma LowerOf(s: string, t: string)
    requires |s| == |t| && forall k :: 0 <= k < |s| ==> Strings.LowerChar(s[k]) == t[k]
    ensures Strings.Lower(s) == t
  {
  }
}
