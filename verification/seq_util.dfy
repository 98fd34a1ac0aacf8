/** Sequence helpers shared by the model: sums, extremes and means of reals,
    order-preserving filters, first-appearance de-duplication and a
    descending sort by a key. */
module SeqUtil {

  /** Sum of a sequence of reals, left to right. */
  function Sum(xs: seq<real>): real
  {
    if xs == [] then 0.0 else xs[0] + Sum(xs[1..])
  }

  lemma {:induction false} SumAppend(xs: seq<real>, ys: seq<real>)
    ensures Sum(xs + ys) == Sum(xs) + Sum(ys)
  {
    if xs == [] {
      assert xs + ys == ys;
    } else {
      assert (xs + ys)[1..] == xs[1..] + ys;
      SumAppend(xs[1..], ys);
    }
  }

  /** Every element lies in [lo, hi], so the sum lies in [n * lo, n * hi]. */
  lemma {:induction false} SumBetween(xs: seq<real>, lo: real, hi: real)
    requires forall k :: 0 <= k < |xs| ==> lo <= xs[k] <= hi
    ensures (|xs| as real) * lo <= Sum(xs) <= (|xs| as real) * hi
  {
    if xs != [] {
      SumBetween(xs[1..], lo, hi);
    }
  }

  /** Smallest element. */
  function MinOf(xs: seq<real>): (m: real)
    requires xs != []
    ensures m in xs
    ensures forall k :: 0 <= k < |xs| ==> m <= xs[k]
  {
    if |xs| == 1 then xs[0]
    else
      var rest := MinOf(xs[1..]);
      if xs[0] <= rest then xs[0] else rest
  }

  /** Largest element. */
  function MaxOf(xs: seq<real>): (m: real)
    requires xs != []
    ensures m in xs
    ensures forall k :: 0 <= k < |xs| ==> xs[k] <= m
  {
    if |xs| == 1 then xs[0]
    else
      var rest := MaxOf(xs[1..]);
      if xs[0] >= rest then xs[0] else rest
  }

  /** Values all drawn from `xs` lie between the extremes of `xs`. */
  lemma ExtremesOfMembers(xs: seq<real>, ys: seq<real>)
    requires ys != []
    requires forall k :: 0 <= k < |ys| ==> ys[k] in xs
    ensures xs != []
    ensures MinOf(xs) <= MinOf(ys) && MaxOf(ys) <= MaxOf(xs)
  {
    assert ys[0] in xs;
    var i :| 0 <= i < |ys| && ys[i] == MinOf(ys);
    var j :| 0 <= j < |ys| && ys[j] == MaxOf(ys);
    assert ys[i] in xs && ys[j] in xs;
  }

  /** Arithmetic mean; it always lies between the smallest and the largest element. */
  function Mean(xs: seq<real>): (m: real)
    requires xs != []
    ensures MinOf(xs) <= m <= MaxOf(xs)
  {
    var n := |xs| as real;
    MeanBetween(xs);
    Sum(xs) / n
  }

  lemma MeanBetween(xs: seq<real>)
    requires xs != []
    ensures MinOf(xs) <= Sum(xs) / (|xs| as real) <= MaxOf(xs)
    ensures (Sum(xs) / (|xs| as real)) * (|xs| as real) == Sum(xs)
  {
    MeanWithin(xs, MinOf(xs), MaxOf(xs));
  }

  lemma MeanWithin(xs: seq<real>, lo: real, hi: real)
    requires xs != []
    requires forall k :: 0 <= k < |xs| ==> lo <= xs[k] <= hi
    ensures lo <= Sum(xs) / (|xs| as real) <= hi
    ensures (Sum(xs) / (|xs| as real)) * (|xs| as real) == Sum(xs)
  {
    SumBetween(xs, lo, hi);
    DivBetween(Sum(xs), |xs| as real, lo, hi);
  }

  /** n * lo <= s <= n * hi with n > 0 puts s / n in [lo, hi]. */
  lemma DivBetween(s: real, n: real, lo: real, hi: real)
    requires n > 0.0
    requires n * lo <= s <= n * hi
    ensures lo <= s / n <= hi
    ensures (s / n) * n == s
  {
  }

  /** Every element is at least `lo`, so the sum is at least n * lo. */
  lemma {:induction false} SumAtLeast(xs: seq<real>, lo: real)
    requires forall k :: 0 <= k < |xs| ==> lo <= xs[k]
    ensures (|xs| as real) * lo <= Sum(xs)
  {
    if xs != [] {
      SumAtLeast(xs[1..], lo);
    }
  }

  /** a·b, kept as one term so that equal products are matched as wholes. */
  function Times(a: real, b: real): real
  {
    a * b
  }

  /** Sum of products `fs[k] * ws[k]`. */
  function Dot(fs: seq<real>, ws: seq<real>): real
    requires |fs| == |ws|
  {
    if fs == [] then 0.0 else fs[0] * ws[0] + Dot(fs[1..], ws[1..])
  }

  lemma MulBetween(f: real, w: real, lo: real, hi: real)
    requires w >= 0.0 && lo <= f <= hi
    ensures lo * w <= f * w <= hi * w
  {
  }

  /** With non-negative weights, each value in [lo, hi] bounds the weighted sum. */
  lemma {:induction false} DotBetween(fs: seq<real>, ws: seq<real>, lo: real, hi: real)
    requires |fs| == |ws|
    requires forall k :: 0 <= k < |ws| ==> ws[k] >= 0.0
    requires forall k :: 0 <= k < |fs| ==> lo <= fs[k] <= hi
    ensures Times(lo, Sum(ws)) <= Dot(fs, ws) <= Times(hi, Sum(ws))
  {
    if fs != [] {
      DotBetween(fs[1..], ws[1..], lo, hi);
      BetweenStep(fs[0], ws[0], lo, hi, Dot(fs[1..], ws[1..]), Sum(ws[1..]), Dot(fs, ws), Sum(ws));
    }
  }

  /** One step of the previous lemma, on plain numbers. */
  lemma BetweenStep(f: real, w: real, lo: real, hi: real, rest: real, tail: real, dot: real, total: real)
    requires w >= 0.0 && lo <= f <= hi
    requires Times(lo, tail) <= rest <= Times(hi, tail)
    requires dot == f * w + rest && total == w + tail
    ensures Times(lo, total) <= dot <= Times(hi, total)
  {
    MulBetween(f, w, lo, hi);
  }

  /** With non-negative weights of positive total, the weighted mean of
      values in [lo, hi] lies in [lo, hi]. */
  lemma WeightedMeanBetween(fs: seq<real>, ws: seq<real>, lo: real, hi: real)
    requires |fs| == |ws|
    requires forall k :: 0 <= k < |ws| ==> ws[k] >= 0.0
    requires forall k :: 0 <= k < |fs| ==> lo <= fs[k] <= hi
    requires Sum(ws) > 0.0
    ensures lo <= Dot(fs, ws) / Sum(ws) <= hi
  {
    DotBetween(fs, ws, lo, hi);
    QuotientBetween(lo, hi, Sum(ws), Dot(fs, ws));
  }

  lemma QuotientBetween(lo: real, hi: real, t: real, d: real)
    requires t > 0.0 && Times(lo, t) <= d <= Times(hi, t)
    ensures lo <= d / t <= hi
  {
    DivBetween(d, t, lo, hi);
  }

  /** `c` times each element. */
  function Scale(c: real, xs: seq<real>): (ys: seq<real>)
    ensures |ys| == |xs|
  {
    if xs == [] then [] else [c * xs[0]] + Scale(c, xs[1..])
  }

  lemma {:induction false} ScaleAt(c: real, xs: seq<real>, k: nat)
    requires k < |xs|
    ensures Scale(c, xs)[k] == c * xs[k]
  {
    if k > 0 {
      ScaleAt(c, xs[1..], k - 1);
    }
  }

  /** Element-wise sum. */
  function Add(xs: seq<real>, ys: seq<real>): (zs: seq<real>)
    requires |xs| == |ys|
    ensures |zs| == |xs|
    ensures forall k :: 0 <= k < |xs| ==> zs[k] == xs[k] + ys[k]
  {
    seq(|xs|, k requires 0 <= k < |xs| => xs[k] + ys[k])
  }

  /** `n` copies of `c`. */
  function Constant(n: nat, c: real): (ys: seq<real>)
    ensures |ys| == n
    ensures forall k :: 0 <= k < n ==> ys[k] == c
  {
    seq(n, k => c)
  }

  /** One step of pulling a factor out of a sum, on plain numbers. */
  lemma FactorStep(x: real, z: real, c: real, rest: real, q: real, rest': real, q': real)
    requires rest == Times(c, q)
    requires rest' == x * (c * z) + rest && q' == x * z + q
    ensures rest' == Times(c, q')
  {
  }

  lemma FactorZero(c: real, r: real, q: real)
    requires r == 0.0 && q == 0.0
    ensures r == Times(c, q)
  {
  }

  lemma {:induction false} DotScale(xs: seq<real>, zs: seq<real>, c: real)
    requires |xs| == |zs|
    ensures Dot(xs, Scale(c, zs)) == Times(c, Dot(xs, zs))
  {
    if xs == [] {
      FactorZero(c, Dot(xs, Scale(c, zs)), Dot(xs, zs));
    } else {
      DotScale(xs[1..], zs[1..], c);
      assert Scale(c, zs)[1..] == Scale(c, zs[1..]);
      FactorStep(xs[0], zs[0], c, Dot(xs[1..], Scale(c, zs[1..])), Dot(xs[1..], zs[1..]),
                 Dot(xs, Scale(c, zs)), Dot(xs, zs));
    }
  }

  lemma {:induction false} DotAdd(xs: seq<real>, us: seq<real>, vs: seq<real>)
    requires |xs| == |us| == |vs|
    ensures Dot(xs, Add(us, vs)) == Dot(xs, us) + Dot(xs, vs)
  {
    if xs != [] {
      DotAdd(xs[1..], us[1..], vs[1..]);
      assert Add(us, vs)[1..] == Add(us[1..], vs[1..]);
    }
  }

  lemma {:induction false} DotConstant(xs: seq<real>, c: real)
    ensures Dot(xs, Constant(|xs|, c)) == Times(c, Sum(xs))
  {
    if xs == [] {
      FactorZero(c, Dot(xs, Constant(|xs|, c)), Sum(xs));
    } else {
      DotConstant(xs[1..], c);
      assert Constant(|xs|, c)[1..] == Constant(|xs[1..]|, c);
      FactorStep(xs[0], 1.0, c, Dot(xs[1..], Constant(|xs[1..]|, c)), Sum(xs[1..]),
                 Dot(xs, Constant(|xs|, c)), Sum(xs));
    }
  }

  lemma {:induction false} SumScale(c: real, xs: seq<real>)
    ensures Sum(Scale(c, xs)) == Times(c, Sum(xs))
  {
    if xs == [] {
      FactorZero(c, Sum(Scale(c, xs)), Sum(xs));
    } else {
      SumScale(c, xs[1..]);
      assert Scale(c, xs)[1..] == Scale(c, xs[1..]);
      FactorStep(1.0, xs[0], c, Sum(Scale(c, xs[1..])), Sum(xs[1..]), Sum(Scale(c, xs)), Sum(xs));
    }
  }

  lemma {:induction false} SumAdd(xs: seq<real>, ys: seq<real>)
    requires |xs| == |ys|
    ensures Sum(Add(xs, ys)) == Sum(xs) + Sum(ys)
  {
    if xs != [] {
      SumAdd(xs[1..], ys[1..]);
      assert Add(xs, ys)[1..] == Add(xs[1..], ys[1..]);
    }
  }

  lemma {:induction false} SumConstant(n: nat, c: real)
    ensures Sum(Constant(n, c)) == Times(n as real, c)
  {
    if n > 0 {
      SumConstant(n - 1, c);
      assert Constant(n, c)[1..] == Constant(n - 1, c);
    }
  }

  /** No element occurs twice. */
  predicate Distinct<T(==)>(s: seq<T>)
  {
    forall i, j :: 0 <= i < j < |s| ==> s[i] != s[j]
  }

  /** The elements of `s` in order of first appearance, each once
      (the key order a grouping or `unique()` hands back in this model). */
  function Dedup<T(==,!new)>(s: seq<T>): (r: seq<T>)
    ensures Distinct(r)
    ensures forall x :: x in r <==> x in s
    ensures |r| <= |s|
  {
    if s == [] then []
    else
      var r := Dedup(s[..|s| - 1]);
      assert forall x :: x in s <==> x in s[..|s| - 1] || x == s[|s| - 1];
      if s[|s| - 1] in r then r else r + [s[|s| - 1]]
  }

  /** Filtering keeps the elements apart. */
  lemma {:induction false} FilterDistinct<T(!new)>(s: seq<T>, p: T -> bool)
    requires Distinct(s)
    ensures Distinct(Filter(s, p))
  {
    if s != [] {
      var rest := Filter(s[1..], p);
      FilterDistinct(s[1..], p);
      FilterMembers(s[1..], p);
      if p(s[0]) {
        assert s[0] !in s[1..];
        ConsDistinct(s[0], rest);
      }
    }
  }

  lemma ConsDistinct<T>(x: T, t: seq<T>)
    requires Distinct(t) && x !in t
    ensures Distinct([x] + t)
  {
    var s := [x] + t;
    forall i, j | 0 <= i < j < |s|
      ensures s[i] != s[j]
    {
      if i > 0 {
        assert s[i] == t[i - 1] && s[j] == t[j - 1];
      } else {
        assert s[j] == t[j - 1];
      }
    }
  }

  /** The elements of `s` that satisfy `p`, in their original order. */
  function Filter<T(!new)>(s: seq<T>, p: T -> bool): (r: seq<T>)
    ensures |r| <= |s|
  {
    if s == [] then []
    else if p(s[0]) then [s[0]] + Filter(s[1..], p)
    else Filter(s[1..], p)
  }

  /** What filtering keeps: exactly the elements of `s` that satisfy `p`. */
  lemma {:induction false} FilterMembers<T(!new)>(s: seq<T>, p: T -> bool)
    ensures forall x :: x in Filter(s, p) <==> x in s && p(x)
    ensures forall k :: 0 <= k < |Filter(s, p)| ==> p(Filter(s, p)[k])
  {
    if s != [] {
      FilterMembers(s[1..], p);
      assert s == [s[0]] + s[1..];
    }
  }

  lemma FilterCons<T(!new)>(x: T, rest: seq<T>, p: T -> bool)
    ensures Filter([x] + rest, p) == (if p(x) then [x] else []) + Filter(rest, p)
  {
    assert ([x] + rest)[0] == x && ([x] + rest)[1..] == rest;
  }

  lemma {:induction false} FilterAppend<T(!new)>(a: seq<T>, b: seq<T>, p: T -> bool)
    ensures Filter(a + b, p) == Filter(a, p) + Filter(b, p)
  {
    if a == [] {
      assert a + b == b;
    } else {
      var h := if p(a[0]) then [a[0]] else [];
      calc {
        Filter(a + b, p);
        { assert a + b == [a[0]] + (a[1..] + b); }
        Filter([a[0]] + (a[1..] + b), p);
        { FilterCons(a[0], a[1..] + b, p); }
        h + Filter(a[1..] + b, p);
        { FilterAppend(a[1..], b, p); }
        h + (Filter(a[1..], p) + Filter(b, p));
        { FilterCons(a[0], a[1..], p); assert a == [a[0]] + a[1..]; }
        Filter(a, p) + Filter(b, p);
      }
    }
  }

  /** Filtering works element by element: the part before an element, the
      element itself if it satisfies `p`, and the part after it, in that
      order; so the kept elements keep their order and their multiplicity. */
  lemma FilterSplit<T(!new)>(a: seq<T>, x: T, b: seq<T>, p: T -> bool)
    ensures Filter(a + [x] + b, p) == Filter(a, p) + (if p(x) then [x] else []) + Filter(b, p)
  {
    FilterAppend(a + [x], b, p);
    FilterAppend(a, [x], p);
    FilterCons(x, [], p);
    assert [x] + [] == [x];
  }

  /** The first element that satisfies `p` heads the filtered sequence. */
  lemma {:induction false} FilterHead<T(!new)>(s: seq<T>, p: T -> bool, i: nat)
    requires i < |s| && p(s[i])
    requires forall k :: 0 <= k < i ==> !p(s[k])
    ensures Filter(s, p) != [] && Filter(s, p)[0] == s[i]
  {
    if i > 0 {
      FilterHead(s[1..], p, i - 1);
    }
  }
  /** How many times filtering keeps each element: all of its occurrences
      when it satisfies `p`, none otherwise. */
  lemma {:induction false} FilterMultiset<T(!new)>(s: seq<T>, p: T -> bool)
    ensures forall x :: multiset(Filter(s, p))[x] == if p(x) then multiset(s)[x] else 0
  {
    if s != [] {
      FilterMultiset(s[1..], p);
      FilterCons(s[0], s[1..], p);
      assert s == [s[0]] + s[1..];
    }
  }

  /** Filtering two rearrangements of the same elements gives two
      rearrangements of the same elements. */
  lemma FilterPermutation<T(!new)>(a: seq<T>, b: seq<T>, p: T -> bool)
    requires multiset(a) == multiset(b)
    ensures multiset(Filter(a, p)) == multiset(Filter(b, p))
  {
    FilterMultiset(a, p);
    FilterMultiset(b, p);
    assert forall x :: multiset(Filter(a, p))[x] == multiset(Filter(b, p))[x];
  }

  // ---------------------------------------------------------------------
  // Descending sort by a key
  // ---------------------------------------------------------------------

  /** Keys never increase along the sequence: the largest first. */
  predicate SortedBy<T>(s: seq<T>, key: T -> real)
  {
    forall i, j :: 0 <= i < j < |s| ==> key(s[i]) >= key(s[j])
  }

  /** Put one element into place in a descending sequence, ahead of the
      elements with an equal key. */
  function InsertBy<T>(x: T, s: seq<T>, key: T -> real): (r: seq<T>)
    requires SortedBy(s, key)
    ensures SortedBy(r, key)
    ensures multiset(r) == multiset(s) + multiset{x}
  {
    if s == [] || key(x) >= key(s[0]) then
      HeadDominates(x, s, key);
      [x] + s
    else
      var rest := InsertBy(x, s[1..], key);
      assert s == [s[0]] + s[1..];
      Bounded(s[0], x, s[1..], rest, key);
      HeadDominates(s[0], rest, key);
      [s[0]] + rest
  }

  /** A head no smaller than anything after it keeps a sequence sorted. */
  lemma HeadDominates<T>(h: T, rest: seq<T>, key: T -> real)
    requires SortedBy(rest, key)
    requires forall k :: 0 <= k < |rest| ==> key(rest[k]) <= key(h)
    ensures SortedBy([h] + rest, key)
  {
    var s := [h] + rest;
    forall i, j | 0 <= i < j < |s|
      ensures key(s[i]) >= key(s[j])
    {
      assert s[j] == rest[j - 1];
      if i > 0 {
        assert s[i] == rest[i - 1];
      }
    }
  }

  /** Everything in a rearrangement of `tail` plus `x` is bounded by `h`
      when `x` and all of `tail` are. */
  lemma Bounded<T>(h: T, x: T, tail: seq<T>, rest: seq<T>, key: T -> real)
    requires SortedBy([h] + tail, key)
    requires key(x) < key(h)
    requires multiset(rest) == multiset(tail) + multiset{x}
    ensures forall k :: 0 <= k < |rest| ==> key(rest[k]) <= key(h)
  {
    forall k | 0 <= k < |rest|
      ensures key(rest[k]) <= key(h)
    {
      assert rest[k] in multiset(rest);
      if rest[k] != x {
        assert rest[k] in tail;
        var j :| 0 <= j < |tail| && tail[j] == rest[k];
        assert ([h] + tail)[0] == h && ([h] + tail)[j + 1] == tail[j];
      }
    }
  }

  /** Insertion sort by descending key: sorted, and a rearrangement of the
      input. */
  function SortBy<T>(s: seq<T>, key: T -> real): (r: seq<T>)
    ensures SortedBy(r, key)
    ensures multiset(r) == multiset(s)
  {
    if s == [] then []
    else
      assert s == [s[0]] + s[1..];
      InsertBy(s[0], SortBy(s[1..], key), key)
  }

  /** Filtering a sorted sequence leaves it sorted. */
  lemma {:induction false} FilterSortedBy<T(!new)>(s: seq<T>, p: T -> bool, key: T -> real)
    requires SortedBy(s, key)
    ensures SortedBy(Filter(s, p), key)
  {
    if s != [] {
      var tail := Filter(s[1..], p);
      FilterSortedBy(s[1..], p, key);
      FilterMembers(s[1..], p);
      FilterCons(s[0], s[1..], p);
      assert s == [s[0]] + s[1..];
      if p(s[0]) {
        forall k | 0 <= k < |tail|
          ensures key(tail[k]) <= key(s[0])
        {
          assert tail[k] in s[1..];
          var j :| 0 <= j < |s[1..]| && s[1..][j] == tail[k];
          assert s[j + 1] == tail[k];
        }
        HeadDominates(s[0], tail, key);
      }
    }
  }

  /** Two sorted rearrangements of the same elements are equal when no two
      different elements share a key. */
  lemma {:induction false} SortedUnique<T>(a: seq<T>, b: seq<T>, key: T -> real)
    requires SortedBy(a, key) && SortedBy(b, key)
    requires multiset(a) == multiset(b)
    requires forall i, j :: 0 <= i < |a| && 0 <= j < |a| && key(a[i]) == key(a[j]) ==> a[i] == a[j]
    ensures a == b
  {
    assert |a| == |multiset(a)| == |multiset(b)| == |b|;
    if a != [] {
      SortedHeads(a, b, key);
      SameTails(a, b);
      SortedUnique(a[1..], b[1..], key);
    }
  }

  /** Rearrangements with the same head have rearranged tails. */
  lemma SameTails<T>(a: seq<T>, b: seq<T>)
    requires a != [] && b != [] && a[0] == b[0]
    requires multiset(a) == multiset(b)
    ensures multiset(a[1..]) == multiset(b[1..])
  {
    assert a == [a[0]] + a[1..] && b == [b[0]] + b[1..];
    assert multiset(a[1..]) == multiset(a) - multiset{a[0]} == multiset(b) - multiset{b[0]} == multiset(b[1..]);
  }

  /** The heads of two such rearrangements agree. */
  lemma SortedHeads<T>(a: seq<T>, b: seq<T>, key: T -> real)
    requires a != [] && SortedBy(a, key) && SortedBy(b, key)
    requires multiset(a) == multiset(b)
    requires forall i, j :: 0 <= i < |a| && 0 <= j < |a| && key(a[i]) == key(a[j]) ==> a[i] == a[j]
    ensures b != [] && a[0] == b[0]
  {
    assert a[0] in multiset(b);
    var k :| 0 <= k < |b| && b[k] == a[0];
    assert b[0] in multiset(a);
    var m :| 0 <= m < |a| && a[m] == b[0];
    assert key(a[0]) >= key(a[m]) && key(b[0]) >= key(b[k]);
  }
}
