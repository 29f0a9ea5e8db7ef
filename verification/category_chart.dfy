/**
  The category distribution chart: for every category of the category list whose
  bucket has a non-zero optimized cost, its cost and its share of the optimized
  total, sorted by cost from the highest down. The sort is stable, so categories
  of equal cost keep the order of the category list. Nothing is charted when the
  optimized total is zero.
*/
module CategoryChart {
  import opened Wrappers
  import opened Catalog
  import opened Model
  import opened Cart
  import opened Analysis

  /** One bar of the chart. */
  datatype ChartRow = ChartRow(category: string, optimized: real, percentage: real)

  /** `part` as a percentage of a non-zero `whole`. */
  function Percentage(part: real, whole: real): (r: real)
    requires whole != 0.0
    ensures r * whole == part * 100.0
    ensures 0.0 <= part <= whole ==> 0.0 <= r <= 100.0
    ensures 0.0 < part <= whole ==> 0.0 < r
  {
    (part / whole) * 100.0
  }

  /** The unsorted bars: the listed categories of `cats`, in the order of `cats`. */
  function Bars(cats: seq<string>, bs: seq<Bucket>, total: real): (rows: seq<ChartRow>)
    requires total != 0.0
    ensures |rows| == |ListedCategories(cats, bs)|
    ensures forall i :: 0 <= i < |rows| ==>
      && rows[i].category == ListedCategories(cats, bs)[i]
      && Lookup(bs, rows[i].category).Some?
      && rows[i].optimized == Lookup(bs, rows[i].category).value.optimized
      && rows[i].percentage == Percentage(rows[i].optimized, total)
  {
    if |cats| == 0 then []
    else
      var rest := Bars(cats[1..], bs, total);
      if IsListed(bs, cats[0]) then
        var t := Lookup(bs, cats[0]).value;
        [ChartRow(cats[0], t.optimized, Percentage(t.optimized, total))] + rest
      else rest
  }

  /** The position of a bar's category in the category list `cats`. */
  function Rank(cats: seq<string>, row: ChartRow): nat {
    IndexOf(cats, row.category)
  }

  /** `a` is drawn above `b`: it costs more, or the same and comes earlier in `cats`. */
  predicate Above(cats: seq<string>, a: ChartRow, b: ChartRow) {
    a.optimized > b.optimized || (a.optimized == b.optimized && Rank(cats, a) < Rank(cats, b))
  }

  /** Every bar is drawn above every later bar. */
  predicate Ranked(cats: seq<string>, s: seq<ChartRow>) {
    forall i, j :: 0 <= i < j < |s| ==> Above(cats, s[i], s[j])
  }

  /** Bars in strictly increasing order of `cats`, the order the unsorted bars come in. */
  predicate ByRank(cats: seq<string>, s: seq<ChartRow>) {
    forall i, j :: 0 <= i < j < |s| ==> Rank(cats, s[i]) < Rank(cats, s[j])
  }

  /**
    Inserts `x` before the first bar that costs no more than it: a bar of equal
    cost that came later in the input stays after `x`.
  */
  function Insert(x: ChartRow, s: seq<ChartRow>): (r: seq<ChartRow>)
    ensures multiset(r) == multiset(s) + multiset{x}
    ensures |r| == |s| + 1
    ensures forall y :: y in r <==> y == x || y in s
  {
    if |s| == 0 then [x]
    else if s[0].optimized <= x.optimized then [x] + s
    else
      var rest := Insert(x, s[1..]);
      assert s == [s[0]] + s[1..];
      [s[0]] + rest
  }

  /** Inserting a bar that comes before every bar of a ranked sequence keeps it ranked. */
  lemma {:induction false} InsertKeepsRanked(cats: seq<string>, x: ChartRow, s: seq<ChartRow>)
    requires Ranked(cats, s)
    requires forall i :: 0 <= i < |s| ==> Rank(cats, x) < Rank(cats, s[i])
    ensures Ranked(cats, Insert(x, s))
  {
    if |s| > 0 && s[0].optimized > x.optimized {
      var rest := Insert(x, s[1..]);
      assert Ranked(cats, s[1..]) by {
        assert forall i :: 0 <= i < |s| - 1 ==> s[1..][i] == s[i + 1];
      }
      InsertKeepsRanked(cats, x, s[1..]);
      var r := Insert(x, s);
      assert r == [s[0]] + rest;
      forall j | 0 < j < |r|
        ensures Above(cats, s[0], r[j])
      {
        assert r[j] == rest[j - 1];
        assert r[j] in rest;
        if r[j] != x {
          var k :| 0 <= k < |s[1..]| && s[1..][k] == r[j];
          assert s[k + 1] == r[j];
        }
      }
    }
  }

  /**
    The stable sort by cost, highest first, as an insertion sort: each bar is
    inserted, from the last to the first, in front of the bars already sorted.
  */
  function SortByCost(s: seq<ChartRow>): (r: seq<ChartRow>)
    ensures multiset(r) == multiset(s)
    ensures |r| == |s|
    ensures forall y :: y in r <==> y in s
  {
    if |s| == 0 then []
    else
      var rest := SortByCost(s[1..]);
      assert s == [s[0]] + s[1..];
      Insert(s[0], rest)
  }

  /**
    Sorting bars that come in the order of `cats` ranks them: by cost from the
    highest down, and in the order of `cats` among equal costs, which is what a
    stable sort by cost alone yields.
  */
  lemma {:induction false} SortRanks(cats: seq<string>, s: seq<ChartRow>)
    requires ByRank(cats, s)
    ensures Ranked(cats, SortByCost(s))
  {
    if |s| > 0 {
      var rest := SortByCost(s[1..]);
      assert ByRank(cats, s[1..]) by {
        assert forall i :: 0 <= i < |s| - 1 ==> s[1..][i] == s[i + 1];
      }
      SortRanks(cats, s[1..]);
      forall i | 0 <= i < |rest|
        ensures Rank(cats, s[0]) < Rank(cats, rest[i])
      {
        assert rest[i] in s[1..];
        var k :| 0 <= k < |s[1..]| && s[1..][k] == rest[i];
        assert s[k + 1] == rest[i];
      }
      InsertKeepsRanked(cats, s[0], rest);
    }
  }

  /** Bars drawn in rank order never repeat a bar. */
  lemma RankedDistinct(cats: seq<string>, s: seq<ChartRow>)
    requires Ranked(cats, s)
    ensures Distinct(s)
  {
  }

  /** The unsorted bars come in category-list order. */
  lemma BarsByRank(bs: seq<Bucket>, total: real)
    requires total != 0.0
    ensures ByRank(CATEGORIES, Bars(CATEGORIES, bs, total))
  {
    CategoriesFacts();
  }

  /** The chart data: nothing when the optimized total is zero, the sorted bars otherwise. */
  function ChartData(bs: seq<Bucket>, totalOptimized: real): (r: seq<ChartRow>)
    ensures totalOptimized == 0.0 ==> r == []
    ensures totalOptimized != 0.0 ==> multiset(r) == multiset(Bars(CATEGORIES, bs, totalOptimized))
    ensures totalOptimized != 0.0 ==> |r| == |Bars(CATEGORIES, bs, totalOptimized)|
    ensures totalOptimized != 0.0 ==> forall y :: y in r <==> y in Bars(CATEGORIES, bs, totalOptimized)
    ensures Ranked(CATEGORIES, r)
  {
    if totalOptimized == 0.0 then []
    else
      var bars := Bars(CATEGORIES, bs, totalOptimized);
      BarsByRank(bs, totalOptimized);
      SortRanks(CATEGORIES, bars);
      SortByCost(bars)
  }

  /** Drawn in rank order, bars are sorted by cost from the highest down. */
  lemma RankedIsSortedByCost(cats: seq<string>, s: seq<ChartRow>)
    requires Ranked(cats, s)
    ensures forall i, j :: 0 <= i < j < |s| ==> s[i].optimized >= s[j].optimized
  {
  }

  /**
    The chart shows the categories of the category breakdown: a category has a
    bar exactly when it is listed, and there are as many bars as listed categories.
  */
  lemma ChartShowsListedCategories(bs: seq<Bucket>, totalOptimized: real, c: string)
    requires totalOptimized != 0.0
    ensures (exists i :: 0 <= i < |ChartData(bs, totalOptimized)| && ChartData(bs, totalOptimized)[i].category == c)
      <==> c in ListedCategories(CATEGORIES, bs)
    ensures |ChartData(bs, totalOptimized)| == |ListedCategories(CATEGORIES, bs)|
  {
    var r := ChartData(bs, totalOptimized);
    var bars := Bars(CATEGORIES, bs, totalOptimized);
    var listed := ListedCategories(CATEGORIES, bs);
    if c in listed {
      var k :| 0 <= k < |listed| && listed[k] == c;
      assert bars[k] in r;
      var i :| 0 <= i < |r| && r[i] == bars[k];
    }
    if i :| 0 <= i < |r| && r[i].category == c {
      assert r[i] in bars;
      var k :| 0 <= k < |bars| && bars[k] == r[i];
    }
  }

  /** A bar carries its category's optimized cost from the table. */
  lemma BarCost(bs: seq<Bucket>, total: real, y: ChartRow)
    requires total != 0.0 && y in Bars(CATEGORIES, bs, total)
    ensures Lookup(bs, y.category).Some? && y.optimized == Lookup(bs, y.category).value.optimized
  {
    var bars := Bars(CATEGORIES, bs, total);
    var k :| 0 <= k < |bars| && bars[k] == y;
  }

  /**
    No two bars of the chart share a category: two bars of one category would
    carry the same cost and the same rank, so neither is drawn above the other.
  */
  lemma ChartCategoriesDistinct(bs: seq<Bucket>, totalOptimized: real)
    ensures forall i, j :: 0 <= i < j < |ChartData(bs, totalOptimized)| ==>
      ChartData(bs, totalOptimized)[i].category != ChartData(bs, totalOptimized)[j].category
  {
    var r := ChartData(bs, totalOptimized);
    if totalOptimized != 0.0 {
      forall i, j | 0 <= i < j < |r|
        ensures r[i].category != r[j].category
      {
        assert Above(CATEGORIES, r[i], r[j]);
        BarCost(bs, totalOptimized, r[i]);
        BarCost(bs, totalOptimized, r[j]);
      }
    }
  }

  /** Every bucket's optimized cost is at most the table's sum when no bucket is negative. */
  lemma {:induction false} LookupAtMostSum(bs: seq<Bucket>, key: string)
    requires BucketsOrdered(bs) && Lookup(bs, key).Some?
    ensures Lookup(bs, key).value.optimized <= SumOptimized(bs)
  {
    assert BucketsOrdered(bs[1..]) by {
      assert forall i :: 0 <= i < |bs| - 1 ==> bs[1..][i] == bs[i + 1];
    }
    assert SumOptimized(bs[1..]) >= 0.0 by {
      SumNonNegative(bs[1..]);
    }
    if bs[0].category != key {
      LookupAtMostSum(bs[1..], key);
    }
  }

  /** A table of ordered buckets has a non-negative optimized sum. */
  lemma {:induction false} SumNonNegative(bs: seq<Bucket>)
    requires BucketsOrdered(bs)
    ensures SumOptimized(bs) >= 0.0
  {
    if |bs| > 0 {
      assert BucketsOrdered(bs[1..]) by {
        assert forall i :: 0 <= i < |bs| - 1 ==> bs[1..][i] == bs[i + 1];
      }
      SumNonNegative(bs[1..]);
    }
  }

  /** A bar of an ordered table whose optimized sum is the total has a positive cost and a share in (0, 100]. */
  lemma BarBounded(bs: seq<Bucket>, total: real, k: nat)
    requires BucketsOrdered(bs) && SumOptimized(bs) == total && total != 0.0
    requires k < |Bars(CATEGORIES, bs, total)|
    ensures 0.0 < Bars(CATEGORIES, bs, total)[k].optimized
    ensures 0.0 < Bars(CATEGORIES, bs, total)[k].percentage <= 100.0
  {
    var bar := Bars(CATEGORIES, bs, total)[k];
    var listed := ListedCategories(CATEGORIES, bs);
    assert bar.category == listed[k] && listed[k] in listed;
    assert IsListed(bs, bar.category);
    LookupOrdered(bs, bar.category);
    LookupAtMostSum(bs, bar.category);
    assert 0.0 < bar.optimized <= total;
    assert bar.percentage == Percentage(bar.optimized, total);
  }

  /**
    Charting an analysis of a list with non-negative quantities, every bar has a
    positive cost and a share above 0 and at most 100 percent.
  */
  lemma ChartSharesBounded(items: seq<Item>, order: seq<Market>)
    requires NonNegativeQuantities(items)
    ensures var a := Analyze(items, order);
      var r := ChartData(a.categoryTotals, a.totalOptimized);
      forall i :: 0 <= i < |r| ==> 0.0 < r[i].optimized && 0.0 < r[i].percentage <= 100.0
  {
    var a := Analyze(items, order);
    var bs := a.categoryTotals;
    var r := ChartData(bs, a.totalOptimized);
    AnalysisOrdered(items, order);
    CategoriesSplitTotals(items, order);
    if a.totalOptimized != 0.0 {
      var bars := Bars(CATEGORIES, bs, a.totalOptimized);
      forall i | 0 <= i < |r|
        ensures 0.0 < r[i].optimized && 0.0 < r[i].percentage <= 100.0
      {
        assert r[i] in bars;
        var k :| 0 <= k < |bars| && bars[k] == r[i];
        BarBounded(bs, a.totalOptimized, k);
      }
    }
  }

  // ------------------------------------------------------ sum of the shares

  /** The sum of the bars' optimized costs. */
  function SumCosts(rows: seq<ChartRow>): real {
    if |rows| == 0 then 0.0 else rows[0].optimized + SumCosts(rows[1..])
  }

  /** The sum of the bars' percentages. */
  function SumPercentages(rows: seq<ChartRow>): real {
    if |rows| == 0 then 0.0 else rows[0].percentage + SumPercentages(rows[1..])
  }

  /** Inserting a bar adds its cost and its percentage to the sums. */
  lemma {:induction false} InsertSums(x: ChartRow, s: seq<ChartRow>)
    ensures SumCosts(Insert(x, s)) == x.optimized + SumCosts(s)
    ensures SumPercentages(Insert(x, s)) == x.percentage + SumPercentages(s)
  {
    if |s| > 0 && s[0].optimized > x.optimized {
      InsertSums(x, s[1..]);
      var r := Insert(x, s);
      assert r[0] == s[0] && r[1..] == Insert(x, s[1..]);
    }
  }

  /** Sorting changes neither sum. */
  lemma {:induction false} SortSums(s: seq<ChartRow>)
    ensures SumCosts(SortByCost(s)) == SumCosts(s)
    ensures SumPercentages(SortByCost(s)) == SumPercentages(s)
  {
    if |s| > 0 {
      SortSums(s[1..]);
      InsertSums(s[0], SortByCost(s[1..]));
    }
  }

  /** Bars whose percentages are shares of `total` have percentages summing to the share of their summed cost. */
  lemma {:induction false} PercentagesScale(rows: seq<ChartRow>, total: real)
    requires total != 0.0
    requires forall i :: 0 <= i < |rows| ==> rows[i].percentage == Percentage(rows[i].optimized, total)
    ensures SumPercentages(rows) * total == SumCosts(rows) * 100.0
  {
    if |rows| > 0 {
      PercentagesScale(rows[1..], total);
      var p, q := rows[0].percentage, SumPercentages(rows[1..]);
      assert p * total == rows[0].optimized * 100.0;
      assert (p + q) * total == p * total + q * total;
    }
  }

  /** The table without the bucket of `c`. */
  function WithoutCategory(bs: seq<Bucket>, c: string): (r: seq<Bucket>)
    ensures forall d :: d != c ==> Lookup(r, d) == Lookup(bs, d)
    ensures Lookup(r, c).None?
    ensures forall y :: y in r ==> y in bs
  {
    if |bs| == 0 then []
    else if bs[0].category == c then WithoutCategory(bs[1..], c)
    else [bs[0]] + WithoutCategory(bs[1..], c)
  }

  /** Removing a bucket keeps the keys distinct and the buckets ordered. */
  lemma {:induction false} WithoutCategoryKeeps(bs: seq<Bucket>, c: string)
    requires KeysDistinct(bs) && BucketsOrdered(bs)
    ensures KeysDistinct(WithoutCategory(bs, c)) && BucketsOrdered(WithoutCategory(bs, c))
  {
    if |bs| > 0 {
      var tail := bs[1..];
      assert KeysDistinct(tail) && BucketsOrdered(tail) by {
        assert forall i :: 0 <= i < |tail| ==> tail[i] == bs[i + 1];
      }
      WithoutCategoryKeeps(tail, c);
      var rest := WithoutCategory(tail, c);
      if bs[0].category != c {
        var r := WithoutCategory(bs, c);
        assert r[0] == bs[0] && r[1..] == rest;
        forall j | 0 < j < |r|
          ensures r[j].category != bs[0].category
        {
          assert r[j] == rest[j - 1] && r[j] in tail;
          var i :| 0 <= i < |tail| && tail[i] == r[j];
          assert bs[i + 1] == r[j];
        }
      }
    }
  }

  /** With distinct keys, the optimized sum splits into `c`'s bucket and the rest of the table. */
  lemma {:induction false} WithoutCategorySum(bs: seq<Bucket>, c: string)
    requires KeysDistinct(bs)
    ensures SumOptimized(bs) == (if Lookup(bs, c).Some? then Lookup(bs, c).value.optimized else 0.0) + SumOptimized(WithoutCategory(bs, c))
  {
    if |bs| > 0 {
      var tail := bs[1..];
      assert KeysDistinct(tail) by {
        assert forall i :: 0 <= i < |tail| ==> tail[i] == bs[i + 1];
      }
      if bs[0].category == c {
        assert forall i :: 0 <= i < |tail| ==> tail[i].category != c by {
          assert forall i :: 0 <= i < |tail| ==> tail[i] == bs[i + 1];
        }
        AbsentCategory(tail, c);
      } else {
        WithoutCategorySum(tail, c);
      }
    }
  }

  /** Removing a category no bucket has changes nothing. */
  lemma {:induction false} AbsentCategory(bs: seq<Bucket>, c: string)
    requires forall i :: 0 <= i < |bs| ==> bs[i].category != c
    ensures WithoutCategory(bs, c) == bs
  {
    if |bs| > 0 {
      var tail := bs[1..];
      assert forall i :: 0 <= i < |tail| ==> tail[i] == bs[i + 1];
      AbsentCategory(tail, c);
      assert bs == [bs[0]] + tail;
    }
  }

  /** The bars depend on the table only through its lookups of the categories of `cats`. */
  lemma {:induction false} BarsByLookup(cats: seq<string>, bs: seq<Bucket>, bs2: seq<Bucket>, total: real)
    requires total != 0.0
    requires forall k :: 0 <= k < |cats| ==> Lookup(bs, cats[k]) == Lookup(bs2, cats[k])
    ensures Bars(cats, bs, total) == Bars(cats, bs2, total)
  {
    if |cats| > 0 {
      assert forall k :: 0 <= k < |cats| - 1 ==> cats[1..][k] == cats[k + 1];
      BarsByLookup(cats[1..], bs, bs2, total);
    }
  }

  /**
    The bars of distinct categories over a table with distinct keys and ordered
    buckets cost together no more than the whole table.
  */
  lemma {:induction false} BarsCostAtMostSum(cats: seq<string>, bs: seq<Bucket>, total: real)
    requires total != 0.0 && Distinct(cats) && KeysDistinct(bs) && BucketsOrdered(bs)
    ensures SumCosts(Bars(cats, bs, total)) <= SumOptimized(bs)
  {
    if |cats| == 0 {
      SumNonNegative(bs);
    } else {
      var c, others := cats[0], cats[1..];
      assert Distinct(others) by {
        assert forall k :: 0 <= k < |others| ==> others[k] == cats[k + 1];
      }
      if IsListed(bs, c) {
        var bs2 := WithoutCategory(bs, c);
        WithoutCategoryKeeps(bs, c);
        WithoutCategorySum(bs, c);
        assert forall k :: 0 <= k < |others| ==> others[k] != c && Lookup(bs, others[k]) == Lookup(bs2, others[k]) by {
          assert forall k :: 0 <= k < |others| ==> others[k] == cats[k + 1];
        }
        BarsByLookup(others, bs, bs2, total);
        BarsCostAtMostSum(others, bs2, total);
        var bars := Bars(cats, bs, total);
        assert bars[0].optimized == Lookup(bs, c).value.optimized && bars[1..] == Bars(others, bs, total);
      } else {
        BarsCostAtMostSum(others, bs, total);
      }
    }
  }

  /** Shares of a positive total whose costs add up to at most the total add up to at most 100. */
  lemma SharesAtMostHundred(rows: seq<ChartRow>, total: real)
    requires total > 0.0 && SumCosts(rows) <= total
    requires forall i :: 0 <= i < |rows| ==> rows[i].percentage == Percentage(rows[i].optimized, total)
    ensures SumPercentages(rows) <= 100.0
  {
    PercentagesScale(rows, total);
    ShareBound(SumPercentages(rows), total, SumCosts(rows));
  }

  /** A share of a positive total is at most 100 when its cost is at most the total. */
  lemma ShareBound(share: real, total: real, cost: real)
    requires total > 0.0 && share * total == cost * 100.0 && cost <= total
    ensures share <= 100.0
  {
  }

  /**
    Over a table with distinct keys and ordered buckets that sum to the total, the
    chart's costs add up to at most the total and its percentages to at most 100.
  */
  lemma ChartSumsBounded(bs: seq<Bucket>, total: real)
    requires KeysDistinct(bs) && BucketsOrdered(bs) && SumOptimized(bs) == total
    ensures SumCosts(ChartData(bs, total)) <= total
    ensures SumPercentages(ChartData(bs, total)) <= 100.0
  {
    SumNonNegative(bs);
    if total != 0.0 {
      var bars := Bars(CATEGORIES, bs, total);
      assert Distinct(CATEGORIES) by {
        CategoriesFacts();
      }
      BarsCostAtMostSum(CATEGORIES, bs, total);
      SharesAtMostHundred(bars, total);
      SortSums(bars);
    }
  }

  /**
    Charting an analysis of a list with non-negative quantities, the bars' costs
    add up to at most the optimized total and their percentages to at most 100:
    only categories of the category list are charted, each once.
  */
  lemma ChartSharesSumAtMostHundred(items: seq<Item>, order: seq<Market>)
    requires NonNegativeQuantities(items)
    ensures var a := Analyze(items, order);
      var r := ChartData(a.categoryTotals, a.totalOptimized);
      && SumCosts(r) <= a.totalOptimized
      && SumPercentages(r) <= 100.0
  {
    var a := Analyze(items, order);
    assert a.categoryTotals == TallyItems(items, order).buckets;
    AnalysisOrdered(items, order);
    CategoriesSplitTotals(items, order);
    ChartSumsBounded(a.categoryTotals, a.totalOptimized);
  }
}
