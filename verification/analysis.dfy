/**
  The purchase analysis: for every item with a genuine price, the market it is
  cheapest at (first such market in the price record's key order) and its
  dearest price; per-category optimized and highest costs; how many items, and
  how much optimized cost, each market receives; the global optimized and
  highest totals and their difference, the potential savings; and the
  percentages the analysis view displays.
*/
module Analysis {
  import opened Wrappers
  import opened Catalog
  import opened Model
  import opened Pricing
  import opened Cart

  // --------------------------------------------------------- per-item choice

  /** Some market of the enumeration order carries a positive price. */
  ghost predicate AnyPositive(p: Prices, order: seq<Market>) {
    exists j :: 0 <= j < |order| && p.Get(order[j]) > 0.0
  }

  /**
    Position `k` of the order holds the first minimum among the positive prices:
    positive, no greater than any positive price, and strictly less than every
    positive price enumerated before it.
  */
  ghost predicate IsFirstMin(p: Prices, order: seq<Market>, k: nat) {
    && k < |order|
    && p.Get(order[k]) > 0.0
    && (forall j :: 0 <= j < |order| && p.Get(order[j]) > 0.0 ==> p.Get(order[k]) <= p.Get(order[j]))
    && (forall j :: 0 <= j < k && p.Get(order[j]) > 0.0 ==> p.Get(order[k]) < p.Get(order[j]))
  }

  /** Position `k` of the order holds the first maximum among the positive prices. */
  ghost predicate IsFirstMax(p: Prices, order: seq<Market>, k: nat) {
    && k < |order|
    && p.Get(order[k]) > 0.0
    && (forall j :: 0 <= j < |order| && p.Get(order[j]) > 0.0 ==> p.Get(order[k]) >= p.Get(order[j]))
    && (forall j :: 0 <= j < k && p.Get(order[j]) > 0.0 ==> p.Get(order[k]) > p.Get(order[j]))
  }

  /** The position of the first positive price at or after position `i`, or `|order|` when there is none. */
  function FirstPositive(p: Prices, order: seq<Market>, i: nat): (k: nat)
    requires i <= |order|
    ensures i <= k <= |order|
    ensures k < |order| ==> p.Get(order[k]) > 0.0
    ensures forall j :: i <= j < k ==> p.Get(order[j]) <= 0.0
    decreases |order| - i
  {
    if i == |order| || p.Get(order[i]) > 0.0 then i else FirstPositive(p, order, i + 1)
  }

  /**
    The reduction `prices.reduce((min, cur) => cur.price < min.price ? cur : min, prices[0])`
    over the positive entries, fused with the filter that builds them: `best` is
    the entry kept so far, `i` the next position of the enumeration order, and a
    positive entry replaces `best` only when it is strictly cheaper.
  */
  function ReduceMin(p: Prices, order: seq<Market>, best: nat, i: nat): (k: nat)
    requires best < |order| && best <= i <= |order| && p.Get(order[best]) > 0.0
    requires forall j :: 0 <= j < i && p.Get(order[j]) > 0.0 ==> p.Get(order[best]) <= p.Get(order[j])
    requires forall j :: 0 <= j < best && p.Get(order[j]) > 0.0 ==> p.Get(order[best]) < p.Get(order[j])
    ensures IsFirstMin(p, order, k)
    decreases |order| - i
  {
    if i == |order| then best
    else
      var price := p.Get(order[i]);
      ReduceMin(p, order, if price > 0.0 && price < p.Get(order[best]) then i else best, i + 1)
  }

  /** The same reduction with `>`: the first maximum among the positive entries. */
  function ReduceMax(p: Prices, order: seq<Market>, best: nat, i: nat): (k: nat)
    requires best < |order| && best <= i <= |order| && p.Get(order[best]) > 0.0
    requires forall j :: 0 <= j < i && p.Get(order[j]) > 0.0 ==> p.Get(order[best]) >= p.Get(order[j])
    requires forall j :: 0 <= j < best && p.Get(order[j]) > 0.0 ==> p.Get(order[best]) > p.Get(order[j])
    ensures IsFirstMax(p, order, k)
    decreases |order| - i
  {
    if i == |order| then best
    else
      var price := p.Get(order[i]);
      ReduceMax(p, order, if price > 0.0 && price > p.Get(order[best]) then i else best, i + 1)
  }

  /** A `{ market, price }` entry of the analysis. */
  datatype Entry = Entry(market: Market, price: real)

  /** The cheapest and the dearest entry of one item, with their positions in the enumeration order. */
  datatype Choice = Choice(minAt: nat, min: Entry, maxAt: nat, max: Entry)

  /**
    The cheapest and dearest entries of an item whose prices are enumerated in
    `order`; `None` when no price is positive, in which case the analysis skips
    the item.
  */
  function Choose(p: Prices, order: seq<Market>): (r: Option<Choice>)
    ensures r.None? <==> !AnyPositive(p, order)
    ensures r.Some? ==> IsFirstMin(p, order, r.value.minAt) && IsFirstMax(p, order, r.value.maxAt)
    ensures r.Some? ==> r.value.min == Entry(order[r.value.minAt], p.Get(order[r.value.minAt]))
    ensures r.Some? ==> r.value.max == Entry(order[r.value.maxAt], p.Get(order[r.value.maxAt]))
  {
    var f := FirstPositive(p, order, 0);
    if f == |order| then None
    else
      var lo := ReduceMin(p, order, f, f);
      var hi := ReduceMax(p, order, f, f);
      Some(Choice(lo, Entry(order[lo], p.Get(order[lo])), hi, Entry(order[hi], p.Get(order[hi]))))
  }

  /** Over an enumeration order of all three markets, "some position is positive" means "some price is positive". */
  lemma AnyPositiveIffValid(p: Prices, order: seq<Market>)
    requires IsMarketOrder(order)
    ensures AnyPositive(p, order) <==> HasValidPrice(p)
  {
    ValidPriceAt(p);
    if HasValidPrice(p) {
      var m :| p.Get(m) > 0.0;
      var k := MarketIndex(order, m);
    }
  }

  /**
    Tie-break: the market the analysis assigns an item to has a positive price no
    greater than any other positive price, and every market enumerated before it
    is either unpriced or strictly dearer; the strict `<` of the reduction keeps
    the earliest of equal minima.
  */
  lemma ChosenMarketIsFirstCheapest(p: Prices, order: seq<Market>)
    requires IsMarketOrder(order) && HasValidPrice(p)
    ensures Choose(p, order).Some?
    ensures var m := Choose(p, order).value.min.market;
      && p.Get(m) > 0.0
      && (forall n :: p.Get(n) > 0.0 ==> p.Get(m) <= p.Get(n))
      && (forall n :: MarketIndex(order, n) < MarketIndex(order, m) && p.Get(n) > 0.0 ==> p.Get(m) < p.Get(n))
  {
    AnyPositiveIffValid(p, order);
    var c := Choose(p, order).value;
    forall n | p.Get(n) > 0.0
      ensures c.min.price <= p.Get(n)
      ensures MarketIndex(order, n) < MarketIndex(order, c.min.market) ==> c.min.price < p.Get(n)
    {
      var j := MarketIndex(order, n);
      assert MarketIndex(order, c.min.market) == c.minAt;
    }
  }

  /** In the default order, an item priced equally at Iquegami and Proença is assigned to Iquegami. */
  lemma TieGoesToFirstMarket(p: Prices)
    requires p.iquegami > 0.0 && p.iquegami == p.proenca
    requires p.max <= 0.0 || p.max >= p.iquegami
    ensures Choose(p, SUPERMARKETS).Some? && Choose(p, SUPERMARKETS).value.min.market == Iquegami
  {
  }

  /** With the key order reversed, the same tie goes to Proença instead: the order decides ties. */
  lemma TieDependsOnKeyOrder(p: Prices)
    requires p.iquegami > 0.0 && p.iquegami == p.proenca && p.max <= 0.0
    ensures Choose(p, [Max, Proenca, Iquegami]).Some?
    ensures Choose(p, [Max, Proenca, Iquegami]).value.min.market == Proenca
  {
  }

  /** The cheapest entry's price is the item's cheapest positive price, whatever the key order. */
  lemma ChosenPriceIsCheapestPrice(p: Prices, order: seq<Market>)
    requires IsMarketOrder(order) && HasValidPrice(p)
    ensures Choose(p, order).Some? && Choose(p, order).value.min.price == CheapestPrice(p)
  {
    ChosenMarketIsFirstCheapest(p, order);
    var c := Choose(p, order).value;
    assert exists m :: p.Get(m) == c.min.price by {
      assert p.Get(c.min.market) == c.min.price;
    }
    CheapestPriceUnique(p, c.min.price);
  }

  /** The dearest entry's price is at least the cheapest entry's. */
  lemma MinAtMostMax(p: Prices, order: seq<Market>)
    requires Choose(p, order).Some?
    ensures 0.0 < Choose(p, order).value.min.price <= Choose(p, order).value.max.price
  {
  }

  // ------------------------------------------------------------ aggregation

  /** A category's optimized and highest cost. */
  datatype CategoryTotals = CategoryTotals(optimized: real, highest: real)

  /** One entry of the category table, which keeps categories in first-seen order. */
  datatype Bucket = Bucket(category: string, totals: CategoryTotals)

  /** How many items a market is the cheapest for, and their optimized cost. */
  datatype MarketStat = MarketStat(count: nat, totalCost: real)

  /** The running state of the analysis loop. */
  datatype Tally = Tally(
    buckets: seq<Bucket>,
    distribution: PerMarket<MarketStat>,
    optimized: real,
    highest: real)

  /** The result the analysis view renders. */
  datatype AnalysisData = AnalysisData(
    categoryTotals: seq<Bucket>,
    marketDistribution: PerMarket<MarketStat>,
    totalSavings: real,
    totalOptimized: real,
    totalHighest: real)

  /** The bucket an item falls in: its category, or the fallback when the category is empty. */
  function CategoryKey(category: string): (key: string)
    ensures category == "" ==> key == FALLBACK_CATEGORY
    ensures category != "" ==> key == category
  {
    if category == "" then FALLBACK_CATEGORY else category
  }

  /** The totals recorded for `key`, if it has a bucket. */
  function Lookup(bs: seq<Bucket>, key: string): Option<CategoryTotals> {
    if |bs| == 0 then None
    else if bs[0].category == key then Some(bs[0].totals)
    else Lookup(bs[1..], key)
  }

  /** No category has two buckets. */
  predicate KeysDistinct(bs: seq<Bucket>) {
    forall i, j :: 0 <= i < j < |bs| ==> bs[i].category != bs[j].category
  }

  /** The sum of the optimized costs of all buckets. */
  function SumOptimized(bs: seq<Bucket>): real {
    if |bs| == 0 then 0.0 else bs[0].totals.optimized + SumOptimized(bs[1..])
  }

  /** The sum of the highest costs of all buckets. */
  function SumHighest(bs: seq<Bucket>): real {
    if |bs| == 0 then 0.0 else bs[0].totals.highest + SumHighest(bs[1..])
  }

  /**
    Adds an item's costs to the bucket of `key`, creating the bucket, at the end
    of the table, on the key's first occurrence.
  */
  function AddToBucket(bs: seq<Bucket>, key: string, optimized: real, highest: real): (r: seq<Bucket>)
    requires KeysDistinct(bs)
    ensures KeysDistinct(r)
    ensures Lookup(r, key) == Some(
      match Lookup(bs, key)
      case None => CategoryTotals(optimized, highest)
      case Some(t) => CategoryTotals(t.optimized + optimized, t.highest + highest))
    ensures forall k :: k != key ==> Lookup(r, k) == Lookup(bs, k)
    ensures forall b :: b in r ==> b.category == key || b in bs
    ensures SumOptimized(r) == SumOptimized(bs) + optimized
    ensures SumHighest(r) == SumHighest(bs) + highest
  {
    if |bs| == 0 then [Bucket(key, CategoryTotals(optimized, highest))]
    else if bs[0].category == key then
      var t := bs[0].totals;
      [Bucket(key, CategoryTotals(t.optimized + optimized, t.highest + highest))] + bs[1..]
    else
      var rest := AddToBucket(bs[1..], key, optimized, highest);
      var r := [bs[0]] + rest;
      assert r[0] == bs[0] && r[1..] == rest;
      assert Lookup(r, key) == Lookup(rest, key) && Lookup(bs, key) == Lookup(bs[1..], key);
      assert KeysDistinct(r) by {
        forall j | 0 < j < |r| ensures r[j].category != bs[0].category {
          assert r[j] == rest[j - 1] && r[j] in rest;
          if r[j].category != key {
            var i :| 0 <= i < |bs[1..]| && bs[1..][i] == r[j];
            assert bs[i + 1] == r[j];
          }
        }
      }
      r
  }

  /** Accounts for one item: skipped when it has no positive price, otherwise added to its bucket, its market and the totals. */
  function Visit(t: Tally, item: Item, order: seq<Market>): Tally
    requires KeysDistinct(t.buckets)
  {
    match Choose(item.prices, order)
    case None => t
    case Some(c) =>
      var optimizedCost := Cost(c.min.price, item.quantity);
      var highestCost := Cost(c.max.price, item.quantity);
      var s := t.distribution.Get(c.min.market);
      Tally(
        AddToBucket(t.buckets, CategoryKey(item.category), optimizedCost, highestCost),
        t.distribution.With(c.min.market, MarketStat(s.count + 1, s.totalCost + optimizedCost)),
        t.optimized + optimizedCost,
        t.highest + highestCost)
  }

  /** The state before any item: no buckets, every market at zero, both totals zero. */
  const EMPTY_TALLY: Tally := Tally([], Uniform(MarketStat(0, 0.0)), 0.0, 0.0)

  /** The analysis loop over the list, left to right. */
  function TallyItems(items: seq<Item>, order: seq<Market>): (t: Tally)
    ensures KeysDistinct(t.buckets)
  {
    if |items| == 0 then EMPTY_TALLY
    else Visit(TallyItems(items[..|items| - 1], order), items[|items| - 1], order)
  }

  /** The analysis of a list whose price records enumerate their keys in `order`. */
  function Analyze(items: seq<Item>, order: seq<Market>): AnalysisData {
    var t := TallyItems(items, order);
    AnalysisData(t.buckets, t.distribution, t.highest - t.optimized, t.optimized, t.highest)
  }

  // ------------------------------------------------------- analysis lemmas

  /** The items of the list that have a genuine price, in their order. */
  function PricedOnly(items: seq<Item>): (r: seq<Item>)
    ensures |r| <= |items|
    ensures forall i :: 0 <= i < |r| ==> HasValidPrice(r[i].prices)
  {
    if |items| == 0 then []
    else
      var pre := PricedOnly(items[..|items| - 1]);
      var last := items[|items| - 1];
      if HasValidPrice(last.prices) then pre + [last] else pre
  }

  /** The priced items are exactly the items of the list that have a positive price. */
  lemma {:induction false} PricedOnlyMembers(items: seq<Item>, x: Item)
    ensures x in PricedOnly(items) <==> x in items && HasValidPrice(x.prices)
  {
    if |items| > 0 {
      var n := |items| - 1;
      PricedOnlyMembers(items[..n], x);
      assert items == items[..n] + [items[n]];
    }
  }

  /** An item without a positive price is skipped by the analysis loop. */
  lemma UnpricedItemSkipped(t: Tally, item: Item, order: seq<Market>)
    requires KeysDistinct(t.buckets) && !HasValidPrice(item.prices)
    ensures Visit(t, item, order) == t
  {
    ValidPriceAt(item.prices);
  }

  /**
    Items with no positive price change nothing: no bucket, no market count or
    cost, neither total. The analysis loop over the whole list ends where the
    loop over its priced items alone ends.
  */
  lemma {:induction false} TallyIgnoresUnpriced(items: seq<Item>, order: seq<Market>)
    ensures TallyItems(items, order) == TallyItems(PricedOnly(items), order)
  {
    if |items| > 0 {
      var n := |items| - 1;
      var pre, last := items[..n], items[n];
      TallyIgnoresUnpriced(pre, order);
      var p := PricedOnly(pre);
      if HasValidPrice(last.prices) {
        assert PricedOnly(items) == p + [last];
        assert (p + [last])[..|p|] == p;
      } else {
        UnpricedItemSkipped(TallyItems(pre, order), last, order);
      }
    }
  }

  /** Analysing the whole list equals analysing only its priced items. */
  lemma AnalysisIgnoresUnpriced(items: seq<Item>, order: seq<Market>)
    ensures Analyze(items, order) == Analyze(PricedOnly(items), order)
  {
    TallyIgnoresUnpriced(items, order);
  }

  /** The optimized cost summed over the three markets. */
  function DistributedCost(d: PerMarket<MarketStat>): real {
    d.Get(Iquegami).totalCost + d.Get(Proenca).totalCost + d.Get(Max).totalCost
  }

  /** The item counts summed over the three markets. */
  function DistributedCount(d: PerMarket<MarketStat>): nat {
    d.Get(Iquegami).count + d.Get(Proenca).count + d.Get(Max).count
  }

  /** Changing one market's statistic changes the sums by exactly that change. */
  lemma DistributionWith(d: PerMarket<MarketStat>, m: Market, s: MarketStat)
    ensures DistributedCost(d.With(m, s)) == DistributedCost(d) - d.Get(m).totalCost + s.totalCost
    ensures DistributedCount(d.With(m, s)) == DistributedCount(d) - d.Get(m).count + s.count
  {
  }

  /**
    The market distribution splits the optimized total: the markets' costs add
    up to the total optimized cost, and their counts to the number of items that
    have a positive price.
  */
  lemma {:induction false} DistributionSplitsOptimized(items: seq<Item>, order: seq<Market>)
    requires IsMarketOrder(order)
    ensures DistributedCost(Analyze(items, order).marketDistribution) == Analyze(items, order).totalOptimized
    ensures DistributedCount(Analyze(items, order).marketDistribution) == |PricedOnly(items)|
  {
    if |items| > 0 {
      var n := |items| - 1;
      var pre, last := items[..n], items[n];
      DistributionSplitsOptimized(pre, order);
      var t := TallyItems(pre, order);
      AnyPositiveIffValid(last.prices, order);
      match Choose(last.prices, order)
      case None =>
      case Some(c) =>
        var s := t.distribution.Get(c.min.market);
        DistributionWith(t.distribution, c.min.market,
          MarketStat(s.count + 1, s.totalCost + Cost(c.min.price, last.quantity)));
    }
  }

  /**
    The category table splits both totals: its optimized costs add up to the total
    optimized cost and its highest costs to the total highest cost.
  */
  lemma {:induction false} CategoriesSplitTotals(items: seq<Item>, order: seq<Market>)
    ensures SumOptimized(Analyze(items, order).categoryTotals) == Analyze(items, order).totalOptimized
    ensures SumHighest(Analyze(items, order).categoryTotals) == Analyze(items, order).totalHighest
  {
    if |items| > 0 {
      CategoriesSplitTotals(items[..|items| - 1], order);
    }
  }

  /** Some priced item of the list falls in the bucket `key`. */
  predicate InCategory(items: seq<Item>, order: seq<Market>, key: string) {
    exists i :: 0 <= i < |items| && CategoryKey(items[i].category) == key && Choose(items[i].prices, order).Some?
  }

  /** The optimized cost of the priced items of bucket `key`, summed item by item. */
  function CategoryOptimized(items: seq<Item>, order: seq<Market>, key: string): real {
    if |items| == 0 then 0.0
    else
      var last := items[|items| - 1];
      var c := Choose(last.prices, order);
      CategoryOptimized(items[..|items| - 1], order, key)
        + (if c.Some? && CategoryKey(last.category) == key then Cost(c.value.min.price, last.quantity) else 0.0)
  }

  /** The highest cost of the priced items of bucket `key`, summed item by item. */
  function CategoryHighest(items: seq<Item>, order: seq<Market>, key: string): real {
    if |items| == 0 then 0.0
    else
      var last := items[|items| - 1];
      var c := Choose(last.prices, order);
      CategoryHighest(items[..|items| - 1], order, key)
        + (if c.Some? && CategoryKey(last.category) == key then Cost(c.value.max.price, last.quantity) else 0.0)
  }

  /** Some item of a non-empty list falls in a bucket when its last item does or one of the others does. */
  lemma InCategoryLast(items: seq<Item>, order: seq<Market>, key: string)
    requires |items| > 0
    ensures var n := |items| - 1;
      InCategory(items, order, key) <==>
        InCategory(items[..n], order, key)
        || (CategoryKey(items[n].category) == key && Choose(items[n].prices, order).Some?)
  {
    var n := |items| - 1;
    assert forall i :: 0 <= i < n ==> items[..n][i] == items[i];
  }

  /**
    Grouping is by exact category text, with the empty category read as the
    fallback: the bucket of `key` holds the sums of the optimized and of the
    highest costs of the priced items falling in it, and a missing bucket stands
    for sums of zero.
  */
  lemma {:induction false} BucketIsCategorySum(items: seq<Item>, order: seq<Market>, key: string)
    ensures Lookup(TallyItems(items, order).buckets, key).GetOr(CategoryTotals(0.0, 0.0))
      == CategoryTotals(CategoryOptimized(items, order, key), CategoryHighest(items, order, key))
  {
    if |items| > 0 {
      var n := |items| - 1;
      var pre, last := items[..n], items[n];
      BucketIsCategorySum(pre, order, key);
      var t := TallyItems(pre, order);
      assert TallyItems(items, order) == Visit(t, last, order);
      var c := Choose(last.prices, order);
      if c.Some? && CategoryKey(last.category) == key {
        var o, h := Cost(c.value.min.price, last.quantity), Cost(c.value.max.price, last.quantity);
        assert CategoryOptimized(items, order, key) == CategoryOptimized(pre, order, key) + o;
        assert CategoryHighest(items, order, key) == CategoryHighest(pre, order, key) + h;
        assert Visit(t, last, order).buckets == AddToBucket(t.buckets, key, o, h);
      } else {
        assert Lookup(Visit(t, last, order).buckets, key) == Lookup(t.buckets, key);
      }
    }
  }

  /** The table has a bucket for `key` exactly when some priced item falls in it. */
  lemma {:induction false} BucketExistsIffInCategory(items: seq<Item>, order: seq<Market>, key: string)
    ensures Lookup(TallyItems(items, order).buckets, key).Some? <==> InCategory(items, order, key)
  {
    if |items| > 0 {
      var n := |items| - 1;
      var pre, last := items[..n], items[n];
      BucketExistsIffInCategory(pre, order, key);
      InCategoryLast(items, order, key);
      var t := TallyItems(pre, order);
      assert TallyItems(items, order) == Visit(t, last, order);
      var c := Choose(last.prices, order);
      if !(c.Some? && CategoryKey(last.category) == key) {
        assert Lookup(Visit(t, last, order).buckets, key) == Lookup(t.buckets, key);
      }
    }
  }

  /** An item with an empty category is analysed under the fallback bucket. */
  lemma EmptyCategoryGoesToFallback(items: seq<Item>, order: seq<Market>, x: Item)
    requires x.category == "" && Choose(x.prices, order).Some?
    ensures Lookup(TallyItems(items + [x], order).buckets, FALLBACK_CATEGORY).Some?
  {
    var all := items + [x];
    assert all[|all| - 1] == x;
    assert InCategory(all, order, FALLBACK_CATEGORY);
    BucketExistsIffInCategory(all, order, FALLBACK_CATEGORY);
  }

  /**
    Whatever the key order, the analysis's total optimized cost is the optimized
    total of the cart totals.
  */
  lemma {:induction false} TotalOptimizedIsCartOptimized(items: seq<Item>, order: seq<Market>)
    requires IsMarketOrder(order)
    ensures Analyze(items, order).totalOptimized == OptimizedTotal(items)
  {
    if |items| > 0 {
      var n := |items| - 1;
      var pre, last := items[..n], items[n];
      TotalOptimizedIsCartOptimized(pre, order);
      AnyPositiveIffValid(last.prices, order);
      if HasValidPrice(last.prices) {
        ChosenPriceIsCheapestPrice(last.prices, order);
      } else {
        assert CheapestPrice(last.prices) == 0.0;
      }
    }
  }

  /** With a non-negative quantity, an item's optimized cost is non-negative and at most its highest cost. */
  lemma CostsOrdered(item: Item, order: seq<Market>)
    requires item.quantity >= 0.0 && Choose(item.prices, order).Some?
    ensures 0.0 <= Cost(Choose(item.prices, order).value.min.price, item.quantity)
    ensures Cost(Choose(item.prices, order).value.min.price, item.quantity)
      <= Cost(Choose(item.prices, order).value.max.price, item.quantity)
  {
    var c := Choose(item.prices, order).value;
    MinAtMostMax(item.prices, order);
    ScaleMonotone(0.0, c.min.price, item.quantity);
    ScaleMonotone(c.min.price, c.max.price, item.quantity);
  }

  /** Every bucket's optimized cost is non-negative and at most its highest cost. */
  predicate BucketsOrdered(bs: seq<Bucket>) {
    forall i :: 0 <= i < |bs| ==> 0.0 <= bs[i].totals.optimized <= bs[i].totals.highest
  }

  /** Adding a cost pair with 0 <= optimized <= highest keeps every bucket ordered. */
  lemma {:induction false} AddToBucketKeepsOrdered(bs: seq<Bucket>, key: string, optimized: real, highest: real)
    requires KeysDistinct(bs) && BucketsOrdered(bs) && 0.0 <= optimized <= highest
    ensures BucketsOrdered(AddToBucket(bs, key, optimized, highest))
  {
    if |bs| > 0 && bs[0].category != key {
      AddToBucketKeepsOrdered(bs[1..], key, optimized, highest);
      var rest := AddToBucket(bs[1..], key, optimized, highest);
      var r := AddToBucket(bs, key, optimized, highest);
      assert r == [bs[0]] + rest;
      assert forall j :: 0 < j < |r| ==> r[j] == rest[j - 1];
    } else if |bs| > 0 {
      var r := AddToBucket(bs, key, optimized, highest);
      assert forall j :: 0 < j < |r| ==> r[j] == bs[j];
    }
  }

  /** With non-negative quantities every bucket of the table has 0 <= optimized <= highest. */
  lemma {:induction false} BucketsStayOrdered(items: seq<Item>, order: seq<Market>)
    requires NonNegativeQuantities(items)
    ensures BucketsOrdered(TallyItems(items, order).buckets)
  {
    if |items| > 0 {
      var n := |items| - 1;
      var pre, last := items[..n], items[n];
      assert forall i :: 0 <= i < n ==> pre[i] == items[i];
      BucketsStayOrdered(pre, order);
      var t := TallyItems(pre, order);
      assert TallyItems(items, order) == Visit(t, last, order);
      match Choose(last.prices, order)
      case None =>
      case Some(c) =>
        var o, h := Cost(c.min.price, last.quantity), Cost(c.max.price, last.quantity);
        CostsOrdered(last, order);
        AddToBucketKeepsOrdered(t.buckets, CategoryKey(last.category), o, h);
        assert Visit(t, last, order).buckets == AddToBucket(t.buckets, CategoryKey(last.category), o, h);
    }
  }

  /** With non-negative quantities every market's cost is non-negative and 0 <= optimized <= highest. */
  lemma {:induction false} TotalsStayOrdered(items: seq<Item>, order: seq<Market>)
    requires NonNegativeQuantities(items)
    ensures forall m :: TallyItems(items, order).distribution.Get(m).totalCost >= 0.0
    ensures 0.0 <= TallyItems(items, order).optimized <= TallyItems(items, order).highest
  {
    if |items| > 0 {
      var n := |items| - 1;
      var pre, last := items[..n], items[n];
      assert forall i :: 0 <= i < n ==> pre[i] == items[i];
      TotalsStayOrdered(pre, order);
      if Choose(last.prices, order).Some? {
        CostsOrdered(last, order);
      }
    }
  }

  /**
    With non-negative quantities: every bucket has 0 <= optimized <= highest,
    every market's cost is non-negative, and 0 <= totalOptimized <= totalHighest,
    so the potential savings are never negative.
  */
  lemma AnalysisOrdered(items: seq<Item>, order: seq<Market>)
    requires NonNegativeQuantities(items)
    ensures BucketsOrdered(Analyze(items, order).categoryTotals)
    ensures forall m :: Analyze(items, order).marketDistribution.Get(m).totalCost >= 0.0
    ensures 0.0 <= Analyze(items, order).totalOptimized <= Analyze(items, order).totalHighest
    ensures Analyze(items, order).totalSavings >= 0.0
  {
    BucketsStayOrdered(items, order);
    TotalsStayOrdered(items, order);
  }

  /** Nothing is saved on an item whose positive prices are all the same (or that has none). */
  predicate OneLevel(item: Item, order: seq<Market>) {
    match Choose(item.prices, order)
    case None => true
    case Some(c) => c.min.price == c.max.price
  }

  /** An item has one price level exactly when all its positive prices are equal. */
  lemma OneLevelIffEqualPrices(item: Item, order: seq<Market>)
    requires IsMarketOrder(order)
    ensures OneLevel(item, order) <==>
      forall m, n :: item.prices.Get(m) > 0.0 && item.prices.Get(n) > 0.0 ==> item.prices.Get(m) == item.prices.Get(n)
  {
    var p := item.prices;
    AnyPositiveIffValid(p, order);
    ValidPriceAt(p);
    match Choose(p, order)
    case None =>
    case Some(c) =>
      forall m | p.Get(m) > 0.0
        ensures c.min.price <= p.Get(m) <= c.max.price
      {
        var j := MarketIndex(order, m);
      }
      assert p.Get(c.min.market) == c.min.price && p.Get(c.max.market) == c.max.price;
  }

  /** With a positive quantity, two prices cost the same only when they are the same. */
  lemma CostCancels(a: real, b: real, q: real)
    requires q > 0.0 && Cost(a, q) == Cost(b, q)
    ensures a == b
  {
    assert (a - b) * q == 0.0;
  }

  /** What buying an item at its dearest instead of its cheapest positive price costs more. */
  function ItemSavings(item: Item, order: seq<Market>): real {
    match Choose(item.prices, order)
    case None => 0.0
    case Some(c) => Cost(c.max.price, item.quantity) - Cost(c.min.price, item.quantity)
  }

  /** With a positive quantity an item's savings are non-negative, and zero exactly when it has one price level. */
  lemma ItemSavingsZeroIff(item: Item, order: seq<Market>)
    requires item.quantity > 0.0
    ensures ItemSavings(item, order) >= 0.0
    ensures ItemSavings(item, order) == 0.0 <==> OneLevel(item, order)
  {
    match Choose(item.prices, order)
    case None =>
    case Some(c) =>
      CostsOrdered(item, order);
      if Cost(c.min.price, item.quantity) == Cost(c.max.price, item.quantity) {
        CostCancels(c.min.price, c.max.price, item.quantity);
      }
  }

  /** The loop's running savings grow by exactly each item's savings. */
  lemma {:induction false} TallySavings(items: seq<Item>, order: seq<Market>)
    requires |items| > 0
    ensures var n := |items| - 1;
      TallyItems(items, order).highest - TallyItems(items, order).optimized
        == TallyItems(items[..n], order).highest - TallyItems(items[..n], order).optimized + ItemSavings(items[n], order)
  {
  }

  /** Every item of the list has a single price level. */
  predicate AllOneLevel(items: seq<Item>, order: seq<Market>) {
    forall i :: 0 <= i < |items| ==> OneLevel(items[i], order)
  }

  /** A non-empty list has one price level throughout when its last item and the others do. */
  lemma AllOneLevelLast(items: seq<Item>, order: seq<Market>)
    requires |items| > 0
    ensures var n := |items| - 1;
      AllOneLevel(items, order) <==> AllOneLevel(items[..n], order) && OneLevel(items[n], order)
  {
    var n := |items| - 1;
    assert forall i :: 0 <= i < n ==> items[..n][i] == items[i];
  }

  /** With positive quantities the loop's running savings are zero exactly when every item has one price level. */
  lemma {:induction false} TallySavingsZeroIff(items: seq<Item>, order: seq<Market>)
    requires forall i :: 0 <= i < |items| ==> items[i].quantity > 0.0
    ensures TallyItems(items, order).highest - TallyItems(items, order).optimized == 0.0 <==> AllOneLevel(items, order)
  {
    if |items| > 0 {
      var n := |items| - 1;
      var pre := items[..n];
      assert forall i :: 0 <= i < n ==> pre[i].quantity > 0.0 by {
        assert forall i :: 0 <= i < n ==> pre[i] == items[i];
      }
      TallySavingsZeroIff(pre, order);
      TotalsStayOrdered(pre, order);
      TallySavings(items, order);
      ItemSavingsZeroIff(items[n], order);
      AllOneLevelLast(items, order);
    }
  }

  /**
    With positive quantities the potential savings are zero exactly when every
    item has a single price level: no priced item has two different positive
    prices. Ties between markets save nothing; one missing price does not make
    an item a saving.
  */
  lemma NoSavingsIffOneLevel(items: seq<Item>, order: seq<Market>)
    requires forall i :: 0 <= i < |items| ==> items[i].quantity > 0.0
    ensures Analyze(items, order).totalSavings == 0.0 <==> forall i :: 0 <= i < |items| ==> OneLevel(items[i], order)
  {
    TallySavingsZeroIff(items, order);
  }

  // ------------------------------------------------------------ percentages

  /** The share of the optimized total bought at one market, as a percentage; 0 unless the total is positive. */
  function MarketPercentage(cost: real, totalOptimized: real): (r: real)
    ensures totalOptimized <= 0.0 ==> r == 0.0
    ensures totalOptimized > 0.0 ==> r * totalOptimized == cost * 100.0
    ensures 0.0 <= cost <= totalOptimized ==> 0.0 <= r <= 100.0
  {
    if totalOptimized > 0.0 then
      QuotientBounded(cost, totalOptimized);
      (cost / totalOptimized) * 100.0
    else 0.0
  }

  /** Three parts of a positive whole, each as a percentage of it, add up to 100. */
  lemma PercentagesOfParts(a: real, b: real, c: real, total: real)
    requires total > 0.0 && a + b + c == total
    ensures MarketPercentage(a, total) + MarketPercentage(b, total) + MarketPercentage(c, total) == 100.0
  {
    var x, y, z := MarketPercentage(a, total), MarketPercentage(b, total), MarketPercentage(c, total);
    assert x * total == a * 100.0 && y * total == b * 100.0 && z * total == c * 100.0;
    assert (x + y + z) * total == x * total + y * total + z * total;
    assert x * total + y * total + z * total == (a + b + c) * 100.0;
    ProductZero(x + y + z - 100.0, total);
  }

  /** A product with a positive factor is zero only when the other factor is. */
  lemma ProductZero(u: real, t: real)
    requires t > 0.0 && u * t == 0.0
    ensures u == 0.0
  {
  }

  /**
    With non-negative quantities each market's bar is between 0 and 100 percent,
    and when the optimized total is positive the three bars add up to 100.
  */
  lemma MarketBarsSplitHundred(items: seq<Item>, order: seq<Market>)
    requires IsMarketOrder(order) && NonNegativeQuantities(items)
    ensures var a := Analyze(items, order);
      forall m :: 0.0 <= MarketPercentage(a.marketDistribution.Get(m).totalCost, a.totalOptimized) <= 100.0
    ensures var a := Analyze(items, order);
      a.totalOptimized > 0.0 ==>
        MarketPercentage(a.marketDistribution.Get(Iquegami).totalCost, a.totalOptimized)
        + MarketPercentage(a.marketDistribution.Get(Proenca).totalCost, a.totalOptimized)
        + MarketPercentage(a.marketDistribution.Get(Max).totalCost, a.totalOptimized) == 100.0
  {
    var a := Analyze(items, order);
    var d := a.marketDistribution;
    AnalysisOrdered(items, order);
    DistributionSplitsOptimized(items, order);
    forall m ensures d.Get(m).totalCost <= a.totalOptimized {
      assert DistributedCost(d) == a.totalOptimized;
    }
    if a.totalOptimized > 0.0 {
      PercentagesOfParts(d.Get(Iquegami).totalCost, d.Get(Proenca).totalCost, d.Get(Max).totalCost, a.totalOptimized);
    }
  }

  /** The savings on a category as a percentage of its highest cost; 0 unless that cost is positive. */
  function SavingsPercentage(t: CategoryTotals): (r: real)
    ensures t.highest <= 0.0 ==> r == 0.0
    ensures t.highest > 0.0 ==> r * t.highest == (t.highest - t.optimized) * 100.0
    ensures 0.0 <= t.optimized <= t.highest ==> 0.0 <= r <= 100.0
  {
    if t.highest > 0.0 then
      QuotientBounded(t.highest - t.optimized, t.highest);
      ((t.highest - t.optimized) / t.highest) * 100.0
    else 0.0
  }

  /** A part of a positive whole, divided by it, lies between 0 and 1, and is positive for a positive part. */
  lemma QuotientBounded(part: real, whole: real)
    requires whole > 0.0
    ensures (part / whole) * whole == part
    ensures 0.0 <= part <= whole ==> 0.0 <= part / whole <= 1.0
    ensures 0.0 < part ==> 0.0 < part / whole
  {
    var q := part / whole;
    assert q * whole == part;
    if q < 0.0 {
      assert q * whole < 0.0;
    }
    if q > 1.0 {
      assert (q - 1.0) * whole > 0.0;
    }
  }

  // ------------------------------------------------------- category breakdown

  /** A category is listed when it has a bucket whose optimized cost is not zero. */
  predicate IsListed(bs: seq<Bucket>, category: string) {
    Lookup(bs, category).Some? && Lookup(bs, category).value.optimized != 0.0
  }

  /** The categories of `cats` that are listed, in the order of `cats`. */
  function ListedCategories(cats: seq<string>, bs: seq<Bucket>): (r: seq<string>)
    ensures forall c :: c in r <==> c in cats && IsListed(bs, c)
    ensures Distinct(cats) ==> Distinct(r)
    ensures Distinct(cats) ==> forall i, j :: 0 <= i < j < |r| ==> IndexOf(cats, r[i]) < IndexOf(cats, r[j])
  {
    if |cats| == 0 then []
    else
      var rest := ListedCategories(cats[1..], bs);
      assert forall c :: c in cats <==> c == cats[0] || c in cats[1..] by {
        assert cats == [cats[0]] + cats[1..];
      }
      assert Distinct(cats) ==> forall c :: c in rest ==> IndexOf(cats, c) == 1 + IndexOf(cats[1..], c);
      if IsListed(bs, cats[0]) then [cats[0]] + rest else rest
  }

  /** One row of the category breakdown. */
  datatype BreakdownRow = BreakdownRow(
    category: string,
    optimized: real,
    highest: real,
    savings: real,
    savingsPercentage: real)

  /** The row of a category that has a bucket. */
  function RowOf(category: string, t: CategoryTotals): (row: BreakdownRow)
    ensures row.category == category && row.optimized == t.optimized && row.highest == t.highest
    ensures row.optimized + row.savings == row.highest
    ensures row.savingsPercentage == SavingsPercentage(t)
  {
    BreakdownRow(category, t.optimized, t.highest, t.highest - t.optimized, SavingsPercentage(t))
  }

  /** The rows of the listed categories of `cats`, in the order of `cats`. */
  function BreakdownRows(cats: seq<string>, bs: seq<Bucket>): (rows: seq<BreakdownRow>)
    ensures |rows| == |ListedCategories(cats, bs)|
    ensures forall i :: 0 <= i < |rows| ==>
      && rows[i].category == ListedCategories(cats, bs)[i]
      && Lookup(bs, rows[i].category) == Some(CategoryTotals(rows[i].optimized, rows[i].highest))
      && rows[i].optimized + rows[i].savings == rows[i].highest
      && rows[i].savingsPercentage == SavingsPercentage(CategoryTotals(rows[i].optimized, rows[i].highest))
  {
    if |cats| == 0 then []
    else
      var rest := BreakdownRows(cats[1..], bs);
      if IsListed(bs, cats[0]) then [RowOf(cats[0], Lookup(bs, cats[0]).value)] + rest else rest
  }

  /** The category breakdown: one row per listed category, in the order of the category list. */
  function CategoryBreakdown(bs: seq<Bucket>): (rows: seq<BreakdownRow>)
    ensures |rows| == |ListedCategories(CATEGORIES, bs)|
    ensures forall i :: 0 <= i < |rows| ==> rows[i].category in CATEGORIES && IsListed(bs, rows[i].category)
  {
    var rows := BreakdownRows(CATEGORIES, bs);
    assert forall i :: 0 <= i < |rows| ==> rows[i].category in ListedCategories(CATEGORIES, bs);
    rows
  }

  /** In an ordered table every bucket found by a lookup is ordered. */
  lemma {:induction false} LookupOrdered(bs: seq<Bucket>, key: string)
    requires BucketsOrdered(bs) && Lookup(bs, key).Some?
    ensures 0.0 <= Lookup(bs, key).value.optimized <= Lookup(bs, key).value.highest
  {
    if bs[0].category != key {
      assert BucketsOrdered(bs[1..]) by {
        assert forall i :: 0 <= i < |bs| - 1 ==> bs[1..][i] == bs[i + 1];
      }
      LookupOrdered(bs[1..], key);
    }
  }

  /**
    With non-negative quantities every breakdown row has a positive optimized cost,
    non-negative savings, and a savings percentage between 0 and 100.
  */
  lemma BreakdownRowsBounded(items: seq<Item>, order: seq<Market>)
    requires NonNegativeQuantities(items)
    ensures var rows := CategoryBreakdown(Analyze(items, order).categoryTotals);
      forall i :: 0 <= i < |rows| ==>
        && 0.0 < rows[i].optimized <= rows[i].highest
        && rows[i].savings >= 0.0
        && 0.0 <= rows[i].savingsPercentage <= 100.0
  {
    var bs := Analyze(items, order).categoryTotals;
    var rows := CategoryBreakdown(bs);
    AnalysisOrdered(items, order);
    forall i | 0 <= i < |rows|
      ensures 0.0 < rows[i].optimized <= rows[i].highest
    {
      LookupOrdered(bs, rows[i].category);
    }
  }

  /**
    A category of the list gets a breakdown row exactly when some priced item
    falls in it and the optimized costs of its items do not sum to zero.
  */
  lemma BreakdownListsSpentCategories(items: seq<Item>, order: seq<Market>, c: string)
    requires c in CATEGORIES
    ensures c in ListedCategories(CATEGORIES, Analyze(items, order).categoryTotals) <==>
      InCategory(items, order, c) && CategoryOptimized(items, order, c) != 0.0
  {
    BucketIsCategorySum(items, order, c);
    BucketExistsIffInCategory(items, order, c);
  }
}
