/**
  The totals panel of the original single-page application: one line per market
  with its total, the cheapest market highlighted, the optimized total, and a
  savings banner comparing the highest market total with the optimized total.
*/
module TotalsPanel {
  import opened Wrappers
  import opened Catalog
  import opened Model
  import opened Pricing
  import opened Cart

  /**
    The state of the scan over the markets: the market highlighted so far, the
    smallest positive total seen so far (`None` stands for the initial
    `Infinity`), and the highest total seen so far, starting at 0.
  */
  datatype Selection = Selection(cheapest: Option<Market>, minTotal: Option<real>, highest: real)

  /** Before any market is looked at. */
  const START: Selection := Selection(None, None, 0.0)

  /**
    Looks at one market's total: it becomes the cheapest when it is positive and
    strictly below the smallest positive total so far, and the highest when it is
    strictly above the highest so far.
  */
  function Step(s: Selection, m: Market, total: real): Selection {
    var below := total > 0.0 && (s.minTotal.None? || total < s.minTotal.value);
    Selection(
      if below then Some(m) else s.cheapest,
      if below then Some(total) else s.minTotal,
      if total > s.highest then total else s.highest)
  }

  /**
    The scan over `ms`, left to right: a market is highlighted exactly when some
    total is positive, and the highest total is the largest total, or 0 when none
    is positive.
  */
  function Scan(t: PerMarket<real>, ms: seq<Market>): (r: Selection)
    ensures r.cheapest.None? <==> forall j :: 0 <= j < |ms| ==> t.Get(ms[j]) <= 0.0
    ensures r.cheapest.None? <==> r.minTotal.None?
    ensures r.highest >= 0.0
    ensures forall j :: 0 <= j < |ms| ==> t.Get(ms[j]) <= r.highest
    ensures r.highest == 0.0 || exists j :: 0 <= j < |ms| && r.highest == t.Get(ms[j])
  {
    if |ms| == 0 then START
    else
      var n := |ms| - 1;
      var s := Scan(t, ms[..n]);
      assert forall j :: 0 <= j < n ==> ms[j] == ms[..n][j];
      Step(s, ms[n], t.Get(ms[n]))
  }

  /**
    The highlighted market is the first market of `ms` with the smallest positive
    total: its total is the recorded minimum, it is positive and no greater than
    any positive total, and every market before its first position is unpriced
    or strictly dearer, the strict `<` keeping the earliest of equal totals.
  */
  lemma {:induction false} ScanFindsFirstCheapest(t: PerMarket<real>, ms: seq<Market>)
    ensures var r := Scan(t, ms);
      r.cheapest.Some? ==>
        && r.cheapest.value in ms
        && r.minTotal == Some(t.Get(r.cheapest.value))
        && t.Get(r.cheapest.value) > 0.0
        && (forall j :: 0 <= j < |ms| && t.Get(ms[j]) > 0.0 ==> t.Get(r.cheapest.value) <= t.Get(ms[j]))
        && (forall j :: 0 <= j < IndexOf(ms, r.cheapest.value) && t.Get(ms[j]) > 0.0 ==> t.Get(r.cheapest.value) < t.Get(ms[j]))
  {
    if |ms| > 0 {
      var n := |ms| - 1;
      var pre, m := ms[..n], ms[n];
      ScanFindsFirstCheapest(t, pre);
      var s := Scan(t, pre);
      var r := Scan(t, ms);
      assert r == Step(s, m, t.Get(m));
      assert forall j :: 0 <= j < n ==> ms[j] == pre[j];
      if t.Get(m) > 0.0 && (s.minTotal.None? || t.Get(m) < s.minTotal.value) {
        assert r.cheapest == Some(m);
        assert IndexOf(ms, m) == n;
      } else if s.cheapest.Some? {
        var c := s.cheapest.value;
        assert r.cheapest == Some(c);
        IndexOfPrefix(ms, n, c);
      }
    }
  }

  /** A value found in a prefix is found at the same position in the whole sequence. */
  lemma IndexOfPrefix(ms: seq<Market>, n: nat, x: Market)
    requires n <= |ms| && x in ms[..n]
    ensures IndexOf(ms, x) == IndexOf(ms[..n], x)
  {
    var k := IndexOf(ms[..n], x);
    assert ms[k] == x;
    assert forall j :: 0 <= j < k ==> ms[j] == ms[..n][j];
  }

  /** The panel's scan, over the markets in their declaration order. */
  function SelectMarkets(t: PerMarket<real>): Selection {
    Scan(t, SUPERMARKETS)
  }

  /**
    The banner's savings: the highest market total minus the optimized total
    when both are positive, 0 otherwise.
  */
  function PanelSavings(optimized: real, highest: real): (r: real)
    ensures optimized > 0.0 && highest > 0.0 ==> optimized + r == highest
    ensures !(optimized > 0.0 && highest > 0.0) ==> r == 0.0
  {
    if optimized > 0.0 && highest > 0.0 then highest - optimized else 0.0
  }

  /** The savings banner is shown only for positive savings. */
  predicate ShowsBanner(t: Totals) {
    PanelSavings(t.optimized, SelectMarkets(t.markets).highest) > 0.0
  }

  /**
    The highlighted market is one whose total is positive and smallest among the
    positive totals, the first in declaration order among equal ones; none is
    highlighted when no market total is positive.
  */
  lemma HighlightIsCheapestMarket(t: PerMarket<real>)
    ensures SelectMarkets(t).cheapest.None? <==> forall m :: t.Get(m) <= 0.0
    ensures SelectMarkets(t).cheapest.Some? ==>
      var c := SelectMarkets(t).cheapest.value;
      && t.Get(c) > 0.0
      && (forall m :: t.Get(m) > 0.0 ==> t.Get(c) <= t.Get(m))
      && (forall m :: IndexOf(SUPERMARKETS, m) < IndexOf(SUPERMARKETS, c) && t.Get(m) > 0.0 ==> t.Get(c) < t.Get(m))
  {
    ScanFindsFirstCheapest(t, SUPERMARKETS);
    assert SUPERMARKETS[0] == Iquegami && SUPERMARKETS[1] == Proenca && SUPERMARKETS[2] == Max;
    forall m ensures IndexOf(SUPERMARKETS, m) < 3 && SUPERMARKETS[IndexOf(SUPERMARKETS, m)] == m {
      SupermarketsOrder();
      MarketInOrder(SUPERMARKETS, m);
    }
  }

  /** The highest market total is the largest of the three totals, or 0 when all are negative or zero. */
  lemma HighestIsLargestTotal(t: PerMarket<real>)
    ensures var h := SelectMarkets(t).highest;
      && h >= 0.0
      && (forall m :: t.Get(m) <= h)
      && (h == 0.0 || exists m :: h == t.Get(m))
  {
    var h := SelectMarkets(t).highest;
    forall m ensures t.Get(m) <= h {
      SupermarketsOrder();
      MarketInOrder(SUPERMARKETS, m);
      var k := IndexOf(SUPERMARKETS, m);
    }
    if h != 0.0 {
      var j :| 0 <= j < 3 && h == t.Get(SUPERMARKETS[j]);
    }
  }

  /**
    When some market has a genuine price for every item and quantities are not
    negative, the banner's savings are never negative: that market's total
    bounds the optimized total and the highest total bounds that market's.
  */
  lemma PanelSavingsNonNegative(items: seq<Item>, m: Market)
    requires NonNegativeQuantities(items)
    requires forall i :: 0 <= i < |items| ==> items[i].prices.Get(m) > 0.0
    ensures PanelSavings(CartTotals(items).optimized, SelectMarkets(CartTotals(items).markets).highest) >= 0.0
  {
    OptimizedAtMostMarket(items, m);
    HighestIsLargestTotal(CartTotals(items).markets);
  }

  /** The totals of two single-unit items priced 10 at Iquegami only and at Proenca only. */
  lemma DisjointPairTotals(a: Item, b: Item)
    requires a.quantity == 1.0 && a.prices == PerMarket(10.0, 0.0, 0.0)
    requires b.quantity == 1.0 && b.prices == PerMarket(0.0, 10.0, 0.0)
    ensures CartTotals([a, b]) == Totals(PerMarket(10.0, 10.0, 0.0), 20.0)
  {
    assert [a] + [b] == [a, b];
    assert CheapestPrice(a.prices) == 10.0 && CheapestPrice(b.prices) == 10.0;
    OptimizedTotalAppend([a], [b]);
    SingleItemTotals(a, Iquegami);
    SingleItemTotals(b, Iquegami);
    MarketTotalAppend([a], [b], Iquegami);
    SingleItemTotals(a, Proenca);
    SingleItemTotals(b, Proenca);
    MarketTotalAppend([a], [b], Proenca);
    SingleItemTotals(a, Max);
    SingleItemTotals(b, Max);
    MarketTotalAppend([a], [b], Max);
  }

  /** With Iquegami and Proenca tied at 10, the scan highlights Iquegami, the first of the two. */
  lemma TiedSelection()
    ensures SelectMarkets(PerMarket(10.0, 10.0, 0.0)) == Selection(Some(Iquegami), Some(10.0), 10.0)
  {
    var t := PerMarket(10.0, 10.0, 0.0);
    SupermarketsOrder();
    var s1 := Scan(t, SUPERMARKETS[..1]);
    assert SUPERMARKETS[..1][..0] == [];
    assert s1 == Step(START, Iquegami, 10.0);
    var s2 := Scan(t, SUPERMARKETS[..2]);
    assert SUPERMARKETS[..2][..1] == SUPERMARKETS[..1];
    assert s2 == Step(s1, Proenca, 10.0);
    assert SUPERMARKETS[..3] == SUPERMARKETS;
    assert Scan(t, SUPERMARKETS) == Step(s2, Max, 0.0);
  }

  /**
    Two items each priced at a single, different market: the highest market total
    covers only one of them, so the banner's savings come out negative and the
    banner stays hidden, and the highlighted market is one that prices only part
    of the list.
  */
  lemma PartialPricesNegativeSavings(a: Item, b: Item)
    requires a.quantity == 1.0 && a.prices == PerMarket(10.0, 0.0, 0.0)
    requires b.quantity == 1.0 && b.prices == PerMarket(0.0, 10.0, 0.0)
    ensures var t := CartTotals([a, b]);
      && t.optimized == 20.0
      && SelectMarkets(t.markets).highest == 10.0
      && PanelSavings(t.optimized, SelectMarkets(t.markets).highest) == -10.0
      && !ShowsBanner(t)
      && SelectMarkets(t.markets).cheapest == Some(Iquegami)
      && b.prices.Get(Iquegami) == 0.0
  {
    DisjointPairTotals(a, b);
    TiedSelection();
  }
}
