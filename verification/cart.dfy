/**
  The shopping list held by the application: the list edits (add, remove,
  update, clear) and the totals derived from the list, one per market plus the
  optimized total in which every item is bought at its cheapest positive price.
*/
module Cart {
  import opened Wrappers
  import opened Catalog
  import opened Model
  import opened Pricing

  // ---------------------------------------------------------------- list edits

  /** Appends the draft, given its freshly generated id, at the end of the list. */
  function AddItem(items: seq<Item>, draft: Draft, id: string): (r: seq<Item>)
    ensures |r| == |items| + 1
    ensures r[..|items|] == items
    ensures r[|items|] == draft.WithId(id)
  {
    items + [draft.WithId(id)]
  }

  /** How many items of the list carry `id`. */
  function CountId(items: seq<Item>, id: string): nat {
    if |items| == 0 then 0
    else (if items[0].id == id then 1 else 0) + CountId(items[1..], id)
  }

  /** No item of the list carries `id` exactly when none is counted. */
  lemma CountIdZero(items: seq<Item>, id: string)
    ensures CountId(items, id) == 0 <==> forall x :: x in items ==> x.id != id
  {
    if |items| > 0 {
      CountIdZero(items[1..], id);
      assert items == [items[0]] + items[1..];
    }
  }

  /** Drops every item that carries `id`: `items.filter(item => item.id !== id)`. */
  function RemoveItem(items: seq<Item>, id: string): (r: seq<Item>)
    ensures forall x :: x in r <==> x in items && x.id != id
    ensures |r| == |items| - CountId(items, id)
  {
    if |items| == 0 then []
    else
      var rest := RemoveItem(items[1..], id);
      assert forall x :: x in items <==> x == items[0] || x in items[1..] by {
        assert items == [items[0]] + items[1..];
      }
      if items[0].id != id then [items[0]] + rest else rest
  }

  /** Removal works item by item, so the items it keeps stay in their order. */
  lemma {:induction false} RemoveKeepsOrder(a: seq<Item>, b: seq<Item>, id: string)
    ensures RemoveItem(a + b, id) == RemoveItem(a, id) + RemoveItem(b, id)
  {
    if |a| > 0 {
      var ab := a + b;
      assert ab[0] == a[0] && ab[1..] == a[1..] + b;
      RemoveKeepsOrder(a[1..], b, id);
      var head := if a[0].id != id then [a[0]] else [];
      assert RemoveItem(a, id) == head + RemoveItem(a[1..], id);
      assert RemoveItem(ab, id) == head + RemoveItem(ab[1..], id);
    } else {
      assert a + b == b;
    }
  }

  /** Removing an id no item carries leaves the list unchanged. */
  lemma {:induction false} RemoveUnknownId(items: seq<Item>, id: string)
    requires forall x :: x in items ==> x.id != id
    ensures RemoveItem(items, id) == items
  {
    if |items| > 0 {
      assert items[0] in items;
      assert forall x :: x in items[1..] ==> x in items;
      RemoveUnknownId(items[1..], id);
      assert items == [items[0]] + items[1..];
    }
  }

  /** Removing the id just given to an added item restores the list as it was. */
  lemma RemoveUndoesAdd(items: seq<Item>, draft: Draft, id: string)
    requires forall x :: x in items ==> x.id != id
    ensures RemoveItem(AddItem(items, draft, id), id) == items
  {
    RemoveKeepsOrder(items, [draft.WithId(id)], id);
    RemoveUnknownId(items, id);
    assert RemoveItem([draft.WithId(id)], id) == [];
  }

  /**
    Replaces every item that carries the updated item's id by the updated item:
    `items.map(item => item.id === updated.id ? updated : item)`.
  */
  function UpdateItem(items: seq<Item>, updated: Item): (r: seq<Item>)
    ensures |r| == |items|
    ensures forall i :: 0 <= i < |items| && items[i].id == updated.id ==> r[i] == updated
    ensures forall i :: 0 <= i < |items| && items[i].id != updated.id ==> r[i] == items[i]
  {
    if |items| == 0 then []
    else [if items[0].id == updated.id then updated else items[0]] + UpdateItem(items[1..], updated)
  }

  /** An update touches only the items with its id: removing that id afterwards gives what removing it before gives. */
  lemma UpdateTouchesOnlyItsId(items: seq<Item>, updated: Item)
    ensures RemoveItem(UpdateItem(items, updated), updated.id) == RemoveItem(items, updated.id)
  {
    if |items| > 0 {
      var r := UpdateItem(items, updated);
      assert r == [r[0]] + r[1..] && items == [items[0]] + items[1..];
      assert r[1..] == UpdateItem(items[1..], updated);
      UpdateTouchesOnlyItsId(items[1..], updated);
      RemoveKeepsOrder([r[0]], r[1..], updated.id);
      RemoveKeepsOrder([items[0]], items[1..], updated.id);
    }
  }

  /** Applying the same update twice is the same as applying it once. */
  lemma UpdateIdempotent(items: seq<Item>, updated: Item)
    ensures UpdateItem(UpdateItem(items, updated), updated) == UpdateItem(items, updated)
  {
  }

  /** Empties the list when the user confirms the prompt; otherwise leaves it as it is. */
  function ClearList(items: seq<Item>, confirmed: bool): (r: seq<Item>)
    ensures confirmed ==> r == []
    ensures !confirmed ==> r == items
  {
    if confirmed then [] else items
  }

  // -------------------------------------------------------------------- totals

  /** Every item of the list has a non-negative quantity. */
  predicate NonNegativeQuantities(items: seq<Item>) {
    forall i :: 0 <= i < |items| ==> items[i].quantity >= 0.0
  }

  /**
    What the list would cost bought entirely at market `m`: the running sum of
    price times quantity, left to right. An unpriced item (price 0) adds
    nothing; a negative price typed in is added as it is.
  */
  function MarketTotal(items: seq<Item>, m: Market): real {
    if |items| == 0 then 0.0
    else MarketTotal(items[..|items| - 1], m) + MarketCost(items[|items| - 1], m)
  }

  /** What one item adds to market `m`'s total: `(price || 0) * quantity`, where `|| 0` leaves every number but NaN as it is. */
  function MarketCost(item: Item, m: Market): real {
    Cost(item.prices.Get(m), item.quantity)
  }

  /** The optimized cost of one item: its cheapest positive price times its quantity, 0 when unpriced. */
  function OptimizedCost(item: Item): real {
    Cost(CheapestPrice(item.prices), item.quantity)
  }

  /** The optimized total: the running sum of every item's optimized cost. */
  function OptimizedTotal(items: seq<Item>): real {
    if |items| == 0 then 0.0
    else OptimizedTotal(items[..|items| - 1]) + OptimizedCost(items[|items| - 1])
  }

  /** The totals record handed to the totals panel. */
  datatype Totals = Totals(markets: PerMarket<real>, optimized: real)

  /** The per-market totals and the optimized total of the list. */
  function CartTotals(items: seq<Item>): (t: Totals)
    ensures forall m :: t.markets.Get(m) == MarketTotal(items, m)
    ensures t.optimized == OptimizedTotal(items)
  {
    Totals(
      PerMarket(MarketTotal(items, Iquegami), MarketTotal(items, Proenca), MarketTotal(items, Max)),
      OptimizedTotal(items))
  }

  /** An empty list costs 0 at every market and 0 optimized. */
  lemma EmptyCartTotals()
    ensures CartTotals([]) == Totals(Uniform(0.0), 0.0)
  {
  }

  /** A market total is additive over concatenation of lists. */
  lemma {:induction false} MarketTotalAppend(a: seq<Item>, b: seq<Item>, m: Market)
    ensures MarketTotal(a + b, m) == MarketTotal(a, m) + MarketTotal(b, m)
  {
    if |b| == 0 {
      assert a + b == a;
    } else {
      var b' := b[..|b| - 1];
      assert (a + b)[..|a + b| - 1] == a + b';
      MarketTotalAppend(a, b', m);
    }
  }

  /** The optimized total is additive over concatenation of lists. */
  lemma {:induction false} OptimizedTotalAppend(a: seq<Item>, b: seq<Item>)
    ensures OptimizedTotal(a + b) == OptimizedTotal(a) + OptimizedTotal(b)
  {
    if |b| == 0 {
      assert a + b == a;
    } else {
      var b' := b[..|b| - 1];
      assert (a + b)[..|a + b| - 1] == a + b';
      OptimizedTotalAppend(a, b');
    }
  }

  /** A list of one item costs price times quantity at a market, and its optimized cost in the optimized total. */
  lemma SingleItemTotals(x: Item, m: Market)
    ensures MarketTotal([x], m) == x.prices.Get(m) * x.quantity
    ensures OptimizedTotal([x]) == CheapestPrice(x.prices) * x.quantity
  {
    assert [x][..0] == [];
  }

  /** An item with no price at market `m` leaves that market's total where it was. */
  lemma UnpricedAddsNothing(items: seq<Item>, x: Item, m: Market)
    requires x.prices.Get(m) == 0.0
    ensures MarketTotal(items + [x], m) == MarketTotal(items, m)
  {
    assert (items + [x])[..|items|] == items;
  }

  /** An item with no positive price leaves the optimized total where it was. */
  lemma UnpricedAddsNothingOptimized(items: seq<Item>, x: Item)
    requires !HasValidPrice(x.prices)
    ensures OptimizedTotal(items + [x]) == OptimizedTotal(items)
  {
    assert (items + [x])[..|items|] == items;
  }

  /** Multiplying by a non-negative quantity keeps the order of two prices. */
  lemma ScaleMonotone(a: real, b: real, q: real)
    requires a <= b && q >= 0.0
    ensures Cost(a, q) <= Cost(b, q)
  {
  }

  /** An item's optimized cost is at most its cost at any market where it has a genuine price. */
  lemma OptimizedCostAtMost(x: Item, m: Market)
    requires x.quantity >= 0.0 && x.prices.Get(m) > 0.0
    ensures OptimizedCost(x) <= MarketCost(x, m)
  {
    ScaleMonotone(CheapestPrice(x.prices), x.prices.Get(m), x.quantity);
  }

  /**
    At a market where every item has a genuine price, the optimized total is at
    most what the whole list costs there.
  */
  lemma {:induction false} OptimizedAtMostMarket(items: seq<Item>, m: Market)
    requires NonNegativeQuantities(items)
    requires forall i :: 0 <= i < |items| ==> items[i].prices.Get(m) > 0.0
    ensures OptimizedTotal(items) <= MarketTotal(items, m)
  {
    if |items| > 0 {
      var n := |items| - 1;
      var last, pre := items[n], items[..n];
      assert forall i :: 0 <= i < |pre| ==> pre[i] == items[i];
      OptimizedAtMostMarket(pre, m);
      OptimizedCostAtMost(last, m);
      assert OptimizedTotal(items) == OptimizedTotal(pre) + OptimizedCost(last);
      assert MarketTotal(items, m) == MarketTotal(pre, m) + MarketCost(last, m);
    }
  }

  /** With non-negative quantities no optimized total is negative. */
  lemma {:induction false} OptimizedTotalNonNegative(items: seq<Item>)
    requires NonNegativeQuantities(items)
    ensures OptimizedTotal(items) >= 0.0
  {
    if |items| > 0 {
      var n := |items| - 1;
      OptimizedTotalNonNegative(items[..n]);
      ScaleMonotone(0.0, CheapestPrice(items[n].prices), items[n].quantity);
    }
  }
}
