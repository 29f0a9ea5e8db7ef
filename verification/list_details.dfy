/**
  The read-only detail view of a saved monthly list: one row per item with one
  cell per market (what the quantity costs there, highlighted when the market
  has the item's cheapest price) and the item's optimized cost.
*/
module ListDetails {
  import opened Wrappers
  import opened Catalog
  import opened Model
  import opened Pricing
  import opened Cart
  import opened ListItem

  /** A saved list as the store returns it. */
  datatype MonthlyList = MonthlyList(
    id: string,
    name: string,
    totalOptimized: real,
    items: seq<Item>,
    createdAt: string)

  /**
    One market cell: whether it is highlighted, what the quantity costs there
    (`None` for the dash shown when the market has no genuine price), and the
    unit price printed underneath.
  */
  datatype DetailCell = DetailCell(highlighted: bool, cost: Option<real>, unitPrice: real)

  /** One row: its market cells and the item's optimized cost. */
  datatype DetailRow = DetailRow(cells: PerMarket<DetailCell>, optimized: real)

  /**
    The cell of market `m`: highlighted exactly when the price is positive and no
    greater than any positive price of the item, so every market tied at the
    minimum is highlighted; the cost is shown exactly when the price is positive.
  */
  function DetailCellOf(item: Item, m: Market): (c: DetailCell)
    ensures c.highlighted <==>
      item.prices.Get(m) > 0.0 && forall n :: item.prices.Get(n) > 0.0 ==> item.prices.Get(m) <= item.prices.Get(n)
    ensures c.cost.Some? <==> item.prices.Get(m) > 0.0
    ensures c.cost.Some? ==> c.cost.value == MarketCost(item, m)
    ensures c.unitPrice == item.prices.Get(m)
  {
    var minPrice := CheapestPrice(item.prices);
    var price := item.prices.Get(m);
    DetailCell(
      price > 0.0 && price == minPrice,
      if price > 0.0 then Some(MarketCost(item, m)) else None,
      price)
  }

  /**
    The row of an item. Its optimized cost is the same per-item term the
    optimized cart total adds up: the cheapest positive price times the quantity,
    0 for an unpriced item.
  */
  function DetailRowOf(item: Item): (r: DetailRow)
    ensures forall m :: r.cells.Get(m) == DetailCellOf(item, m)
    ensures r.optimized == OptimizedCost(item)
    ensures !HasValidPrice(item.prices) ==> r.optimized == 0.0
  {
    var minPrice := CheapestPrice(item.prices);
    DetailRow(
      PerMarket(DetailCellOf(item, Iquegami), DetailCellOf(item, Proenca), DetailCellOf(item, Max)),
      Cost(minPrice, item.quantity))
  }

  /** The rows of a list, in item order; no list, no view. */
  function Details(list: Option<MonthlyList>): (rows: Option<seq<DetailRow>>)
    ensures rows.None? <==> list.None?
    ensures rows.Some? ==> |rows.value| == |list.value.items|
    ensures rows.Some? ==> forall i :: 0 <= i < |rows.value| ==> rows.value[i] == DetailRowOf(list.value.items[i])
  {
    match list
    case None => None
    case Some(l) => Some(RowsOf(l.items))
  }

  /** The row of every item, in order. */
  function RowsOf(items: seq<Item>): (rows: seq<DetailRow>)
    ensures |rows| == |items|
    ensures forall i :: 0 <= i < |items| ==> rows[i] == DetailRowOf(items[i])
  {
    if |items| == 0 then []
    else RowsOf(items[..|items| - 1]) + [DetailRowOf(items[|items| - 1])]
  }

  /** The sum of the rows' optimized costs, top to bottom. */
  function SumOptimized(rows: seq<DetailRow>): real {
    if |rows| == 0 then 0.0
    else SumOptimized(rows[..|rows| - 1]) + rows[|rows| - 1].optimized
  }

  /** The optimized column of the detail view adds up to the optimized cart total of the list's items. */
  lemma {:induction false} RowsSumToOptimizedTotal(items: seq<Item>)
    ensures SumOptimized(RowsOf(items)) == OptimizedTotal(items)
  {
    if |items| > 0 {
      var n := |items| - 1;
      var rows := RowsOf(items);
      assert rows[..n] == RowsOf(items[..n]);
      RowsSumToOptimizedTotal(items[..n]);
    }
  }

  /**
    With a non-negative quantity a row's optimized cost is at most the cost shown
    in any of its market cells.
  */
  lemma RowOptimizedAtMostCells(item: Item, m: Market)
    requires item.quantity >= 0.0
    ensures DetailRowOf(item).cells.Get(m).cost.Some? ==>
      DetailRowOf(item).optimized <= DetailRowOf(item).cells.Get(m).cost.value
  {
    if item.prices.Get(m) > 0.0 {
      OptimizedCostAtMost(item, m);
    }
  }

  /** The detail view and the shopping-list row highlight the same cells. */
  lemma DetailsHighlightLikeListRow(item: Item, m: Market)
    ensures DetailCellOf(item, m).highlighted == CellOf(item, m).highlighted
  {
  }

  /**
    With a positive quantity the detail view shows a cell's cost exactly when the
    shopping-list row shows a line total there, and the two amounts agree; with a
    zero quantity the detail view still shows a cost of 0 for a priced market,
    where the row shows none.
  */
  lemma DetailsCostLikeLineTotal(item: Item, m: Market)
    ensures item.quantity > 0.0 ==> DetailCellOf(item, m).cost == LineTotal(item, m)
    ensures item.quantity == 0.0 && item.prices.Get(m) > 0.0 ==>
      DetailCellOf(item, m).cost == Some(0.0) && LineTotal(item, m).None?
  {
    var p, q := item.prices.Get(m), item.quantity;
    if q > 0.0 {
      if p > 0.0 {
        PositiveCost(p, q);
      } else {
        ScaleMonotone(p, 0.0, q);
      }
    }
  }

  /** A positive price times a positive quantity is a positive cost. */
  lemma PositiveCost(p: real, q: real)
    requires p > 0.0 && q > 0.0
    ensures Cost(p, q) > 0.0
  {
  }
}
