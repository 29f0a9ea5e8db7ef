/**
  The shopping-list row of the original single-page application. It shows the
  item's name, quantity with the unit's label, and category, and one price cell
  per market; its only edit is a market's price. Its price cells follow the same
  rules as the current row's, so they are built from the same cell function.
*/
module LegacyListItem {
  import opened Wrappers
  import opened Catalog
  import opened Model
  import opened Inputs
  import opened Pricing
  import opened Cart
  import opened ListItem

  /** The legacy row as displayed. */
  datatype LegacyRow = LegacyRow(
    name: string,
    quantity: real,
    unitLabel: string,
    category: string,
    cells: PerMarket<PriceCell>)

  /**
    The legacy row of an item. A cell is highlighted exactly when its price is
    positive and no greater than any positive price of the item, so no cell is
    highlighted on an unpriced item; its field is blank for the sentinel 0 and
    reads back as the price otherwise; its total is shown exactly when price times
    quantity is positive.
  */
  function LegacyRowOf(item: Item): (r: LegacyRow)
    ensures r.name == item.name && r.quantity == item.quantity && r.category == item.category
    ensures (item.unit, r.unitLabel) in UNITS
    ensures forall m :: r.cells.Get(m).highlighted <==>
      item.prices.Get(m) > 0.0 && forall n :: item.prices.Get(n) > 0.0 ==> item.prices.Get(m) <= item.prices.Get(n)
    ensures forall m :: item.prices.Get(m) == 0.0 <==> r.cells.Get(m).field == Empty
    ensures forall m :: item.prices.Get(m) != 0.0 ==> ParseFloat(r.cells.Get(m).field) == Some(item.prices.Get(m))
    ensures forall m :: r.cells.Get(m).total.Some? <==> MarketCost(item, m) > 0.0
    ensures forall m :: r.cells.Get(m).total.Some? ==> r.cells.Get(m).total.value == MarketCost(item, m)
  {
    LegacyRow(item.name, item.quantity, UnitLabel(item.unit), item.category, Cells(item))
  }

  /**
    What is typed into a legacy price field is what the field shows afterwards:
    a non-zero number reads back as itself; a blank, unreadable or zero entry
    leaves the market unpriced and the field blank. The other markets keep their
    prices.
  */
  lemma LegacyPriceEditShows(item: Item, m: Market, input: NumberInput)
    ensures var r := LegacyRowOf(EditPrice(item, m, input));
      && (ParseFloat(input).Some? && ParseFloat(input).value != 0.0 ==> ParseFloat(r.cells.Get(m).field) == ParseFloat(input))
      && (ParseFloat(input).None? || ParseFloat(input).value == 0.0 ==> r.cells.Get(m).field == Empty && !r.cells.Get(m).highlighted)
      && (forall n :: n != m ==> EditPrice(item, m, input).prices.Get(n) == item.prices.Get(n))
  {
  }

  /**
    The legacy row highlights cells exactly as the cheapest-price rule says: a
    cell is highlighted when the cheapest price is positive and the cell's price
    equals it, and an item has a highlighted cell exactly when it has a genuine
    price.
  */
  lemma LegacyHighlightIsCheapestPrice(item: Item, m: Market)
    ensures LegacyRowOf(item).cells.Get(m).highlighted <==>
      CheapestPrice(item.prices) > 0.0 && item.prices.Get(m) == CheapestPrice(item.prices)
    ensures HasValidPrice(item.prices) <==> exists n :: LegacyRowOf(item).cells.Get(n).highlighted
  {
    SomeCellHighlighted(item);
    var r := LegacyRowOf(item);
    assert forall n :: r.cells.Get(n).highlighted == IsCheapest(item, n);
  }
}
