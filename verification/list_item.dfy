/**
  One row of the shopping list: its edits (name, quantity, unit, category, and a
  unit price per market) and what each price cell shows (the field's text, the
  cheapest-price highlight, and the line total).
*/
module ListItem {
  import opened Wrappers
  import opened Catalog
  import opened Model
  import opened Inputs
  import opened Pricing
  import opened Cart

  /** The smallest quantity the row's quantity field accepts. */
  const MIN_QUANTITY: real := 0.1

  // ------------------------------------------------------------- price cells

  /**
    A price cell is highlighted when its price equals the row's cheapest positive
    price (which is then positive): exactly when the price is positive and no
    greater than any other positive price of the item, so every market tied at
    the minimum is highlighted.
  */
  function IsCheapest(item: Item, m: Market): (b: bool)
    ensures b <==> item.prices.Get(m) > 0.0 && forall n :: item.prices.Get(n) > 0.0 ==> item.prices.Get(m) <= item.prices.Get(n)
  {
    var cheapest := CheapestPrice(item.prices);
    cheapest > 0.0 && item.prices.Get(m) == cheapest
  }

  /** The text shown in a price field: blank for the "no price" sentinel 0, the number otherwise. */
  function PriceField(price: real): (input: NumberInput)
    ensures price == 0.0 ==> input == Empty
    ensures price != 0.0 ==> ParseFloat(input) == Some(price)
  {
    if price == 0.0 then Empty else ShowNumber(price)
  }

  /** The line total under a price field: price times quantity, shown only when positive. */
  function LineTotal(item: Item, m: Market): (r: Option<real>)
    ensures r.Some? <==> MarketCost(item, m) > 0.0
    ensures r.Some? ==> r.value == MarketCost(item, m)
  {
    var total := MarketCost(item, m);
    if total > 0.0 then Some(total) else None
  }

  /** A price cell as displayed. */
  datatype PriceCell = PriceCell(field: NumberInput, highlighted: bool, total: Option<real>)

  /** The price cell of market `m`. */
  function CellOf(item: Item, m: Market): (c: PriceCell)
    ensures c.field == PriceField(item.prices.Get(m))
    ensures c.highlighted == IsCheapest(item, m)
    ensures c.total == LineTotal(item, m)
  {
    PriceCell(PriceField(item.prices.Get(m)), IsCheapest(item, m), LineTotal(item, m))
  }

  /** The three price cells of a row. */
  function Cells(item: Item): (cells: PerMarket<PriceCell>)
    ensures forall m :: cells.Get(m) == CellOf(item, m)
  {
    PerMarket(CellOf(item, Iquegami), CellOf(item, Proenca), CellOf(item, Max))
  }

  /** An item with a genuine price has at least one highlighted cell; an unpriced item has none. */
  lemma SomeCellHighlighted(item: Item)
    ensures HasValidPrice(item.prices) <==> exists m :: IsCheapest(item, m)
  {
    if HasValidPrice(item.prices) {
      var r := CheapestPrice(item.prices);
      var m :| item.prices.Get(m) == r;
      assert IsCheapest(item, m);
    } else {
      ValidPriceAt(item.prices);
    }
  }

  // ------------------------------------------------------------------- edits

  /**
    Typing into market `m`'s price field: that price becomes what `parseFloat`
    reads, or 0 when the field is blank or unreadable; nothing else changes.
  */
  function EditPrice(item: Item, m: Market, input: NumberInput): (r: Item)
    ensures r.prices.Get(m) == OrZero(ParseFloat(input))
    ensures forall n :: n != m ==> r.prices.Get(n) == item.prices.Get(n)
    ensures r.id == item.id && r.name == item.name && r.quantity == item.quantity
    ensures r.unit == item.unit && r.category == item.category && r.barcode == item.barcode
  {
    item.(prices := item.prices.With(m, OrZero(ParseFloat(input))))
  }

  /** Re-entering the text a price field shows gives back the same item. */
  lemma PriceFieldRoundTrip(item: Item, m: Market)
    ensures EditPrice(item, m, PriceField(item.prices.Get(m))) == item
  {
    var r := EditPrice(item, m, PriceField(item.prices.Get(m)));
    assert r.prices.Get(m) == item.prices.Get(m);
    assert r.prices == item.prices by {
      assert r.prices.Get(Iquegami) == item.prices.Get(Iquegami);
      assert r.prices.Get(Proenca) == item.prices.Get(Proenca);
      assert r.prices.Get(Max) == item.prices.Get(Max);
    }
  }

  /** Clearing a price field removes that market's price: the item is no longer priced there. */
  lemma ClearingPriceUnprices(item: Item, m: Market)
    ensures EditPrice(item, m, Empty).prices.Get(m) == 0.0
    ensures !IsCheapest(EditPrice(item, m, Empty), m)
    ensures LineTotal(EditPrice(item, m, Empty), m).None?
  {
  }

  /** Only the last of two edits of the same price field counts. */
  lemma LastPriceEditWins(item: Item, m: Market, first: NumberInput, second: NumberInput)
    ensures EditPrice(EditPrice(item, m, first), m, second) == EditPrice(item, m, second)
  {
    var a := EditPrice(EditPrice(item, m, first), m, second);
    var b := EditPrice(item, m, second);
    assert a.prices.Get(Iquegami) == b.prices.Get(Iquegami);
    assert a.prices.Get(Proenca) == b.prices.Get(Proenca);
    assert a.prices.Get(Max) == b.prices.Get(Max);
  }

  /** Typing into the name field: the name becomes the text; nothing else changes. */
  function EditName(item: Item, name: string): (r: Item)
    ensures r.name == name
    ensures r.id == item.id && r.quantity == item.quantity && r.unit == item.unit
    ensures r.category == item.category && r.prices == item.prices && r.barcode == item.barcode
  {
    item.(name := name)
  }

  /**
    Typing into the quantity field. A blank field resets the quantity to 0.1; a
    number of at least 0.1 is taken as it is; anything else (a smaller number,
    an unreadable text) is ignored and no update is emitted.
  */
  function EditQuantity(item: Item, input: NumberInput): (r: Option<Item>)
    ensures r.Some? <==> input == Empty || (ParseFloat(input).Some? && ParseFloat(input).value >= MIN_QUANTITY)
    ensures r.Some? ==> r.value.quantity >= MIN_QUANTITY
    ensures input == Empty ==> r == Some(item.(quantity := MIN_QUANTITY))
    ensures input != Empty && r.Some? ==> r.value == item.(quantity := ParseFloat(input).value)
  {
    var q := ParseFloat(input);
    if (q.Some? && q.value >= MIN_QUANTITY) || input == Empty then
      Some(item.(quantity := OrElse(q, MIN_QUANTITY)))
    else None
  }

  /** Choosing a unit: the unit changes; nothing else does. */
  function EditUnit(item: Item, unit: Unit): (r: Item)
    ensures r.unit == unit
    ensures r.id == item.id && r.name == item.name && r.quantity == item.quantity
    ensures r.category == item.category && r.prices == item.prices && r.barcode == item.barcode
  {
    item.(unit := unit)
  }

  /** Choosing a category: the category changes; nothing else does. */
  function EditCategory(item: Item, category: string): (r: Item)
    ensures r.category == category
    ensures r.id == item.id && r.name == item.name && r.quantity == item.quantity
    ensures r.unit == item.unit && r.prices == item.prices && r.barcode == item.barcode
  {
    item.(category := category)
  }

  /** Every edit a row emits. */
  datatype Edit =
    | PriceEdit(market: Market, input: NumberInput)
    | NameEdit(name: string)
    | QuantityEdit(quantity: NumberInput)
    | UnitEdit(unit: Unit)
    | CategoryEdit(category: string)

  /** The updated item a row emits for an edit, if any. */
  function Apply(item: Item, e: Edit): (r: Option<Item>)
    ensures r.Some? ==> r.value.id == item.id
    ensures e.QuantityEdit? || r.Some?
  {
    match e
    case PriceEdit(m, input) => Some(EditPrice(item, m, input))
    case NameEdit(name) => Some(EditName(item, name))
    case QuantityEdit(input) => EditQuantity(item, input)
    case UnitEdit(unit) => Some(EditUnit(item, unit))
    case CategoryEdit(category) => Some(EditCategory(item, category))
  }

  /**
    A row's edit, handed to the list's update, replaces that row's item, and
    every other row sharing its id, and leaves every item with another id as it
    was.
  */
  lemma EditChangesOnlyItsRow(items: seq<Item>, i: nat, e: Edit)
    requires i < |items|
    ensures var r := Apply(items[i], e);
      r.Some? ==>
        && |UpdateItem(items, r.value)| == |items|
        && (forall j :: 0 <= j < |items| && items[j].id == items[i].id ==> UpdateItem(items, r.value)[j] == r.value)
        && forall j :: 0 <= j < |items| && items[j].id != items[i].id ==> UpdateItem(items, r.value)[j] == items[j]
  {
  }

  /**
    Row edits keep quantities positive: an item list whose quantities are all at
    least 0.1 keeps that property under any emitted row edit.
  */
  lemma EditsKeepQuantityFloor(items: seq<Item>, i: nat, e: Edit)
    requires i < |items|
    requires forall j :: 0 <= j < |items| ==> items[j].quantity >= MIN_QUANTITY
    ensures var r := Apply(items[i], e);
      r.Some? ==> forall j :: 0 <= j < |items| ==> UpdateItem(items, r.value)[j].quantity >= MIN_QUANTITY
  {
  }
}
