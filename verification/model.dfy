/**
  The records the application passes around: per-market records (prices, totals),
  shopping-list items, the item drafts forms emit before an id is assigned, and
  catalog products.
*/
module Model {
  import opened Wrappers
  import opened Catalog

  /** One value per supermarket: a price record, a totals record or a per-market statistic. */
  datatype PerMarket<T> = PerMarket(iquegami: T, proenca: T, max: T) {

    /** The value recorded for market `m`. */
    function Get(m: Market): T {
      match m
      case Iquegami => iquegami
      case Proenca => proenca
      case Max => max
    }

    /** The record with market `m` set to `v`: the object spread `{ ...record, [m]: v }`. */
    function With(m: Market, v: T): (r: PerMarket<T>)
      ensures r.Get(m) == v
      ensures forall n :: n != m ==> r.Get(n) == Get(n)
    {
      match m
      case Iquegami => this.(iquegami := v)
      case Proenca => this.(proenca := v)
      case Max => this.(max := v)
    }
  }

  /** The same value at every market. */
  function Uniform<T>(v: T): (r: PerMarket<T>)
    ensures forall m :: r.Get(m) == v
  {
    PerMarket(v, v, v)
  }

  /**
    Unit prices per market. A price of 0 is the sentinel for "no price entered";
    a genuine price is strictly positive. Nothing stops a negative value from
    being typed in, so the type admits every real.
  */
  type Prices = PerMarket<real>

  /** One shopping-list entry. The barcode is absent on items typed in by hand. */
  datatype Item = Item(
    id: string,
    name: string,
    quantity: real,
    unit: Unit,
    category: string,
    prices: Prices,
    barcode: Option<string>)

  /** An item as a form emits it, before the list assigns it an id. */
  datatype Draft = Draft(
    name: string,
    quantity: real,
    unit: Unit,
    category: string,
    prices: Prices,
    barcode: Option<string>)
  {
    /** The list item `{ ...draft, id }`. */
    function WithId(id: string): (item: Item)
      ensures item.id == id && item.name == name && item.quantity == quantity
      ensures item.unit == unit && item.category == category
      ensures item.prices == prices && item.barcode == barcode
    {
      Item(id, name, quantity, unit, category, prices, barcode)
    }
  }

  /** The fields of a catalog product sent to the store when it is registered. */
  datatype ProductData = ProductData(
    barcode: string,
    name: string,
    unit: Unit,
    category: string,
    prices: Prices)

  /** A catalog product as the store returns it. */
  datatype Product = Product(
    id: string,
    barcode: string,
    name: string,
    unit: Unit,
    category: string,
    prices: Prices,
    createdAt: string)

  /** What `quantity` units cost at `price`. */
  function Cost(price: real, quantity: real): real {
    price * quantity
  }
}
