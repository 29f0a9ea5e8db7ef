/**
  The static tables of the application: the closed set of supermarkets with their
  default key order, the units of measure and their labels, and the category list.
*/
module Catalog {

  /** The three supermarkets whose prices are compared. */
  datatype Market = Iquegami | Proenca | Max

  /** The units of measure an item may be counted in (informational only). */
  datatype Unit = Un | Kg | L | G | Ml | Dz

  /** The key order of the supermarket table, which is the default enumeration order. */
  const SUPERMARKETS: seq<Market> := [Iquegami, Proenca, Max]

  /** The display name of each supermarket. */
  function MarketName(m: Market): string {
    match m
    case Iquegami => "Iquegami"
    case Proenca => "Proença"
    case Max => "Max"
  }

  /**
    An enumeration order of a price record's keys: every market exactly once.
    Prices typed into a form enumerate as SUPERMARKETS; prices reloaded from the
    database may enumerate in any such order.
  */
  predicate IsMarketOrder(order: seq<Market>) {
    |order| == 3 && Iquegami in order && Proenca in order && Max in order
  }

  /** True when no element of `s` occurs twice. */
  predicate Distinct<T(==)>(s: seq<T>) {
    forall i, j :: 0 <= i < j < |s| ==> s[i] != s[j]
  }

  /** The position of the first occurrence of `x` in `s`, or `|s|` when `x` does not occur. */
  function IndexOf<T(==)>(s: seq<T>, x: T): (i: nat)
    ensures i <= |s|
    ensures i < |s| <==> x in s
    ensures i < |s| ==> s[i] == x
    ensures forall j :: 0 <= j < i ==> s[j] != x
  {
    if |s| == 0 then 0
    else if s[0] == x then 0
    else 1 + IndexOf(s[1..], x)
  }

  /** The default order lists the three markets, each once, Iquegami first. */
  lemma SupermarketsOrder()
    ensures IsMarketOrder(SUPERMARKETS) && Distinct(SUPERMARKETS)
    ensures SUPERMARKETS[0] == Iquegami && SUPERMARKETS[1] == Proenca && SUPERMARKETS[2] == Max
  {
  }

  /** An enumeration order never lists a market twice. */
  lemma MarketOrderDistinct(order: seq<Market>)
    requires IsMarketOrder(order)
    ensures Distinct(order)
  {
  }

  /** Every market occurs in every enumeration order. */
  lemma MarketInOrder(order: seq<Market>, m: Market)
    requires IsMarketOrder(order)
    ensures m in order
  {
  }

  /** The position of market `m` in an enumeration order. */
  function MarketIndex(order: seq<Market>, m: Market): (i: nat)
    requires IsMarketOrder(order)
    ensures i < |order| && order[i] == m
    ensures forall j :: 0 <= j < |order| && order[j] == m ==> j == i
  {
    MarketOrderDistinct(order);
    MarketInOrder(order, m);
    if order[0] == m then 0 else if order[1] == m then 1 else 2
  }

  /** The unit table, in its declaration order: one (unit, label) pair per unit. */
  const UNITS: seq<(Unit, string)> := [
    (Un, "Unidade(s)"),
    (Kg, "Quilograma(s)"),
    (G, "Grama(s)"),
    (L, "Litro(s)"),
    (Ml, "Mililitro(s)"),
    (Dz, "Dúzia(s)")
  ]

  /** The label shown for a unit. */
  function UnitLabel(u: Unit): (name: string)
    ensures (u, name) in UNITS
    ensures forall i :: 0 <= i < |UNITS| && UNITS[i].0 == u ==> UNITS[i].1 == name
  {
    match u
    case Un => "Unidade(s)"
    case Kg => "Quilograma(s)"
    case G => "Grama(s)"
    case L => "Litro(s)"
    case Ml => "Mililitro(s)"
    case Dz => "Dúzia(s)"
  }

  /** The unit table has six rows and names every unit in exactly one of them. */
  lemma UnitsOneRowPerUnit(u: Unit)
    ensures |UNITS| == 6
    ensures exists i :: 0 <= i < |UNITS| && UNITS[i].0 == u
    ensures forall i, j :: 0 <= i < |UNITS| && 0 <= j < |UNITS| && UNITS[i].0 == u && UNITS[j].0 == u ==> i == j
  {
    assert UNITS[0].0 == Un && UNITS[1].0 == Kg && UNITS[2].0 == G;
    assert UNITS[3].0 == L && UNITS[4].0 == Ml && UNITS[5].0 == Dz;
  }

  /** The category list, in display order. */
  const CATEGORIES: seq<string> := [
    "Alimentos Básicos",
    "Hortifruti",
    "Carnes e Peixes",
    "Frios e Laticínios",
    "Bebidas",
    "Higiene Pessoal",
    "Limpeza",
    "Padaria",
    "Congelados",
    "Outros"
  ]

  /** The bucket an item without a category is analysed under. */
  const FALLBACK_CATEGORY: string := "Outros"

  /**
    The category list has ten distinct entries, starts with the form default
    "Alimentos Básicos", and contains the analysis fallback "Outros", so items
    analysed under the fallback still appear in the category breakdown.
  */
  lemma CategoriesFacts()
    ensures |CATEGORIES| == 10 && Distinct(CATEGORIES)
    ensures CATEGORIES[0] == "Alimentos Básicos"
    ensures FALLBACK_CATEGORY in CATEGORIES && CATEGORIES[9] == FALLBACK_CATEGORY
  {
  }
}
