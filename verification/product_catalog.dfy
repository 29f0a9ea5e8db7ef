/**
  The product catalog page: a table of the registered products, one of which at a
  time can be edited in place. The editing row holds a working copy of the
  product; its edits change one field or one market price, and saving checks the
  name and hands the copy on unchanged.
*/
module ProductCatalog {
  import opened Wrappers
  import opened Catalog
  import opened Model
  import opened Inputs
  import opened ListItem
  import opened ProductForm

  /** The editing row: the working copy of the product and the error shown. */
  datatype EditingRow = EditingRow(edited: Product, error: string)

  /** The row as it opens for a product: an unchanged copy and no error. */
  function StartEditing(p: Product): (r: EditingRow)
    ensures r.edited == p && r.error == ""
  {
    EditingRow(p, "")
  }

  /**
    Typing into market `m`'s price input: that price becomes what `parseFloat`
    reads, or 0 for a blank or unreadable input; nothing else changes.
  */
  function EditPrice(row: EditingRow, m: Market, input: NumberInput): (r: EditingRow)
    ensures r.edited.prices.Get(m) == OrZero(ParseFloat(input))
    ensures forall n :: n != m ==> r.edited.prices.Get(n) == row.edited.prices.Get(n)
    ensures r.edited == row.edited.(prices := r.edited.prices) && r.error == row.error
  {
    row.(edited := row.edited.(prices := row.edited.prices.With(m, OrZero(ParseFloat(input)))))
  }

  /** The three fields an editing row can change besides the prices. */
  datatype FieldEdit = NameField(name: string) | UnitField(unit: Unit) | CategoryField(category: string)

  /** Changing one field: that field takes the value; the others and the prices keep theirs. */
  function EditField(row: EditingRow, e: FieldEdit): (r: EditingRow)
    ensures e.NameField? ==> r.edited == row.edited.(name := e.name)
    ensures e.UnitField? ==> r.edited == row.edited.(unit := e.unit)
    ensures e.CategoryField? ==> r.edited == row.edited.(category := e.category)
    ensures r.edited.id == row.edited.id && r.edited.barcode == row.edited.barcode
    ensures r.edited.prices == row.edited.prices && r.error == row.error
  {
    match e
    case NameField(name) => row.(edited := row.edited.(name := name))
    case UnitField(unit) => row.(edited := row.edited.(unit := unit))
    case CategoryField(category) => row.(edited := row.edited.(category := category))
  }

  /**
    Saving: a blank name shows the error and hands nothing on; otherwise the
    error is cleared and the working copy is handed on exactly as edited, with
    its name untrimmed.
  */
  function Save(row: EditingRow): (r: (EditingRow, Option<Product>))
    ensures IsBlank(row.edited.name) ==> r == (row.(error := PRODUCT_NAME_REQUIRED), None)
    ensures !IsBlank(row.edited.name) ==> r == (row.(error := ""), Some(row.edited))
  {
    if IsBlank(row.edited.name) then (row.(error := PRODUCT_NAME_REQUIRED), None)
    else (row.(error := ""), Some(row.edited))
  }

  /** Which product, if any, has its row open for editing. */
  type EditingId = Option<string>

  /** Handing a saved product to the store closes the editing row. */
  function HandleSave(editing: EditingId, saved: Product): (r: EditingId)
    ensures r.None?
  {
    None
  }

  /**
    The price input of an editing row: blank for 0 (`price || ''`), the number
    otherwise, so re-entering what it shows leaves the price as it was.
  */
  lemma PriceInputRoundTrip(row: EditingRow, m: Market)
    ensures EditPrice(row, m, PriceField(row.edited.prices.Get(m))) == row
  {
    var r := EditPrice(row, m, PriceField(row.edited.prices.Get(m)));
    assert r.edited.prices.Get(Iquegami) == row.edited.prices.Get(Iquegami);
    assert r.edited.prices.Get(Proenca) == row.edited.prices.Get(Proenca);
    assert r.edited.prices.Get(Max) == row.edited.prices.Get(Max);
  }

  /** A price cell of the table: the price when it is positive, the dash (`None`) otherwise. */
  function PriceCell(p: Product, m: Market): (cell: Option<real>)
    ensures cell.Some? <==> p.prices.Get(m) > 0.0
    ensures cell.Some? ==> cell.value == p.prices.Get(m)
  {
    if p.prices.Get(m) > 0.0 then Some(p.prices.Get(m)) else None
  }

  /**
    Clearing a price input and saving hands on a product with no price at that
    market, which the table then shows as a dash.
  */
  lemma ClearedPriceShowsDash(row: EditingRow, m: Market)
    requires !IsBlank(row.edited.name)
    ensures var saved := Save(EditPrice(row, m, Empty)).1;
      saved.Some? && saved.value.prices.Get(m) == 0.0 && PriceCell(saved.value, m).None?
  {
  }

  /** An edit of a price never changes the product's name, so it never turns a savable row into a blocked one. */
  lemma PriceEditKeepsSavable(row: EditingRow, m: Market, input: NumberInput)
    ensures Save(EditPrice(row, m, input)).1.Some? <==> Save(row).1.Some?
  {
  }
}
