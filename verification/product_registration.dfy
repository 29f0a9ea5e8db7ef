/**
  The quick product-registration page reached from an unknown scanned barcode.
  Submitting checks the name, then that a barcode is present, sends the product
  data (name and barcode untrimmed) to the store, and when the store returns the
  saved product adds one unit of it to the shopping list and leaves the page.
*/
module ProductRegistration {
  import opened Wrappers
  import opened Catalog
  import opened Model
  import opened Inputs
  import opened Pricing
  import opened Cart
  import opened AddItemForm
  import opened ProductForm

  /** The page's fields; the barcode starts as the scanned one and may be cleared. */
  datatype RegistrationState = RegistrationState(
    name: string,
    unit: Unit,
    category: string,
    prices: PerMarket<NumberInput>,
    barcode: Option<string>,
    error: string)

  const REGISTRATION_BARCODE_REQUIRED: string := "O código de barras é obrigatório para o cadastro de produto."

  /** The page as it opens for a scanned barcode (or none). */
  function OpenPage(initialBarcode: Option<string>): (r: RegistrationState)
    ensures r.barcode == initialBarcode
    ensures r.name == "" && r.unit == Un && r.category == CATEGORIES[0] && r.error == ""
    ensures forall m :: r.prices.Get(m) == Empty
  {
    RegistrationState("", Un, CATEGORIES[0], Uniform(Empty), initialBarcode, "")
  }

  /** The "clear" link forgets the barcode. */
  function ClearBarcode(f: RegistrationState): (r: RegistrationState)
    ensures r.barcode.None?
    ensures r == f.(barcode := None)
  {
    f.(barcode := None)
  }

  /** `!barcode`: no barcode, or the empty one. Only these two are missing; white space is not. */
  predicate BarcodeMissing(b: Option<string>) {
    b.None? || b.value == ""
  }

  /**
    Validates the page, the name first: a blank name gives the item-name error,
    then a missing barcode gives the barcode error; otherwise the product data
    carries the name and barcode exactly as typed, untrimmed, the unit and
    category, and the parsed prices, a blank or unreadable field giving 0.
  */
  function Validate(f: RegistrationState): (r: Result<ProductData, string>)
    ensures IsBlank(f.name) ==> r == Err(NAME_REQUIRED)
    ensures !IsBlank(f.name) && BarcodeMissing(f.barcode) ==> r == Err(REGISTRATION_BARCODE_REQUIRED)
    ensures r.Ok? <==> !IsBlank(f.name) && !BarcodeMissing(f.barcode)
    ensures r.Ok? ==>
      && r.value.name == f.name && Some(r.value.barcode) == f.barcode && r.value.barcode != ""
      && r.value.unit == f.unit && r.value.category == f.category
      && forall m :: r.value.prices.Get(m) == OrZero(ParseFloat(f.prices.Get(m)))
  {
    if IsBlank(f.name) then Err(NAME_REQUIRED)
    else if BarcodeMissing(f.barcode) then Err(REGISTRATION_BARCODE_REQUIRED)
    else Ok(ProductData(f.barcode.value, f.name, f.unit, f.category, ParsePrices(f.prices)))
  }

  /** A cleared barcode blocks the submit of any form with a name. */
  lemma ClearedBarcodeBlocks(f: RegistrationState)
    requires !IsBlank(f.name)
    ensures Validate(ClearBarcode(f)) == Err(REGISTRATION_BARCODE_REQUIRED)
  {
  }

  /**
    The list item added after a successful save: one unit of the saved product,
    with its name, unit, category, prices and barcode.
  */
  function ItemFromProduct(saved: Product): (d: Draft)
    ensures d.quantity == 1.0
    ensures d.name == saved.name && d.unit == saved.unit && d.category == saved.category
    ensures d.prices == saved.prices && d.barcode == Some(saved.barcode)
  {
    Draft(saved.name, 1.0, saved.unit, saved.category, saved.prices, Some(saved.barcode))
  }

  /** What a submit does, given the store's reply `saved` to the data it sends. */
  datatype RegistrationOutcome = RegistrationOutcome(
    form: RegistrationState,
    sent: Option<ProductData>,
    added: Option<Draft>,
    leaves: bool)

  /**
    A failed validation shows its message and sends nothing; a valid page clears
    the error and sends its data; a saved product is added to the list as one
    unit and the page is left; a failed save adds nothing and stays.
  */
  function HandleSubmit(f: RegistrationState, saved: Option<Product>): (o: RegistrationOutcome)
    ensures Validate(f).Err? ==> o == RegistrationOutcome(f.(error := Validate(f).error), None, None, false)
    ensures Validate(f).Ok? ==> o.sent == Some(Validate(f).value) && o.form == f.(error := "")
    ensures o.added.Some? <==> o.sent.Some? && saved.Some?
    ensures o.added.Some? ==> o.added == Some(ItemFromProduct(saved.value))
    ensures o.leaves <==> o.added.Some?
  {
    match Validate(f)
    case Err(message) => RegistrationOutcome(f.(error := message), None, None, false)
    case Ok(data) =>
      match saved
      case None => RegistrationOutcome(f.(error := ""), Some(data), None, false)
      case Some(p) => RegistrationOutcome(f.(error := ""), Some(data), Some(ItemFromProduct(p)), true)
  }

  /**
    The item added after a save costs, in the optimized total, exactly the saved
    product's cheapest price: one unit at that price, nothing for an unpriced product.
  */
  lemma AddedItemCostsCheapestPrice(f: RegistrationState, saved: Product, id: string)
    requires HandleSubmit(f, Some(saved)).added.Some?
    ensures OptimizedCost(HandleSubmit(f, Some(saved)).added.value.WithId(id)) == CheapestPrice(saved.prices)
  {
  }

  /**
    The page accepts a non-empty white-space barcode that the product modal
    refuses: the page tests only for a missing or empty barcode, the modal trims
    it first. The page sends such a barcode as it is.
  */
  lemma WhiteSpaceBarcodeAcceptedHere(page: RegistrationState, modal: ProductFormState, b: string)
    requires !IsBlank(page.name) && modal.name == page.name
    requires b != [] && forall k :: 0 <= k < |b| ==> IsWhiteSpace(b[k])
    requires page.barcode == Some(b) && modal.barcode == b
    ensures Validate(page).Ok? && Validate(page).value.barcode == b
    ensures ProductForm.Validate(modal) == Err(BARCODE_REQUIRED)
  {
    BlankIffAllWhiteSpace(b);
  }
}
