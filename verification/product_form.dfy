/**
  The modal that registers a catalog product: its fields are reset whenever it
  opens; submitting checks the trimmed name, then the trimmed barcode, sends the
  trimmed product data to the store, and hands the saved product on and closes
  only when the store returns one.
*/
module ProductForm {
  import opened Wrappers
  import opened Catalog
  import opened Model
  import opened Inputs
  import opened AddItemForm

  /** The modal's fields: the price fields hold raw text. */
  datatype ProductFormState = ProductFormState(
    name: string,
    unit: Unit,
    category: string,
    prices: PerMarket<NumberInput>,
    barcode: string,
    error: string)

  /** The fields of a freshly opened modal. */
  const EMPTY_PRODUCT_FORM: ProductFormState := ProductFormState("", Un, CATEGORIES[0], Uniform(Empty), "", "")

  const PRODUCT_NAME_REQUIRED: string := "O nome do produto é obrigatório."
  const BARCODE_REQUIRED: string := "O código de barras é obrigatório."

  /** Opening the modal resets every field; a change that leaves it closed keeps them. */
  function OnOpenChange(f: ProductFormState, isOpen: bool): (r: ProductFormState)
    ensures isOpen ==> r.name == "" && r.unit == Un && r.category == CATEGORIES[0]
    ensures isOpen ==> (forall m :: r.prices.Get(m) == Empty) && r.barcode == "" && r.error == ""
    ensures !isOpen ==> r == f
  {
    if isOpen then EMPTY_PRODUCT_FORM else f
  }

  /**
    Validates the fields, the name first: a blank name gives the name error, then
    a blank barcode gives the barcode error; otherwise the product data carries
    the trimmed name and barcode, which are then non-empty, the unit and category
    as held, and the parsed prices, a blank or unreadable field giving 0.
  */
  function Validate(f: ProductFormState): (r: Result<ProductData, string>)
    ensures IsBlank(f.name) ==> r == Err(PRODUCT_NAME_REQUIRED)
    ensures !IsBlank(f.name) && IsBlank(f.barcode) ==> r == Err(BARCODE_REQUIRED)
    ensures r.Ok? <==> !IsBlank(f.name) && !IsBlank(f.barcode)
    ensures r.Ok? ==>
      && r.value.name == Trim(f.name) && r.value.name != ""
      && r.value.barcode == Trim(f.barcode) && r.value.barcode != ""
      && r.value.unit == f.unit && r.value.category == f.category
      && forall m :: r.value.prices.Get(m) == OrZero(ParseFloat(f.prices.Get(m)))
  {
    if IsBlank(f.name) then Err(PRODUCT_NAME_REQUIRED)
    else if IsBlank(f.barcode) then Err(BARCODE_REQUIRED)
    else Ok(ProductData(Trim(f.barcode), Trim(f.name), f.unit, f.category, ParsePrices(f.prices)))
  }

  /** Trimming an already trimmed text changes nothing. */
  lemma TrimIdempotent(s: string)
    ensures Trim(Trim(s)) == Trim(s)
  {
    var t := Trim(s);
    if t != [] {
      TrimKeepsInner(t);
    }
  }

  /**
    The fields re-filled from validated data validate to the same data: the
    trimmed name and barcode are already trimmed and not blank.
  */
  lemma ValidateIdempotent(f: ProductFormState, texts: PerMarket<NumberInput>)
    requires Validate(f).Ok?
    requires ParsePrices(texts) == Validate(f).value.prices
    ensures var d := Validate(f).value;
      Validate(ProductFormState(d.name, d.unit, d.category, texts, d.barcode, f.error)) == Validate(f)
  {
    TrimIdempotent(f.name);
    TrimIdempotent(f.barcode);
  }

  /**
    What a submit does, given the store's reply `saved` to the data it sends:
    the data sent (none when validation fails), the product handed on, whether
    the modal asks to be closed, and the fields afterwards.
  */
  datatype ModalOutcome = ModalOutcome(
    form: ProductFormState,
    sent: Option<ProductData>,
    added: Option<Product>,
    closes: bool)

  /**
    A failed validation shows its message and sends nothing; a valid form clears
    the error and sends its data, and only a product the store returns is handed
    on, together with the request to close.
  */
  function HandleSubmit(f: ProductFormState, saved: Option<Product>): (o: ModalOutcome)
    ensures Validate(f).Err? ==> o == ModalOutcome(f.(error := Validate(f).error), None, None, false)
    ensures Validate(f).Ok? ==> o.sent == Some(Validate(f).value) && o.form == f.(error := "")
    ensures o.added.Some? ==> o.sent.Some? && o.added == saved
    ensures o.closes <==> o.added.Some?
    ensures o.sent.Some? && saved.Some? ==> o.added == saved
  {
    match Validate(f)
    case Err(message) => ModalOutcome(f.(error := message), None, None, false)
    case Ok(data) => ModalOutcome(f.(error := ""), Some(data), saved, saved.Some?)
  }

  /** A failed save keeps the modal open with the fields as typed and hands nothing on. */
  lemma FailedSaveKeepsModal(f: ProductFormState)
    requires Validate(f).Ok?
    ensures var o := HandleSubmit(f, None);
      o.added.None? && !o.closes && o.form.name == f.name && o.form.barcode == f.barcode && o.form.prices == f.prices
  {
  }

  /** The modal's name check and the add-item form's agree on which names are missing. */
  lemma NameCheckLikeAddItemForm(f: ProductFormState, g: FormState)
    requires f.name == g.name
    ensures Validate(f) == Err(PRODUCT_NAME_REQUIRED) <==> Submit(g) == Err(NAME_REQUIRED)
  {
  }
}
