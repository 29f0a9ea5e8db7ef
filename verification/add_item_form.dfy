/**
  The form that adds an item to the shopping list: its state, the submit
  handler that validates the state and emits an item draft or an error message,
  the reset to defaults, and the prefill from a scanned catalog product.
*/
module AddItemForm {
  import opened Wrappers
  import opened Catalog
  import opened Model
  import opened Inputs
  import opened Pricing

  /**
    The form's state. The quantity is what `parseFloat` made of the quantity
    field (`None` for NaN, which a blank field gives); the prices are the raw
    texts of the three price fields.
  */
  datatype FormState = FormState(
    name: string,
    quantity: Option<real>,
    unit: Unit,
    category: string,
    prices: PerMarket<NumberInput>,
    barcode: Option<string>,
    error: string)

  /** The state of a fresh form, and of a form after a successful submit. */
  const DEFAULT_FORM: FormState := FormState("", Some(1.0), Un, CATEGORIES[0], Uniform(Empty), None, "")

  const NAME_REQUIRED: string := "O nome do item é obrigatório."
  const QUANTITY_NOT_POSITIVE: string := "A quantidade deve ser maior que zero."

  /** The defaults: empty name, quantity 1, unit "un", the first category, blank prices, no barcode, no error. */
  lemma DefaultForm()
    ensures DEFAULT_FORM.name == "" && DEFAULT_FORM.quantity == Some(1.0) && DEFAULT_FORM.unit == Un
    ensures DEFAULT_FORM.category == "Alimentos Básicos"
    ensures forall m :: DEFAULT_FORM.prices.Get(m) == Empty
    ensures DEFAULT_FORM.barcode.None? && DEFAULT_FORM.error == ""
  {
  }

  /** Typing into the quantity field stores what `parseFloat` reads; a blank field stores NaN. */
  function TypeQuantity(f: FormState, input: NumberInput): (r: FormState)
    ensures r.quantity == ParseFloat(input)
    ensures input == Empty ==> r.quantity.None?
    ensures r == f.(quantity := r.quantity)
  {
    f.(quantity := ParseFloat(input))
  }

  /** Typing into market `m`'s price field stores the text; the other fields keep theirs. */
  function TypePrice(f: FormState, m: Market, input: NumberInput): (r: FormState)
    ensures r.prices.Get(m) == input
    ensures forall n :: n != m ==> r.prices.Get(n) == f.prices.Get(n)
    ensures r == f.(prices := r.prices)
  {
    f.(prices := f.prices.With(m, input))
  }

  /** The "clear" link next to the barcode forgets the scanned barcode. */
  function ClearBarcode(f: FormState): (r: FormState)
    ensures r.barcode.None?
    ensures r == f.(barcode := None)
  {
    f.(barcode := None)
  }

  /** The prices the form emits: each field's `parseFloat(text) || 0`. */
  function ParsePrices(texts: PerMarket<NumberInput>): (p: Prices)
    ensures forall m :: p.Get(m) == OrZero(ParseFloat(texts.Get(m)))
    ensures forall m :: texts.Get(m) == Empty ==> p.Get(m) == 0.0
  {
    PerMarket(
      OrZero(ParseFloat(texts.iquegami)),
      OrZero(ParseFloat(texts.proenca)),
      OrZero(ParseFloat(texts.max)))
  }

  // ------------------------------------------------------------ quantity guard

  /**
    The quantity check as written, `quantity <= 0`: every comparison with NaN is
    false, so a NaN quantity is not rejected.
  */
  predicate QuantityRejectedAsWritten(q: Option<real>) {
    q.Some? && q.value <= 0.0
  }

  /**
    A blank quantity field gets past the check as written: `parseFloat('')` is
    NaN, and the form would go on to emit an item whose quantity is NaN. The
    corrected check refuses the same state with the quantity error.
  */
  lemma BlankQuantityPassesAsWritten(f: FormState)
    requires !IsBlank(f.name)
    ensures var g := TypeQuantity(f, Empty);
      && g.quantity.None?
      && !QuantityRejectedAsWritten(g.quantity)
      && Submit(g) == Err(QUANTITY_NOT_POSITIVE)
  {
  }

  /** The quantity check as intended: only a positive number is accepted. */
  predicate QuantityRejected(q: Option<real>) {
    q.None? || q.value <= 0.0
  }

  /** The intended check rejects everything the written one does, and NaN besides. */
  lemma QuantityCheckStrengthened(q: Option<real>)
    ensures QuantityRejectedAsWritten(q) ==> QuantityRejected(q)
    ensures QuantityRejected(q) && !QuantityRejectedAsWritten(q) <==> q.None?
  {
  }

  // -------------------------------------------------------------------- submit

  /**
    Validates the form, the name first: a blank name (empty or white space only)
    gives the name error whatever the quantity; otherwise a quantity that is not
    a positive number gives the quantity error; otherwise the draft carries the
    untrimmed name, the quantity, unit, category and barcode as held, and the
    parsed prices, a blank or unreadable price field giving 0.
  */
  function Submit(f: FormState): (r: Result<Draft, string>)
    ensures IsBlank(f.name) ==> r == Err(NAME_REQUIRED)
    ensures !IsBlank(f.name) && QuantityRejected(f.quantity) ==> r == Err(QUANTITY_NOT_POSITIVE)
    ensures r.Ok? <==> !IsBlank(f.name) && f.quantity.Some? && f.quantity.value > 0.0
    ensures r.Ok? ==> r.value.quantity > 0.0
    ensures r.Ok? ==>
      && r.value.name == f.name && Some(r.value.quantity) == f.quantity
      && r.value.unit == f.unit && r.value.category == f.category && r.value.barcode == f.barcode
      && forall m :: r.value.prices.Get(m) == OrZero(ParseFloat(f.prices.Get(m)))
  {
    if IsBlank(f.name) then Err(NAME_REQUIRED)
    else if QuantityRejected(f.quantity) then Err(QUANTITY_NOT_POSITIVE)
    else Ok(Draft(f.name, f.quantity.value, f.unit, f.category, ParsePrices(f.prices), f.barcode))
  }

  /** What a submit leaves behind: the next form state and the draft emitted, if any. */
  datatype Outcome = Outcome(form: FormState, emitted: Option<Draft>)

  /**
    The submit handler: on an error the message is shown, every field keeps its
    value and nothing is emitted; on success the draft is emitted and the form
    returns to its defaults.
  */
  function HandleSubmit(f: FormState): (o: Outcome)
    ensures Submit(f).Err? ==> o == Outcome(f.(error := Submit(f).error), None)
    ensures Submit(f).Ok? ==> o == Outcome(DEFAULT_FORM, Some(Submit(f).value))
    ensures o.emitted.Some? <==> o.form.error == ""
  {
    match Submit(f)
    case Err(message) => Outcome(f.(error := message), None)
    case Ok(draft) => Outcome(DEFAULT_FORM, Some(draft))
  }

  /** A form whose submit failed fails the same way when submitted again unchanged. */
  lemma FailedSubmitRepeats(f: FormState)
    requires HandleSubmit(f).emitted.None?
    ensures HandleSubmit(HandleSubmit(f).form) == HandleSubmit(f)
  {
  }

  /** A freshly reset form cannot be submitted: its name is empty. */
  lemma DefaultFormRejected()
    ensures Submit(DEFAULT_FORM) == Err(NAME_REQUIRED)
  {
    assert IsBlank(DEFAULT_FORM.name);
  }

  // ------------------------------------------------------------- scan prefill

  /** A product price as its field text: the number for a positive price, blank otherwise. */
  function PrefillPrice(price: real): (input: NumberInput)
    ensures price > 0.0 ==> ParseFloat(input) == Some(price)
    ensures price <= 0.0 ==> input == Empty
  {
    if price > 0.0 then ShowNumber(price) else Empty
  }

  /** The three price texts of a product. */
  function PrefillPrices(p: Prices): (texts: PerMarket<NumberInput>)
    ensures forall m :: texts.Get(m) == PrefillPrice(p.Get(m))
  {
    PerMarket(PrefillPrice(p.iquegami), PrefillPrice(p.proenca), PrefillPrice(p.max))
  }

  /**
    Fills the form from the catalog product found for a scanned barcode: its
    name, unit, category and prices, quantity 1, and the scanned barcode; the
    error is cleared.
  */
  function Prefill(f: FormState, product: Product, scanned: string): (r: FormState)
    ensures r.name == product.name && r.quantity == Some(1.0)
    ensures r.unit == product.unit && r.category == product.category
    ensures r.barcode == Some(scanned) && r.error == ""
    ensures forall m :: r.prices.Get(m) == PrefillPrice(product.prices.Get(m))
  {
    FormState(product.name, Some(1.0), product.unit, product.category, PrefillPrices(product.prices), Some(scanned), "")
  }

  /**
    Parsing the prefilled texts gives back the product's positive prices and 0
    in place of every other one, so the item keeps the product's cheapest price.
  */
  lemma PrefillRoundTrip(p: Prices)
    ensures forall m :: ParsePrices(PrefillPrices(p)).Get(m) == (if p.Get(m) > 0.0 then p.Get(m) else 0.0)
    ensures CheapestPrice(ParsePrices(PrefillPrices(p))) == CheapestPrice(p)
  {
    var q := ParsePrices(PrefillPrices(p));
    assert forall m :: q.Get(m) > 0.0 <==> p.Get(m) > 0.0;
    assert forall m :: q.Get(m) > 0.0 ==> q.Get(m) == p.Get(m);
    var c := CheapestPrice(p);
    if HasValidPrice(p) {
      ValidPriceAt(p);
      ValidPriceAt(q);
      var m :| p.Get(m) == c;
      assert q.Get(m) == c;
    } else {
      ValidPriceAt(p);
      ValidPriceAt(q);
    }
    CheapestPriceUnique(q, c);
  }

  /**
    Submitting a form prefilled from a product with a non-blank name emits one
    unit of the product with the scanned barcode and the product's positive
    prices, and empties the form.
  */
  lemma PrefillSubmits(f: FormState, product: Product, scanned: string)
    requires !IsBlank(product.name)
    ensures var o := HandleSubmit(Prefill(f, product, scanned));
      && o.form == DEFAULT_FORM
      && o.emitted.Some?
      && o.emitted.value.name == product.name && o.emitted.value.quantity == 1.0
      && o.emitted.value.unit == product.unit && o.emitted.value.category == product.category
      && o.emitted.value.barcode == Some(scanned)
      && CheapestPrice(o.emitted.value.prices) == CheapestPrice(product.prices)
  {
    PrefillRoundTrip(product.prices);
    var g := Prefill(f, product, scanned);
    assert ParsePrices(g.prices) == ParsePrices(PrefillPrices(product.prices));
  }
}
