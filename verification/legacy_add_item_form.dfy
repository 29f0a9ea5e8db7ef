/**
  The add-item form of the original single-page application: the same checks
  as the current form, with no barcode and no scanner.
*/
module LegacyAddItemForm {
  import opened Wrappers
  import opened Catalog
  import opened Model
  import opened Inputs
  import opened AddItemForm

  /** The legacy form's state: the current form's fields without the barcode. */
  datatype LegacyForm = LegacyForm(
    name: string,
    quantity: Option<real>,
    unit: Unit,
    category: string,
    prices: PerMarket<NumberInput>,
    error: string)

  /** The legacy form seen as a current form without a scanned barcode. */
  function AsForm(f: LegacyForm): (g: FormState)
    ensures g.barcode.None?
    ensures g.name == f.name && g.quantity == f.quantity && g.unit == f.unit
    ensures g.category == f.category && g.prices == f.prices && g.error == f.error
  {
    FormState(f.name, f.quantity, f.unit, f.category, f.prices, None, f.error)
  }

  /** The state after a successful submit: the defaults, with the error already cleared. */
  const LEGACY_DEFAULT: LegacyForm := LegacyForm("", Some(1.0), Un, CATEGORIES[0], Uniform(Empty), "")

  /** Typing into the quantity field stores what `parseFloat` reads; a blank field stores NaN. */
  function LegacyTypeQuantity(f: LegacyForm, input: NumberInput): (r: LegacyForm)
    ensures r.quantity == ParseFloat(input)
    ensures input == Empty ==> r.quantity.None?
    ensures r == f.(quantity := r.quantity)
  {
    f.(quantity := ParseFloat(input))
  }

  /** Typing into market `m`'s price field stores the text; the other fields keep theirs. */
  function LegacyTypePrice(f: LegacyForm, m: Market, input: NumberInput): (r: LegacyForm)
    ensures r.prices.Get(m) == input
    ensures forall n :: n != m ==> r.prices.Get(n) == f.prices.Get(n)
    ensures r == f.(prices := r.prices)
  {
    f.(prices := f.prices.With(m, input))
  }

  /**
    A blank quantity field gets past the legacy quantity check as written too:
    emptying the field stores `parseFloat('')`, which is NaN, and `NaN <= 0` is
    false. The corrected check refuses the same state with the quantity error.
  */
  lemma BlankQuantityPassesLegacy(f: LegacyForm)
    requires !IsBlank(f.name)
    ensures var g := LegacyTypeQuantity(f, Empty);
      && g.quantity.None?
      && !QuantityRejectedAsWritten(g.quantity)
      && LegacySubmit(g) == Err(QUANTITY_NOT_POSITIVE)
  {
  }

  /**
    Validates the legacy form, the name first: a blank name gives the name error;
    otherwise a quantity that is not a positive number gives the quantity error;
    otherwise the draft carries the name, quantity, unit and category as held,
    the parsed prices with 0 for a blank or unreadable field, and no barcode.
  */
  function LegacySubmit(f: LegacyForm): (r: Result<Draft, string>)
    ensures IsBlank(f.name) ==> r == Err(NAME_REQUIRED)
    ensures !IsBlank(f.name) && QuantityRejected(f.quantity) ==> r == Err(QUANTITY_NOT_POSITIVE)
    ensures r.Ok? <==> !IsBlank(f.name) && f.quantity.Some? && f.quantity.value > 0.0
    ensures r.Ok? ==>
      && r.value.name == f.name && Some(r.value.quantity) == f.quantity && r.value.quantity > 0.0
      && r.value.unit == f.unit && r.value.category == f.category && r.value.barcode.None?
      && forall m :: r.value.prices.Get(m) == OrZero(ParseFloat(f.prices.Get(m)))
  {
    if IsBlank(f.name) then Err(NAME_REQUIRED)
    else if QuantityRejected(f.quantity) then Err(QUANTITY_NOT_POSITIVE)
    else Ok(Draft(f.name, f.quantity.value, f.unit, f.category, ParsePrices(f.prices), None))
  }

  /** The legacy submit handler: an error keeps the fields; a success emits the draft and resets the fields. */
  function LegacyHandleSubmit(f: LegacyForm): (o: (LegacyForm, Option<Draft>))
    ensures LegacySubmit(f).Err? ==> o == (f.(error := LegacySubmit(f).error), None)
    ensures LegacySubmit(f).Ok? ==> o == (LEGACY_DEFAULT, Some(LegacySubmit(f).value))
  {
    match LegacySubmit(f)
    case Err(message) => (f.(error := message), None)
    case Ok(draft) => (LEGACY_DEFAULT, Some(draft))
  }

  /**
    The legacy form behaves as the current form with no barcode: the same
    verdict, the same draft, and the same state afterwards.
  */
  lemma LegacyAgreesWithCurrent(f: LegacyForm)
    ensures LegacySubmit(f) == Submit(AsForm(f))
    ensures HandleSubmit(AsForm(f)).form == AsForm(LegacyHandleSubmit(f).0)
    ensures HandleSubmit(AsForm(f)).emitted == LegacyHandleSubmit(f).1
  {
  }
}
