/** The pydantic field constraints of the product schemas: required and defaulted fields, maximum
    lengths and non-negative numbers. A model is built from keyword arguments; `Arg` tells a
    keyword that was left out (its default applies) from one that was given, possibly as None. */
module Schemas {
  import opened Common
  import opened Text
  import opened DataParser

  datatype Arg<T> = Absent | Given(value: T)

  const CodeLimit := 20
  const NameLimit := 500
  const ArticleLimit := 100
  const UnitLimit := 20
  const StatusLimit := 50
  const MainPropertyLimit := 200
  const OnlineNameLimit := 500
  const BarcodeLimit := 50

  // ---------------------------------------------------------------------------------------------
  // Field rules

  /** A `str` field declared with `Field(..., max_length=limit)`: required. */
  function RequiredStr(a: Arg<string>, limit: nat): (r: Option<string>)
    ensures r.Some? <==> a.Given? && |a.value| <= limit
    ensures r.Some? ==> r.value == a.value
  {
    match a
    case Absent => None
    case Given(s) => if |s| <= limit then Some(s) else None
  }

  /** A `str` field declared with `Field(default=d, max_length=limit)`. pydantic does not validate
      defaults, so the default is taken as it is. */
  function DefaultedStr(a: Arg<string>, default: string, limit: nat): (r: Option<string>)
    ensures a.Absent? ==> r == Some(default)
    ensures a.Given? ==> (r.Some? <==> |a.value| <= limit)
    ensures a.Given? && r.Some? ==> r.value == a.value
  {
    match a
    case Absent => Some(default)
    case Given(s) => if |s| <= limit then Some(s) else None
  }

  /** A `str | None` field declared with `Field(None, max_length=limit)`: absent or None gives None;
      only a present string is bounded. The outer Option is the verdict, the inner one the value. */
  function NullableStr(a: Arg<Option<string>>, limit: nat): (r: Option<Option<string>>)
    ensures r.None? <==> a.Given? && a.value.Some? && |a.value.value| > limit
    ensures r.Some? && (a.Absent? || a.value.None?) ==> r.value.None?
    ensures r.Some? && a.Given? ==> r.value == a.value
  {
    match a
    case Absent => Some(None)
    case Given(None) => Some(None)
    case Given(Some(s)) => if |s| <= limit then Some(Some(s)) else None
  }

  /** A decimal below zero. */
  predicate Negative(d: Option<Dec>) {
    d.Some? && d.value.mantissa < 0
  }

  /** A `Decimal | None` field declared with `Field(None, ge=0)`. */
  function NonNegativeDecimal(a: Arg<Option<Dec>>): (r: Option<Option<Dec>>)
    ensures r.None? <==> a.Given? && Negative(a.value)
    ensures r.Some? ==> r.value == (if a.Absent? then None else a.value)
    ensures r.Some? && r.value.Some? ==> r.value.value.mantissa >= 0
  {
    match a
    case Absent => Some(None)
    case Given(d) => if Negative(d) then None else Some(d)
  }

  /** A `bool` field with default False. */
  function DefaultedFlag(a: Arg<bool>): (r: bool)
    ensures a.Absent? ==> !r
    ensures a.Given? ==> r == a.value
  {
    match a
    case Absent => false
    case Given(b) => b
  }

  /** An `int` field declared with `Field(default=0, ge=0)`. An explicit None is not an int and fails. */
  function NonNegativeCount(a: Arg<Option<int>>): (r: Option<nat>)
    ensures a.Absent? ==> r == Some(0)
    ensures a.Given? ==> (r.Some? <==> a.value.Some? && a.value.value >= 0)
    ensures a.Given? && r.Some? ==> r.value == a.value.value
  {
    match a
    case Absent => Some(0)
    case Given(None) => None
    case Given(Some(n)) => if n >= 0 then Some(n) else None
  }

  // ---------------------------------------------------------------------------------------------
  // ProductBase

  /** The bounds of `ProductBase` on a fully given product. */
  predicate ValidProduct(p: ProductFields) {
    && |p.code| <= CodeLimit && |p.name| <= NameLimit && |p.fullName| <= NameLimit
    && (p.article.Some? ==> |p.article.value| <= ArticleLimit)
    && |p.baseUnit| <= UnitLimit && |p.mainUnit| <= UnitLimit && |p.status| <= StatusLimit
  }

  /** `ProductBase(**kwargs)`: code, name and full name are required; the article may be None; units
      and status fall back to "шт" and "Активный". */
  function ValidateProduct(
    code: Arg<string>, name: Arg<string>, article: Arg<Option<string>>, baseUnit: Arg<string>,
    mainUnit: Arg<string>, fullName: Arg<string>, status: Arg<string>): (r: Option<ProductFields>)
    ensures r.Some? <==>
      && code.Given? && |code.value| <= CodeLimit
      && name.Given? && |name.value| <= NameLimit
      && fullName.Given? && |fullName.value| <= NameLimit
      && (article.Given? && article.value.Some? ==> |article.value.value| <= ArticleLimit)
      && (baseUnit.Given? ==> |baseUnit.value| <= UnitLimit)
      && (mainUnit.Given? ==> |mainUnit.value| <= UnitLimit)
      && (status.Given? ==> |status.value| <= StatusLimit)
    ensures r.Some? ==>
      && r.value.code == code.value && r.value.name == name.value && r.value.fullName == fullName.value
      && r.value.article == (if article.Absent? then None else article.value)
      && r.value.baseUnit == (if baseUnit.Absent? then DefaultUnit else baseUnit.value)
      && r.value.mainUnit == (if mainUnit.Absent? then DefaultUnit else mainUnit.value)
      && r.value.status == (if status.Absent? then DefaultStatus else status.value)
  {
    var c := RequiredStr(code, CodeLimit);
    var n := RequiredStr(name, NameLimit);
    var a := NullableStr(article, ArticleLimit);
    var b := DefaultedStr(baseUnit, DefaultUnit, UnitLimit);
    var m := DefaultedStr(mainUnit, DefaultUnit, UnitLimit);
    var f := RequiredStr(fullName, NameLimit);
    var s := DefaultedStr(status, DefaultStatus, StatusLimit);
    if c.Some? && n.Some? && a.Some? && b.Some? && m.Some? && f.Some? && s.Some? then
      Some(ProductFields(c.value, n.value, a.value, b.value, m.value, f.value, s.value))
    else None
  }

  /** A product given in full is accepted unchanged exactly when it is within the bounds. */
  lemma ProductAcceptedIffValid(p: ProductFields)
    ensures var r := ValidateProduct(Given(p.code), Given(p.name), Given(p.article), Given(p.baseUnit),
                                     Given(p.mainUnit), Given(p.fullName), Given(p.status));
            && (r.Some? <==> ValidProduct(p))
            && (r.Some? ==> r.value == p)
  {
  }

  // ---------------------------------------------------------------------------------------------
  // Description, online information, barcode

  /** `ProductDescriptionBase`: the comment is unbounded, the main property at most 200 characters. */
  function ValidateDescription(comment: Arg<Option<string>>, mainProperty: Arg<Option<string>>)
    : (r: Option<DescriptionFields>)
    ensures r.Some? <==> !(mainProperty.Given? && mainProperty.value.Some?
                           && |mainProperty.value.value| > MainPropertyLimit)
    ensures r.Some? ==> r.value.comment == (if comment.Absent? then None else comment.value)
    ensures r.Some? ==> r.value.mainProperty == (if mainProperty.Absent? then None else mainProperty.value)
  {
    var m := NullableStr(mainProperty, MainPropertyLimit);
    if m.None? then None
    else Some(DescriptionFields(if comment.Absent? then None else comment.value, m.value))
  }

  /** `ProductOnlineBase`: both flags default to false; the storefront name is at most 500 characters. */
  function ValidateOnline(toStore: Arg<bool>, onlineName: Arg<Option<string>>, blockDiscount: Arg<bool>)
    : (r: Option<OnlineFields>)
    ensures r.Some? <==> !(onlineName.Given? && onlineName.value.Some?
                           && |onlineName.value.value| > OnlineNameLimit)
    ensures r.Some? ==> (toStore.Absent? ==> !r.value.exportToOnlineStore)
                        && (blockDiscount.Absent? ==> !r.value.blockDiscount)
    ensures r.Some? && toStore.Given? ==> r.value.exportToOnlineStore == toStore.value
    ensures r.Some? && blockDiscount.Given? ==> r.value.blockDiscount == blockDiscount.value
    ensures r.Some? ==> r.value.onlineStoreName == (if onlineName.Absent? then None else onlineName.value)
  {
    var n := NullableStr(onlineName, OnlineNameLimit);
    if n.None? then None
    else Some(OnlineFields(DefaultedFlag(toStore), n.value, DefaultedFlag(blockDiscount)))
  }

  /** `ProductBarcodeBase`: the barcode is required and at most 50 characters. */
  function ValidateBarcode(barcode: Arg<string>): (r: Option<string>)
    ensures r.Some? <==> barcode.Given? && |barcode.value| <= BarcodeLimit
    ensures r.Some? ==> r.value == barcode.value
  {
    RequiredStr(barcode, BarcodeLimit)
  }

  // ---------------------------------------------------------------------------------------------
  // Prices

  datatype PriceTiers = PriceTiers(
    optCard: Option<Dec>, optCardPlus: Option<Dec>, opt: Option<Dec>, retail: Option<Dec>,
    gold: Option<Dec>, platinum: Option<Dec>)

  /** What `ProductPricesBase` keeps: the code and the six tiers, nothing else. */
  datatype PriceRecord = PriceRecord(productCode: string, tiers: PriceTiers)

  predicate SomeTierNegative(t: PriceTiers) {
    Negative(t.optCard) || Negative(t.optCardPlus) || Negative(t.opt) || Negative(t.retail)
    || Negative(t.gold) || Negative(t.platinum)
  }

  /** `ProductPricesBase(**kwargs)`: a required code of at most 20 characters and six optional
      non-negative tiers. */
  function ValidatePrices(
    code: Arg<string>, optCard: Arg<Option<Dec>>, optCardPlus: Arg<Option<Dec>>, opt: Arg<Option<Dec>>,
    retail: Arg<Option<Dec>>, gold: Arg<Option<Dec>>, platinum: Arg<Option<Dec>>): (r: Option<PriceRecord>)
    ensures r.Some? <==>
      && code.Given? && |code.value| <= CodeLimit
      && !(optCard.Given? && Negative(optCard.value)) && !(optCardPlus.Given? && Negative(optCardPlus.value))
      && !(opt.Given? && Negative(opt.value)) && !(retail.Given? && Negative(retail.value))
      && !(gold.Given? && Negative(gold.value)) && !(platinum.Given? && Negative(platinum.value))
    ensures r.Some? ==> r.value.productCode == code.value && !SomeTierNegative(r.value.tiers)
    // every tier is kept as given; an omitted tier is None
    ensures r.Some? ==> r.value.tiers == PriceTiers(
              if optCard.Absent? then None else optCard.value, if optCardPlus.Absent? then None else optCardPlus.value,
              if opt.Absent? then None else opt.value, if retail.Absent? then None else retail.value,
              if gold.Absent? then None else gold.value, if platinum.Absent? then None else platinum.value)
  {
    var c := RequiredStr(code, CodeLimit);
    var t1 := NonNegativeDecimal(optCard);
    var t2 := NonNegativeDecimal(optCardPlus);
    var t3 := NonNegativeDecimal(opt);
    var t4 := NonNegativeDecimal(retail);
    var t5 := NonNegativeDecimal(gold);
    var t6 := NonNegativeDecimal(platinum);
    if c.Some? && t1.Some? && t2.Some? && t3.Some? && t4.Some? && t5.Some? && t6.Some? then
      Some(PriceRecord(c.value, PriceTiers(t1.value, t2.value, t3.value, t4.value, t5.value, t6.value)))
    else None
  }

  /** The tiers of a price row, as parsed. */
  function TiersOf(p: PricePayload): PriceTiers {
    PriceTiers(p.optCard, p.optCardPlus, p.opt, p.retail, p.gold, p.platinum)
  }

  /** `ProductPricesBase(**parse_price_data(row))`. Every key of the payload is passed, so every tier
      is given (possibly as None); `quantity` and `max_purchase` are undeclared and ignored. */
  function ValidatePricePayload(p: PricePayload): (r: Option<PriceRecord>)
    ensures r.None? <==> |p.productCode| > CodeLimit || SomeTierNegative(TiersOf(p))
    ensures r.Some? ==> r.value == PriceRecord(p.productCode, TiersOf(p))
  {
    ValidatePrices(Given(p.productCode), Given(p.optCard), Given(p.optCardPlus), Given(p.opt),
                   Given(p.retail), Given(p.gold), Given(p.platinum))
  }

  /** The stock hints of a price row do not reach the validated price record. */
  lemma PriceHintsIgnored(p: PricePayload, quantity: Option<int>, maxPurchase: Option<Dec>)
    ensures ValidatePricePayload(p.(quantity := quantity, maxPurchase := maxPurchase)) == ValidatePricePayload(p)
  {
  }

  /** A negative number in a price column of a row makes the whole row fail validation. */
  lemma NegativeRetailRejected(row: Row, u: string)
    requires Get(row, RetailColumn) == Some("-" + u)
    requires |u| > 0 && NoSpecialChars(u) && UnsignedDecimal(u).Some? && UnsignedDecimal(u).value.mantissa > 0
    ensures ValidatePricePayload(ParsePriceData(row)).None?
  {
    NegatedDecimal(u);
    assert Negative(ParsePriceData(row).retail);
  }

  // ---------------------------------------------------------------------------------------------
  // Stock

  /** What `ProductStockBase` keeps. */
  datatype StockRecord = StockRecord(productCode: string, quantity: nat, maxPurchase: Option<Dec>)

  /** `ProductStockBase(**kwargs)`: a required code of at most 20 characters, a quantity that defaults
      to 0 and is never negative, and an optional non-negative maximum purchase. */
  function ValidateStock(code: Arg<string>, quantity: Arg<Option<int>>, maxPurchase: Arg<Option<Dec>>)
    : (r: Option<StockRecord>)
    ensures r.Some? <==>
      && code.Given? && |code.value| <= CodeLimit
      && (quantity.Given? ==> quantity.value.Some? && quantity.value.value >= 0)
      && !(maxPurchase.Given? && Negative(maxPurchase.value))
    ensures r.Some? ==> r.value.productCode == code.value
    ensures r.Some? ==> r.value.quantity == (if quantity.Absent? then 0 else quantity.value.value)
    ensures r.Some? ==> r.value.maxPurchase == (if maxPurchase.Absent? then None else maxPurchase.value)
  {
    var c := RequiredStr(code, CodeLimit);
    var q := NonNegativeCount(quantity);
    var m := NonNegativeDecimal(maxPurchase);
    if c.Some? && q.Some? && m.Some? then Some(StockRecord(c.value, q.value, m.value)) else None
  }

  /** `ProductStockBase(**parse_price_data(row))`: the code, quantity and maximum purchase are given,
      the six tiers ignored. */
  function ValidateStockPayload(p: PricePayload): (r: Option<StockRecord>)
    ensures r.None? <==> |p.productCode| > CodeLimit || p.quantity.None? || p.quantity.value < 0
                         || Negative(p.maxPurchase)
    ensures r.Some? ==> r.value == StockRecord(p.productCode, p.quantity.value, p.maxPurchase)
  {
    ValidateStock(Given(p.productCode), Given(p.quantity), Given(p.maxPurchase))
  }

  /** A price row without a usable quantity (column missing, or blank) passes None for an `int`
      field, so it fails stock validation. */
  lemma MissingQuantityRejected(row: Row)
    requires Get(row, QuantityOnHandColumn).None? || AllSpace(Get(row, QuantityOnHandColumn).value)
    ensures ValidateStockPayload(ParsePriceData(row)).None?
  {
    var v := Get(row, QuantityOnHandColumn);
    if v.Some? {
      NoDigitsInSpace(v.value);
    }
  }

  // ---------------------------------------------------------------------------------------------
  // ProductUpdate

  datatype UpdateFields = UpdateFields(
    name: Option<string>, article: Option<string>, baseUnit: Option<string>, mainUnit: Option<string>,
    fullName: Option<string>, status: Option<string>)

  /** A `str | None` keyword that its `max_length` accepts. */
  predicate Fits(a: Arg<Option<string>>, limit: nat) {
    !(a.Given? && a.value.Some? && |a.value.value| > limit)
  }

  /** The value a `str | None = None` keyword stands for. */
  function ValueOr(a: Arg<Option<string>>): Option<string> {
    if a.Absent? then None else a.value
  }

  /** `ProductUpdate(**kwargs)`: every field is optional and None by default, with the bounds of
      `ProductBase`. */
  function ValidateUpdate(
    name: Arg<Option<string>>, article: Arg<Option<string>>, baseUnit: Arg<Option<string>>,
    mainUnit: Arg<Option<string>>, fullName: Arg<Option<string>>, status: Arg<Option<string>>)
    : (r: Option<UpdateFields>)
    ensures r.Some? <==> Fits(name, NameLimit) && Fits(article, ArticleLimit) && Fits(baseUnit, UnitLimit)
                         && Fits(mainUnit, UnitLimit) && Fits(fullName, NameLimit) && Fits(status, StatusLimit)
    ensures r.Some? ==> r.value == UpdateFields(ValueOr(name), ValueOr(article), ValueOr(baseUnit),
                                                ValueOr(mainUnit), ValueOr(fullName), ValueOr(status))
    ensures (name.Absent? && article.Absent? && baseUnit.Absent? && mainUnit.Absent? && fullName.Absent?
             && status.Absent?) ==> r == Some(UpdateFields(None, None, None, None, None, None))
  {
    var n := NullableStr(name, NameLimit);
    var a := NullableStr(article, ArticleLimit);
    var b := NullableStr(baseUnit, UnitLimit);
    var m := NullableStr(mainUnit, UnitLimit);
    var f := NullableStr(fullName, NameLimit);
    var s := NullableStr(status, StatusLimit);
    if n.Some? && a.Some? && b.Some? && m.Some? && f.Some? && s.Some? then
      Some(UpdateFields(n.value, a.value, b.value, m.value, f.value, s.value))
    else None
  }

  /** An update carrying every field of a product (an update has no code) is accepted exactly when
      that product, with any code within its bound, satisfies `ProductBase`. */
  lemma UpdateBoundsMatchProduct(p: ProductFields)
    ensures var r := ValidateUpdate(Given(Some(p.name)), Given(p.article), Given(Some(p.baseUnit)),
                                    Given(Some(p.mainUnit)), Given(Some(p.fullName)), Given(Some(p.status)));
            r.Some? <==> ValidProduct(p.(code := ""))
  {
  }
}
