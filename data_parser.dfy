/** The field parser and the three record mappers of `DataParser`
    (src/utils/parsing_data/data_parser.py): total functions from raw CSV text to typed payloads. */
module DataParser {
  import opened Common
  import opened Text

  // ---------------------------------------------------------------------------------------------
  // Column names of the vendor's exports, matched literally (some contain a newline).

  const CodeColumn := "Код"
  const NameColumn := "Наименование"
  const ArticleColumn := "Артикул"
  const BaseUnitColumn := "Базовая единица измерения"
  const MainUnitColumn := "Основная единица измерения"
  const FullNameColumn := "Полное наименование"
  const StatusColumn := "Статус товара"
  const CommentColumn := "Комментарий"
  const MainPropertyColumn := "Основное свойство"
  const ExportColumn := "ВыгружатьВИнтернетМагазин"
  const OnlineNameColumn := "НаименованиеИМ"
  const BlockDiscountColumn := "Блокировать скидку по карте"
  const LengthColumn := "Длинна"
  const WidthColumn := "Ширина"
  const HeightColumn := "Высота"
  const VolumeColumn := "Объем"
  const BarcodesColumn := "Штрихкоды номенклатуры"

  const PriceCodeColumn := "Код\nноменклатуры"
  const QuantityOnHandColumn := "Кол-во\nна складах"
  const MaxPurchaseColumn := "Макс.\nзакупка"
  const OptCardColumn := "Опт Карта Рубин"
  const OptCardPlusColumn := "Опт Карта Рубин +"
  const OptColumn := "Оптовая цена"
  const RetailColumn := "Розничная цена"
  const GoldColumn := "gold"
  const PlatinumColumn := "platinum"

  const QuantityColumn := "Количество"
  const WarehouseColumn := "Склад"

  /** The unit and status a product gets when its file has no such column. */
  const DefaultUnit := "шт"
  const DefaultStatus := "Активный"

  // ---------------------------------------------------------------------------------------------
  // Strings and booleans

  /** `_clean_str`: None becomes "", anything else loses its surrounding whitespace. */
  function CleanStr(v: Option<string>): (r: string)
    ensures v.None? ==> r == ""
    ensures Unpadded(r)
    ensures v.Some? ==> exists a, b :: AllSpace(a) && AllSpace(b) && v.value == a + r + b
  {
    match v
    case None => ""
    case Some(s) => StripSplits(s); Strip(s)
  }

  lemma CleanStrIdempotent(v: Option<string>)
    ensures CleanStr(Some(CleanStr(v))) == CleanStr(v)
  {
    StripPadded("", CleanStr(v), "");
    assert "" + CleanStr(v) + "" == CleanStr(v);
  }

  /** The affirmative vocabulary of `_parse_bool`. */
  const AffirmativeWords: seq<string> := ["1", "true", "yes", "y", "да"]

  /** `_parse_bool`: true exactly for an affirmative word, ignoring case and surrounding whitespace. */
  function ParseBool(v: Option<string>): (r: bool)
    ensures v.None? ==> !r
    ensures v.Some? ==> (r <==> exists w :: w in AffirmativeWords && EqualIgnoringCase(Strip(v.value), w))
  {
    match v
    case None => false
    case Some(s) =>
      var t := Strip(s);
      LowerMatchesWord(t);
      Lower(t) in AffirmativeWords
  }

  lemma LowerMatchesWord(t: string)
    ensures Lower(t) in AffirmativeWords <==> exists w :: w in AffirmativeWords && EqualIgnoringCase(t, w)
  {
    forall w | w in AffirmativeWords
      ensures Lower(t) == w <==> EqualIgnoringCase(t, w)
    {
      assert forall i :: 0 <= i < |w| ==> LowerChar(w[i]) == w[i];
      if EqualIgnoringCase(t, w) {
        assert Lower(t) == w;
      }
    }
  }

  /** Whitespace around a boolean cell and the case of its letters do not change its value. */
  lemma ParseBoolIgnoresPaddingAndCase(a: string, m: string, m': string, b: string)
    requires AllSpace(a) && AllSpace(b) && Unpadded(m) && Unpadded(m')
    requires EqualIgnoringCase(m, m')
    ensures ParseBool(Some(a + m + b)) == ParseBool(Some(m'))
  {
    calc {
      ParseBool(Some(a + m + b));
      Lower(Strip(a + m + b)) in AffirmativeWords;
      { StripPadded(a, m, b); }
      Lower(m) in AffirmativeWords;
      { assert Lower(m) == Lower(m'); }
      Lower(m') in AffirmativeWords;
      { StripPadded("", m', ""); assert "" + m' + "" == m'; }
      Lower(Strip(m')) in AffirmativeWords;
      ParseBool(Some(m'));
    }
  }

  // ---------------------------------------------------------------------------------------------
  // Integers

  /** Text Python's `int` accepts once only digits and minus signs remain. */
  predicate IsIntText(t: string) {
    IsDigits(t) || (|t| > 0 && t[0] == '-' && IsDigits(t[1..]))
  }

  function IntTextValue(t: string): int
    requires IsIntText(t)
  {
    if t[0] == '-' then 0 - DigitsValue(t[1..]) as int else DigitsValue(t)
  }

  /** `_parse_int`: every character but digits and `-` is deleted, and what remains must be an
      optional leading minus followed by digits. */
  function ParseInt(v: Option<string>): (r: Option<int>)
    ensures v.None? || v == Some("") ==> r.None?
    ensures v.Some? ==> (r.Some? <==> IsIntText(KeepDigitsAndMinus(v.value)))
    ensures r.Some? ==> v.Some? && r.value == IntTextValue(KeepDigitsAndMinus(v.value))
  {
    match v
    case None => None
    case Some(s) =>
      if s == "" then None
      else
        var cleaned := KeepDigitsAndMinus(s);
        if cleaned == "" then None
        else if IsIntText(cleaned) then Some(IntTextValue(cleaned))
        else None
  }

  /** Python's `str` on an int. */
  function IntToText(n: int): (t: string)
    ensures IsIntText(t)
  {
    if n < 0 then "-" + NatToDigits(-n) else NatToDigits(n)
  }

  lemma {:induction false} KeepDigitsAndMinusOfDigits(s: string)
    requires AllDigits(s)
    ensures KeepDigitsAndMinus(s) == s
  {
    if |s| > 0 {
      KeepDigitsAndMinusOfDigits(s[1..]);
    }
  }

  /** Printing an int and parsing it back gives the int. */
  lemma IntRoundTrip(n: int)
    ensures ParseInt(Some(IntToText(n))) == Some(n)
  {
    if n < 0 {
      NegativeIntRoundTrip(-n);
    } else {
      KeepDigitsAndMinusOfDigits(NatToDigits(n));
      DigitsRoundTrip(n);
    }
  }

  lemma NegativeIntRoundTrip(m: nat)
    requires m > 0
    ensures ParseInt(Some("-" + NatToDigits(m))) == Some(0 - m)
  {
    var digits := NatToDigits(m);
    var t := "-" + digits;
    assert KeepDigitsAndMinus(t) == t by {
      KeepDigitsAndMinusOfDigits(digits);
      KeepDigitsAndMinusConcat("-", digits);
    }
    assert t[1..] == digits;
    DigitsRoundTrip(m);
  }

  /** Only a cell's digits and minus signs matter: deleting the other characters first changes nothing. */
  lemma ParseIntSeesOnlyDigitsAndMinus(s: string)
    ensures ParseInt(Some(s)) == ParseInt(Some(KeepDigitsAndMinus(s)))
  {
    KeepDigitsAndMinusIdempotent(s);
  }

  /** A thousands separator vanishes. */
  lemma ParseIntThousands()
    ensures ParseInt(Some("1 000")) == Some(1000)
  {
    assert KeepDigitsAndMinus("1 000") == "1000";
    DigitsOfThousand();
  }

  lemma DigitsOfThousand()
    ensures IsDigits("1000") && DigitsValue("1000") == 1000
  {
    assert "1000"[..3] == "100" && "100"[..2] == "10" && "10"[..1] == "1";
  }

  /** A decimal point is deleted rather than honoured. */
  lemma ParseIntDropsPoint()
    ensures ParseInt(Some("12.5")) == Some(125)
  {
    assert KeepDigitsAndMinus("12.5") == "125";
    assert DigitsValue("125") == 125 by {
      assert "125"[..2] == "12" && "12"[..1] == "1";
    }
  }

  /** A minus sign anywhere but in front makes the cell unparseable; so does a lone minus. */
  lemma ParseIntMisplacedMinus()
    ensures ParseInt(Some("5-")) == None
    ensures ParseInt(Some("-")) == None
  {
    assert KeepDigitsAndMinus("5-") == "5-";
    assert !IsDigits("5-") by { assert !IsDigit("5-"[1]); }
    assert KeepDigitsAndMinus("-") == "-";
  }

  /** A leading minus and leading zeros are honoured. */
  lemma ParseIntNegative()
    ensures ParseInt(Some("-07")) == Some(-7)
  {
    assert KeepDigitsAndMinus("-07") == "-07";
    assert "-07"[1..] == "07";
    assert DigitsValue("07") == 7 by { assert "07"[..1] == "0"; }
  }

  /** Text without digits is no number. */
  lemma ParseIntNoDigits()
    ensures ParseInt(Some("abc")) == None
  {
    assert KeepDigitsAndMinus("abc") == "";
  }

  // ---------------------------------------------------------------------------------------------
  // Decimals

  /** A Python `Decimal`: the value `mantissa / 10^scale`, keeping the number of fraction digits. */
  datatype Dec = Dec(mantissa: int, scale: nat)

  /** The index of the first `c` in `s`, or `|s|`. */
  function IndexOf(s: string, c: char): (k: nat)
    ensures k <= |s|
    ensures k < |s| ==> s[k] == c
    ensures forall i :: 0 <= i < k ==> s[i] != c
  {
    if |s| == 0 then 0
    else if s[0] == c then 0
    else 1 + IndexOf(s[1..], c)
  }

  /** `Decimal(t)` for text without sign: digits with at most one point and at least one digit. */
  function UnsignedDecimal(t: string): (r: Option<Dec>)
  {
    var k := IndexOf(t, '.');
    if k == |t| then
      if IsDigits(t) then Some(Dec(DigitsValue(t), 0)) else None
    else
      var whole, fraction := t[..k], t[k + 1..];
      if AllDigits(whole) && AllDigits(fraction) && |whole| + |fraction| > 0 then
        Some(Dec(DigitsValue(whole + fraction), |fraction|))
      else None
  }

  /** `Decimal(t)` for finite text without exponent: an optional sign, then an unsigned decimal. */
  function DecimalText(t: string): (r: Option<Dec>)
  {
    if |t| > 0 && (t[0] == '-' || t[0] == '+') then
      match UnsignedDecimal(t[1..])
      case None => None
      case Some(d) => Some(if t[0] == '-' then Dec(-d.mantissa, d.scale) else d)
    else UnsignedDecimal(t)
  }

  /** The normalisation of `_parse_decimal`: every comma becomes a point and every space is deleted. */
  function NormalizeSeparators(s: string): (r: string)
    ensures !Contains(r, ' ') && !Contains(r, ',')
  {
    var dotted := ReplaceChar(s, ',', '.');
    var r := RemoveChar(dotted, ' ');
    NoCommaSurvives(dotted);
    r
  }

  lemma {:induction false} NoCommaSurvives(s: string)
    requires !Contains(s, ',')
    ensures !Contains(RemoveChar(s, ' '), ',')
  {
    if |s| > 0 {
      assert !Contains(s[1..], ',') by {
        forall i | 0 <= i < |s[1..]| ensures s[1..][i] != ',' { assert s[1..][i] == s[i + 1]; }
      }
      NoCommaSurvives(s[1..]);
      var t := RemoveChar(s[1..], ' ');
      if s[0] != ' ' {
        forall i | 0 <= i < |[s[0]] + t| ensures ([s[0]] + t)[i] != ',' {
          if i > 0 { assert ([s[0]] + t)[i] == t[i - 1]; }
        }
      }
    }
  }

  /** `_parse_decimal` on text in `[sign]digits[.digits]` form; an exponent is not modelled. */
  function ParseDecimal(v: Option<string>): (r: Option<Dec>)
    ensures v.None? || v == Some("") ==> r.None?
  {
    match v
    case None => None
    case Some(s) =>
      if s == "" then None
      else
        var t := NormalizeSeparators(Strip(s));
        if Contains(t, 'e') || Contains(t, 'E') then None else DecimalText(t)
  }

  /** What `_parse_decimal` makes of already cleaned text. */
  function DecimalOfNormalized(t: string): Option<Dec> {
    if Contains(t, 'e') || Contains(t, 'E') then None else DecimalText(t)
  }

  lemma ParseDecimalOfCleaned(s: string)
    ensures ParseDecimal(Some(s)) == DecimalOfNormalized(NormalizeSeparators(Strip(s)))
  {
    if s == "" {
      assert NormalizeSeparators(Strip("")) == "";
      assert IndexOf("", '.') == 0;
    }
  }

  lemma {:induction false} RemoveSpaceKeepsAllSpace(s: string)
    requires AllSpace(s)
    ensures AllSpace(RemoveChar(s, ' '))
  {
    if |s| > 0 {
      RemoveSpaceKeepsAllSpace(s[1..]);
    }
  }

  lemma ReplaceCharConcat(a: string, b: string, x: char, y: char)
    ensures ReplaceChar(a + b, x, y) == ReplaceChar(a, x, y) + ReplaceChar(b, x, y)
  {
  }

  lemma NormalizeConcat(a: string, b: string)
    ensures NormalizeSeparators(a + b) == NormalizeSeparators(a) + NormalizeSeparators(b)
  {
    ReplaceCharConcat(a, b, ',', '.');
    RemoveCharConcat(ReplaceChar(a, ',', '.'), ReplaceChar(b, ',', '.'), ' ');
  }

  lemma NormalizeKeepsUnpadded(m: string)
    requires Unpadded(m)
    ensures Unpadded(NormalizeSeparators(m))
  {
    if |m| > 0 {
      var n := |m|;
      if n == 1 {
        assert NormalizeSeparators(m) == ReplaceChar(m, ',', '.');
      } else {
        var mid := m[1..n - 1];
        assert m == [m[0]] + mid + [m[n - 1]];
        NormalizeConcat([m[0]] + mid, [m[n - 1]]);
        NormalizeConcat([m[0]], mid);
        assert NormalizeSeparators([m[0]]) == ReplaceChar([m[0]], ',', '.');
        assert NormalizeSeparators([m[n - 1]]) == ReplaceChar([m[n - 1]], ',', '.');
      }
    }
  }

  /** Normalising and stripping can be done in either order. */
  lemma PaddingStaysPadding(a: string)
    requires AllSpace(a)
    ensures AllSpace(NormalizeSeparators(a))
  {
    var dotted := ReplaceChar(a, ',', '.');
    assert AllSpace(dotted);
    RemoveSpaceKeepsAllSpace(dotted);
  }

  lemma NormalizeConcat3(a: string, m: string, b: string)
    ensures NormalizeSeparators(a + m + b)
            == NormalizeSeparators(a) + NormalizeSeparators(m) + NormalizeSeparators(b)
  {
    NormalizeConcat(a + m, b);
    NormalizeConcat(a, m);
  }

  /** Normalising and stripping can be done in either order. */
  lemma NormalizeStripCommute(u: string)
    ensures NormalizeSeparators(Strip(u)) == Strip(NormalizeSeparators(u))
  {
    StripSplits(u);
    var a, b :| AllSpace(a) && AllSpace(b) && u == a + Strip(u) + b;
    var m := Strip(u);
    NormalizeConcat3(a, m, b);
    PaddingStaysPadding(a);
    PaddingStaysPadding(b);
    NormalizeKeepsUnpadded(m);
    StripPadded(NormalizeSeparators(a), NormalizeSeparators(m), NormalizeSeparators(b));
  }

  lemma NormalizeIdempotent(s: string)
    ensures NormalizeSeparators(NormalizeSeparators(s)) == NormalizeSeparators(s)
  {
    var t := NormalizeSeparators(s);
    assert ReplaceChar(t, ',', '.') == t;
    RemoveCharAbsent(t, ' ');
  }

  /** `"4 500,00"` and `"4500.00"` are the same number: a decimal cell is read as its
      dot-separated, space-free form. */
  lemma ParseDecimalNormalForm(s: string)
    ensures ParseDecimal(Some(s)) == ParseDecimal(Some(NormalizeSeparators(s)))
  {
    var n := NormalizeSeparators(s);
    ParseDecimalOfCleaned(s);
    ParseDecimalOfCleaned(n);
    NormalizeStripCommute(s);
    NormalizeStripCommute(n);
    NormalizeIdempotent(s);
  }

  /** A space anywhere in a decimal cell is ignored. */
  lemma SpaceIgnored(a: string, b: string)
    ensures ParseDecimal(Some(a + " " + b)) == ParseDecimal(Some(a + b))
  {
    calc {
      ParseDecimal(Some(a + " " + b));
      { ParseDecimalNormalForm(a + " " + b); }
      ParseDecimal(Some(NormalizeSeparators(a + " " + b)));
      { NormalizeConcat3(a, " ", b);
        NormalizeConcat(a, b);
        assert NormalizeSeparators(" ") == "";
        assert NormalizeSeparators(a) + "" + NormalizeSeparators(b)
               == NormalizeSeparators(a) + NormalizeSeparators(b); }
      ParseDecimal(Some(NormalizeSeparators(a + b)));
      { ParseDecimalNormalForm(a + b); }
      ParseDecimal(Some(a + b));
    }
  }

  /** A comma in a decimal cell reads as a decimal point. */
  lemma CommaIsPoint(a: string, b: string)
    ensures ParseDecimal(Some(a + "," + b)) == ParseDecimal(Some(a + "." + b))
  {
    calc {
      ParseDecimal(Some(a + "," + b));
      { ParseDecimalNormalForm(a + "," + b); }
      ParseDecimal(Some(NormalizeSeparators(a + "," + b)));
      { NormalizeConcat3(a, ",", b);
        NormalizeConcat3(a, ".", b);
        assert NormalizeSeparators(",") == "." == NormalizeSeparators("."); }
      ParseDecimal(Some(NormalizeSeparators(a + "." + b)));
      { ParseDecimalNormalForm(a + "." + b); }
      ParseDecimal(Some(a + "." + b));
    }
  }

  lemma PointedIsPlain(w: string, f: string)
    requires IsDigits(w) && AllDigits(f)
    ensures NoSpecialChars(w + "." + f) && (w + "." + f)[0] == w[0]
  {
    var t := w + "." + f;
    forall i | 0 <= i < |t| ensures IsDigit(t[i]) || t[i] == '.' || t[i] == '-' {
      if i < |w| { assert t[i] == w[i]; } else if i > |w| { assert t[i] == f[i - |w| - 1]; }
    }
  }

  /** Digits around one point: the scale is the number of digits after it. */
  lemma PointedDecimal(w: string, f: string)
    requires IsDigits(w) && AllDigits(f)
    ensures ParseDecimal(Some(w + "." + f)) == Some(Dec(DigitsValue(w + f), |f|))
  {
    PointedIsPlain(w, f);
    PlainTextIsClean(w + "." + f);
    UnsignedOfPointed(w, f);
  }

  /** A minus sign in front of plain text negates the mantissa and keeps the scale. */
  lemma NegatedDecimal(u: string)
    requires |u| > 0 && NoSpecialChars(u) && UnsignedDecimal(u).Some?
    ensures ParseDecimal(Some("-" + u))
            == Some(Dec(0 - UnsignedDecimal(u).value.mantissa, UnsignedDecimal(u).value.scale))
  {
    NegatedIsPlain(u);
    PlainTextIsClean("-" + u);
    assert ("-" + u)[1..] == u;
  }

  lemma NegatedIsPlain(u: string)
    requires NoSpecialChars(u)
    ensures NoSpecialChars("-" + u)
  {
    var t := "-" + u;
    forall i | 0 <= i < |t| ensures IsDigit(t[i]) || t[i] == '.' || t[i] == '-' {
      if i > 0 { assert t[i] == u[i - 1]; }
    }
  }

  /** In digits, a point, then anything, the first point is the one after the digits. */
  lemma FirstPointAfterDigits(w: string, f: string)
    requires AllDigits(w)
    ensures IndexOf(w + "." + f, '.') == |w|
  {
    var t := w + "." + f;
    assert t[|w|] == '.';
    assert forall i :: 0 <= i < |w| ==> t[i] == w[i];
  }

  lemma PlainConcat(x: string, y: string)
    requires NoSpecialChars(x) && NoSpecialChars(y)
    ensures NoSpecialChars(x + y)
  {
    forall i | 0 <= i < |x + y| ensures IsDigit((x + y)[i]) || (x + y)[i] == '.' || (x + y)[i] == '-' {
      if i < |x| { assert (x + y)[i] == x[i]; } else { assert (x + y)[i] == y[i - |x|]; }
    }
  }

  /** A second point, even after a comma became one, makes a value unreadable. */
  lemma TwoPointsRejected(w: string, f: string)
    requires AllDigits(w) && NoSpecialChars(f) && Contains(f, '.')
    ensures ParseDecimal(Some(w + "." + f)) == None
  {
    var t := w + "." + f;
    assert NoSpecialChars(t) by {
      PlainConcat(w, ".");
      PlainConcat(w + ".", f);
    }
    PlainTextIsClean(t);
    assert DecimalText(t) == UnsignedDecimal(t) by {
      if |w| > 0 { assert t[0] == w[0]; } else { assert t[0] == '.'; }
    }
    FirstPointAfterDigits(w, f);
    assert t[|w| + 1..] == f;
    assert !AllDigits(f);
  }

  /** `"4500.00"`: the trailing fraction zeros stay in the scale. */
  lemma DotDecimalExample()
    ensures ParseDecimal(Some("4500.00")) == Some(Dec(450000, 2))
  {
    var w, f := "4500", "00";
    assert IsDigits(w) && AllDigits(f);
    PointedDecimal(w, f);
    assert w + "." + f == "4500.00";
    assert w + f == "450000";
    DigitsOfExample();
  }

  lemma DigitsOfExample()
    ensures DigitsValue("450000") == 450000
  {
    assert "450000"[..5] == "45000" && "45000"[..4] == "4500" && "4500"[..3] == "450";
    assert "450"[..2] == "45" && "45"[..1] == "4";
  }

  /** `"4 500,00"` reads like `"4500.00"`. */
  lemma CommaDecimalExample()
    ensures ParseDecimal(Some("4 500,00")) == ParseDecimal(Some("4500.00")) == Some(Dec(450000, 2))
  {
    assert "4" + " " + "500,00" == "4 500,00" && "4" + "500,00" == "4500,00";
    assert "4500" + "," + "00" == "4500,00" && "4500" + "." + "00" == "4500.00";
    SpaceIgnored("4", "500,00");
    CommaIsPoint("4500", "00");
    DotDecimalExample();
  }

  /** `"1,234.5"` has two points once its comma is read as one, and is rejected. */
  lemma MixedSeparatorsExample()
    ensures ParseDecimal(Some("1,234.5")) == None
  {
    assert "1" + "," + "234.5" == "1,234.5";
    assert AllDigits("1") && NoSpecialChars("234.5") && Contains("234.5", '.') by {
      assert "234.5"[3] == '.';
    }
    TwoPointsRejected("1", "234.5");
    CommaIsPoint("1", "234.5");
  }

  /** Text made only of digits, points and minus signs. */
  predicate NoSpecialChars(s: string) {
    forall i :: 0 <= i < |s| ==> IsDigit(s[i]) || s[i] == '.' || s[i] == '-'
  }

  function Zeros(n: int): (z: string)
    ensures |z| == if n < 0 then 0 else n
    ensures forall i :: 0 <= i < |z| ==> z[i] == '0'
  {
    if n <= 0 then "" else Zeros(n - 1) + "0"
  }

  /** The digits of `magnitude`, zero-padded on the left to more than `scale` digits. */
  function PaddedDigits(magnitude: nat, scale: nat): (p: string)
    ensures |p| > scale && AllDigits(p) && DigitsValue(p) == magnitude
  {
    var digits := NatToDigits(magnitude);
    var z := Zeros(scale + 1 - |digits|);
    LeadingZeros(z, digits);
    DigitsRoundTrip(magnitude);
    z + digits
  }

  /** The padded digits of `magnitude`, with a point before the last `scale` of them when
      `scale > 0`. */
  function FormatUnsigned(magnitude: nat, scale: nat): (body: string)
    ensures |body| > 0 && IsDigit(body[0]) && NoSpecialChars(body)
  {
    var padded := PaddedDigits(magnitude, scale);
    if scale == 0 then padded
    else
      var k := |padded| - scale;
      var body := padded[..k] + "." + padded[k..];
      assert forall i :: 0 <= i < |body| ==> i == k || body[i] == padded[if i < k then i else i - 1];
      body
  }

  /** `str(d)` for a Decimal written without exponent: sign, digits, and exactly `scale`
      fraction digits after a point. */
  function FormatDec(d: Dec): string {
    var magnitude := if d.mantissa < 0 then -d.mantissa else d.mantissa;
    (if d.mantissa < 0 then "-" else "") + FormatUnsigned(magnitude, d.scale)
  }

  lemma UnsignedOfDigits(t: string)
    requires IsDigits(t)
    ensures UnsignedDecimal(t) == Some(Dec(DigitsValue(t), 0))
  {
    assert forall i :: 0 <= i < |t| ==> t[i] != '.';
  }

  lemma UnsignedOfPointed(w: string, f: string)
    requires |w| > 0 && AllDigits(w) && AllDigits(f)
    ensures UnsignedDecimal(w + "." + f) == Some(Dec(DigitsValue(w + f), |f|))
  {
    var t := w + "." + f;
    FirstPointAfterDigits(w, f);
    assert t[..|w|] == w && t[|w| + 1..] == f;
  }

  lemma UnsignedRoundTrip(magnitude: nat, scale: nat)
    ensures UnsignedDecimal(FormatUnsigned(magnitude, scale)) == Some(Dec(magnitude, scale))
  {
    var padded := PaddedDigits(magnitude, scale);
    if scale == 0 {
      UnsignedOfDigits(padded);
    } else {
      var k := |padded| - scale;
      assert padded[..k] + padded[k..] == padded;
      UnsignedOfPointed(padded[..k], padded[k..]);
    }
  }

  lemma NormalizePlain(t: string)
    requires NoSpecialChars(t)
    ensures NormalizeSeparators(t) == t
  {
    assert ReplaceChar(t, ',', '.') == t;
    RemoveCharAbsent(t, ' ');
  }

  lemma PlainIsUnpadded(t: string)
    requires |t| > 0 && NoSpecialChars(t)
    ensures Strip(t) == t
  {
    assert !IsSpace(t[0]) && !IsSpace(t[|t| - 1]);
    StripPadded("", t, "");
    assert "" + t + "" == t;
  }

  lemma PlainHasNoExponent(t: string)
    requires NoSpecialChars(t)
    ensures !Contains(t, 'e') && !Contains(t, 'E')
  {
  }

  /** Text of digits, points and minus signs goes to the grammar unchanged. */
  lemma PlainTextIsClean(t: string)
    requires |t| > 0 && NoSpecialChars(t)
    ensures ParseDecimal(Some(t)) == DecimalText(t)
  {
    PlainIsUnpadded(t);
    NormalizePlain(t);
    PlainHasNoExponent(t);
  }

  /** Printing a decimal and parsing it back gives the same digits and the same scale. */
  lemma DecimalRoundTrip(d: Dec)
    ensures ParseDecimal(Some(FormatDec(d))) == Some(d)
  {
    var magnitude := if d.mantissa < 0 then -d.mantissa else d.mantissa;
    var body := FormatUnsigned(magnitude, d.scale);
    UnsignedRoundTrip(magnitude, d.scale);
    if d.mantissa < 0 {
      assert FormatDec(d) == "-" + body;
      NegatedDecimal(body);
    } else {
      assert FormatDec(d) == body;
      PlainTextIsClean(body);
    }
  }

  // ---------------------------------------------------------------------------------------------
  // Barcodes

  /** The separator class `[\n\r,;]` of the barcode split. */
  predicate IsBarcodeSeparator(c: char) {
    c == '\n' || c == '\r' || c == ',' || c == ';'
  }

  predicate NoSeparator(s: string) {
    forall i :: 0 <= i < |s| ==> !IsBarcodeSeparator(s[i])
  }

  /** The index of the first separator in `s`, or `|s|`. */
  function FirstSeparator(s: string): (k: nat)
    ensures k <= |s| && NoSeparator(s[..k])
    ensures k < |s| ==> IsBarcodeSeparator(s[k])
  {
    if |s| == 0 || IsBarcodeSeparator(s[0]) then 0
    else
      var k := FirstSeparator(s[1..]);
      assert s[1..][..k] == s[1..k + 1];
      1 + k
  }

  /** The length of the run of separators at the start of `s`. */
  function SeparatorRun(s: string): (n: nat)
    ensures n <= |s|
  {
    if |s| == 0 || !IsBarcodeSeparator(s[0]) then 0 else 1 + SeparatorRun(s[1..])
  }

  /** `re.split(r"[\n\r,;]+", s)`: the pieces between maximal runs of separators, including an
      empty first or last piece when `s` starts or ends with a separator. */
  function SplitOnSeparators(s: string): (tokens: seq<string>)
    ensures |tokens| >= 1
    ensures forall i :: 0 <= i < |tokens| ==> NoSeparator(tokens[i])
    decreases |s|
  {
    var k := FirstSeparator(s);
    if k == |s| then [s]
    else
      var n := SeparatorRun(s[k..]);
      assert n >= 1;
      [s[..k]] + SplitOnSeparators(s[k + n..])
  }

  /** What the loop of `_parse_barcodes` keeps of one piece: the digits of a piece that is neither
      blank nor `nan` in any case, when there are any. */
  function BarcodeOfToken(token: string): (r: Option<string>)
    ensures r.Some? ==> IsDigits(r.value) && r.value == KeepDigits(token)
  {
    var cleaned := Strip(token);
    if cleaned != "" && Lower(cleaned) != "nan" then
      var digits := KeepDigits(token);
      if digits != "" then Some(digits) else None
    else None
  }

  /** The barcodes the loop collects from a sequence of pieces, in order. */
  function KeepBarcodes(tokens: seq<string>): (r: seq<string>)
    ensures |r| <= |tokens|
    ensures forall i :: 0 <= i < |r| ==> IsDigits(r[i])
  {
    if |tokens| == 0 then []
    else
      var last := tokens[|tokens| - 1];
      var kept := KeepBarcodes(tokens[..|tokens| - 1]);
      match BarcodeOfToken(last)
      case None => kept
      case Some(b) => kept + [b]
  }

  /** The barcode list `_parse_barcodes` returns for a cell. */
  function BarcodeList(s: string): (r: seq<string>)
    ensures forall i :: 0 <= i < |r| ==> IsDigits(r[i]) && |r[i]| <= |s|
    ensures s != "" ==> |r| <= |SplitOnSeparators(s)|
    ensures s == "" ==> r == []
  {
    if s == "" then []
    else
      var tokens := SplitOnSeparators(s);
      var r := KeepBarcodes(tokens);
      BarcodesComeFromTokens(tokens);
      SplitPiecesAreShort(s);
      r
  }

  /** Every barcode kept is the digit string of one of the pieces. */
  lemma {:induction false} BarcodesComeFromTokens(tokens: seq<string>)
    ensures forall i :: 0 <= i < |KeepBarcodes(tokens)| ==>
      exists j :: 0 <= j < |tokens| && KeepBarcodes(tokens)[i] == KeepDigits(tokens[j])
  {
    if |tokens| > 0 {
      var prefix := tokens[..|tokens| - 1];
      var last := tokens[|tokens| - 1];
      BarcodesComeFromTokens(prefix);
      var kept := KeepBarcodes(prefix);
      var r := KeepBarcodes(tokens);
      assert r == kept || (BarcodeOfToken(last).Some? && r == kept + [KeepDigits(last)]);
      forall i | 0 <= i < |r|
        ensures exists j :: 0 <= j < |tokens| && r[i] == KeepDigits(tokens[j])
      {
        if i < |kept| {
          var j :| 0 <= j < |prefix| && kept[i] == KeepDigits(prefix[j]);
          assert r[i] == kept[i] && tokens[j] == prefix[j];
        } else {
          assert r[i] == KeepDigits(tokens[|tokens| - 1]);
        }
      }
    } else {
      assert KeepBarcodes(tokens) == [];
    }
  }

  lemma {:induction false} SplitPiecesAreShort(s: string)
    ensures forall i :: 0 <= i < |SplitOnSeparators(s)| ==> |SplitOnSeparators(s)[i]| <= |s|
    decreases |s|
  {
    var k := FirstSeparator(s);
    if k < |s| {
      var n := SeparatorRun(s[k..]);
      SplitPiecesAreShort(s[k + n..]);
    }
  }

  /** The barcodes of concatenated piece lists are concatenated: order is kept and equal barcodes
      are not merged. */
  lemma {:induction false} KeepBarcodesConcat(a: seq<string>, b: seq<string>)
    ensures KeepBarcodes(a + b) == KeepBarcodes(a) + KeepBarcodes(b)
    decreases |b|
  {
    if |b| == 0 {
      assert a + b == a;
    } else {
      assert (a + b)[..|a + b| - 1] == a + b[..|b| - 1];
      assert (a + b)[|a + b| - 1] == b[|b| - 1];
      KeepBarcodesConcat(a, b[..|b| - 1]);
    }
  }

  /** `_parse_barcodes`: the loop over the split pieces, appending each kept barcode. */
  method ParseBarcodes(s: string) returns (barcodes: seq<string>)
    ensures barcodes == BarcodeList(s)
    ensures forall i :: 0 <= i < |barcodes| ==> IsDigits(barcodes[i])
  {
    if s == "" {
      return [];
    }
    barcodes := [];
    var tokens := SplitOnSeparators(s);
    for i := 0 to |tokens|
      invariant barcodes == KeepBarcodes(tokens[..i])
    {
      assert tokens[..i + 1][..i] == tokens[..i];
      var cleaned := Strip(tokens[i]);
      if cleaned != "" && Lower(cleaned) != "nan" {
        var digits := KeepDigits(tokens[i]);
        if digits != "" {
          barcodes := barcodes + [digits];
        }
      }
    }
    assert tokens[..|tokens|] == tokens;
  }

  /** The worked example: blank and `nan` pieces vanish, spaces are stripped, order is kept. */
  predicate AllSeparators(s: string) {
    forall i :: 0 <= i < |s| ==> IsBarcodeSeparator(s[i])
  }

  lemma {:induction false} FirstSeparatorAfter(a: string, t: string)
    requires NoSeparator(a) && |t| > 0 && IsBarcodeSeparator(t[0])
    ensures FirstSeparator(a + t) == |a|
  {
    if |a| > 0 {
      assert (a + t)[1..] == a[1..] + t;
      FirstSeparatorAfter(a[1..], t);
    } else {
      assert a + t == t;
    }
  }

  lemma {:induction false} SeparatorRunOf(run: string, rest: string)
    requires AllSeparators(run) && (|rest| == 0 || !IsBarcodeSeparator(rest[0]))
    ensures SeparatorRun(run + rest) == |run|
  {
    if |run| > 0 {
      assert (run + rest)[1..] == run[1..] + rest;
      SeparatorRunOf(run[1..], rest);
    } else {
      assert run + rest == rest;
    }
  }

  /** A piece without separators, a maximal run of separators, and the rest: the piece is the first
      token and the rest is split on its own. */
  lemma SplitAtRun(a: string, run: string, rest: string)
    requires NoSeparator(a) && |run| > 0 && AllSeparators(run)
    requires |rest| == 0 || !IsBarcodeSeparator(rest[0])
    ensures SplitOnSeparators(a + run + rest) == [a] + SplitOnSeparators(rest)
  {
    var s := a + run + rest;
    assert s == a + (run + rest);
    FirstSeparatorAfter(a, run + rest);
    assert s[|a|..] == run + rest;
    SeparatorRunOf(run, rest);
    assert s[..|a|] == a && s[|a| + |run|..] == rest;
  }

  /** Text without separators is a single token. */
  lemma SplitWithoutSeparator(a: string)
    requires NoSeparator(a)
    ensures SplitOnSeparators(a) == [a]
  {
    assert FirstSeparator(a) == |a|;
  }

  lemma {:induction false} KeepDigitsOfDigits(s: string)
    requires AllDigits(s)
    ensures KeepDigits(s) == s
  {
    if |s| > 0 {
      KeepDigitsOfDigits(s[1..]);
    }
  }

  lemma {:induction false} KeepDigitsConcat(a: string, b: string)
    ensures KeepDigits(a + b) == KeepDigits(a) + KeepDigits(b)
  {
    if |a| > 0 {
      assert (a + b)[1..] == a[1..] + b;
      KeepDigitsConcat(a[1..], b);
    } else {
      assert a + b == b;
    }
  }

  lemma {:induction false} KeepDigitsOfSpace(a: string)
    requires AllSpace(a)
    ensures KeepDigits(a) == ""
  {
    if |a| > 0 {
      KeepDigitsOfSpace(a[1..]);
    }
  }

  lemma DigitsUnpadded(t: string)
    requires IsDigits(t)
    ensures Unpadded(t)
  {
    assert !IsSpace(t[0]) && !IsSpace(t[|t| - 1]);
  }

  lemma DigitsAreNotNan(t: string)
    requires IsDigits(t)
    ensures Lower(t) != "nan"
  {
    assert Lower(t)[0] == t[0] != "nan"[0];
  }

  lemma KeepDigitsOfPadded(a: string, t: string, b: string)
    requires AllSpace(a) && AllSpace(b) && AllDigits(t)
    ensures KeepDigits(a + t + b) == t
  {
    KeepDigitsConcat(a + t, b);
    KeepDigitsConcat(a, t);
    KeepDigitsOfSpace(a);
    KeepDigitsOfSpace(b);
    KeepDigitsOfDigits(t);
    assert "" + t + "" == t;
  }

  /** A piece of digits with whitespace around it is kept as its digits. */
  lemma PaddedDigitToken(a: string, t: string, b: string)
    requires AllSpace(a) && AllSpace(b) && IsDigits(t)
    ensures BarcodeOfToken(a + t + b) == Some(t)
  {
    DigitsUnpadded(t);
    StripPadded(a, t, b);
    DigitsAreNotNan(t);
    KeepDigitsOfPadded(a, t, b);
  }

  /** A piece that reads `nan` in any case, with or without whitespace around it, is dropped. */
  lemma NanTokenDropped(t: string)
    requires EqualIgnoringCase(Strip(t), "nan")
    ensures BarcodeOfToken(t) == None
  {
    assert Lower(Strip(t)) == "nan";
  }

  /** A blank piece is dropped. */
  lemma BlankTokenDropped(t: string)
    requires AllSpace(t)
    ensures BarcodeOfToken(t) == None
  {
    StripPadded(t, "", "");
    assert t + "" + "" == t;
  }

  lemma DigitsHaveNoSeparator(t: string)
    requires AllDigits(t)
    ensures NoSeparator(t)
  {
  }

  lemma DigitTokenKept(t: string)
    requires IsDigits(t)
    ensures BarcodeOfToken(t) == Some(t)
  {
    PaddedDigitToken("", t, "");
    assert "" + t + "" == t;
  }

  lemma SplitShapeTail(c: string, d: string)
    requires IsDigits(c) && IsDigits(d)
    ensures SplitOnSeparators(c + "\n" + ("nan" + ",," + d)) == [c, "nan", d]
  {
    var s3 := "nan" + ",," + d;
    assert SplitOnSeparators(s3) == ["nan", d] by {
      DigitsHaveNoSeparator(d);
      SplitWithoutSeparator(d);
      SplitAtRun("nan", ",,", d);
    }
    DigitsHaveNoSeparator(c);
    SplitAtRun(c, "\n", s3);
  }

  lemma SplitShapeMiddle(b: string, rest: string)
    requires IsDigits(b) && |rest| > 0 && IsDigit(rest[0])
    ensures SplitOnSeparators(" " + b + ";" + rest) == [" " + b] + SplitOnSeparators(rest)
  {
    DigitsHaveNoSeparator(b);
    NoSeparatorConcat(" ", b);
    SplitAtRun(" " + b, ";", rest);
  }

  lemma SplitShapeHead(a: string, b: string, rest: string)
    requires IsDigits(a) && IsDigits(b) && |rest| > 0 && IsDigit(rest[0])
    ensures SplitOnSeparators(a + "," + (" " + b + ";" + rest))
            == [a, " " + b] + SplitOnSeparators(rest)
  {
    var s1 := " " + b + ";" + rest;
    SplitShapeMiddle(b, rest);
    assert s1[0] == ' ';
    DigitsHaveNoSeparator(a);
    SplitAtRun(a, ",", s1);
    assert [a] + ([" " + b] + SplitOnSeparators(rest)) == [a, " " + b] + SplitOnSeparators(rest);
  }

  lemma SplitShape(a: string, b: string, c: string, d: string)
    requires IsDigits(a) && IsDigits(b) && IsDigits(c) && IsDigits(d)
    ensures SplitOnSeparators(a + "," + (" " + b + ";" + (c + "\n" + ("nan" + ",," + d))))
            == [a, " " + b, c, "nan", d]
  {
    var rest := c + "\n" + ("nan" + ",," + d);
    SplitShapeTail(c, d);
    assert rest[0] == c[0];
    SplitShapeHead(a, b, rest);
  }

  lemma NoSeparatorConcat(x: string, y: string)
    requires NoSeparator(x) && NoSeparator(y)
    ensures NoSeparator(x + y)
  {
    forall i | 0 <= i < |x + y| ensures !IsBarcodeSeparator((x + y)[i]) {
      if i < |x| { assert (x + y)[i] == x[i]; } else { assert (x + y)[i] == y[i - |x|]; }
    }
  }

  /** The barcodes kept of one more piece. */
  function KeptOf(token: string): seq<string> {
    match BarcodeOfToken(token)
    case None => []
    case Some(b) => [b]
  }

  lemma KeepSnoc(prefix: seq<string>, token: string)
    ensures KeepBarcodes(prefix + [token]) == KeepBarcodes(prefix) + KeptOf(token)
  {
    assert (prefix + [token])[..|prefix|] == prefix;
  }

  lemma KeepTwo(t1: string, t2: string)
    ensures KeepBarcodes([t1, t2]) == KeptOf(t1) + KeptOf(t2)
  {
    assert [t1, t2][..1] == [t1] && [t1][..0] == [];
  }

  lemma KeepThree(t1: string, t2: string, t3: string)
    requires BarcodeOfToken(t1).Some? && BarcodeOfToken(t2).Some? && BarcodeOfToken(t3).Some?
    ensures KeepBarcodes([t1, t2, t3])
            == [BarcodeOfToken(t1).value, BarcodeOfToken(t2).value, BarcodeOfToken(t3).value]
  {
    KeepTwo(t1, t2);
    assert [t1, t2, t3][..2] == [t1, t2];
  }

  lemma KeepFive(t1: string, t2: string, t3: string, t4: string, t5: string)
    requires BarcodeOfToken(t1).Some? && BarcodeOfToken(t2).Some? && BarcodeOfToken(t3).Some?
    requires BarcodeOfToken(t4).None? && BarcodeOfToken(t5).Some?
    ensures KeepBarcodes([t1, t2, t3, t4, t5])
            == [BarcodeOfToken(t1).value, BarcodeOfToken(t2).value, BarcodeOfToken(t3).value,
                BarcodeOfToken(t5).value]
  {
    var tokens := [t1, t2, t3, t4, t5];
    KeepThree(t1, t2, t3);
    assert tokens[..5][..4][..3] == [t1, t2, t3];
    assert tokens[..5] == tokens;
  }

  lemma NanLiteralDropped()
    ensures BarcodeOfToken("nan") == None
  {
    assert Strip("nan") == "nan" by { StripPadded("", "nan", ""); assert "" + "nan" + "" == "nan"; }
    NanTokenDropped("nan");
  }

  lemma KeepShape(a: string, b: string, c: string, d: string)
    requires IsDigits(a) && IsDigits(b) && IsDigits(c) && IsDigits(d)
    ensures KeepBarcodes([a, " " + b, c, "nan", d]) == [a, b, c, d]
  {
    DigitTokenKept(a);
    PaddedDigitToken(" ", b, "");
    assert " " + b + "" == " " + b;
    DigitTokenKept(c);
    DigitTokenKept(d);
    NanLiteralDropped();
    KeepFive(a, " " + b, c, "nan", d);
  }

  /** The worked example `"123, 456;789\nnan,,000"` with any digit strings in place of the four
      barcodes: blank and `nan` pieces vanish, spaces are stripped, order is kept. */
  lemma BarcodeListShape(a: string, b: string, c: string, d: string)
    requires IsDigits(a) && IsDigits(b) && IsDigits(c) && IsDigits(d)
    ensures BarcodeList(a + "," + (" " + b + ";" + (c + "\n" + ("nan" + ",," + d)))) == [a, b, c, d]
  {
    SplitShape(a, b, c, d);
    KeepShape(a, b, c, d);
  }

  // ---------------------------------------------------------------------------------------------
  // Record mappers

  datatype ProductFields = ProductFields(
    code: string, name: string, article: Option<string>, baseUnit: string, mainUnit: string,
    fullName: string, status: string)

  datatype DescriptionFields = DescriptionFields(comment: Option<string>, mainProperty: Option<string>)

  datatype OnlineFields = OnlineFields(
    exportToOnlineStore: bool, onlineStoreName: Option<string>, blockDiscount: bool)

  datatype DimensionsFields = DimensionsFields(
    length: Option<Dec>, width: Option<Dec>, height: Option<Dec>, volume: Option<Dec>)

  /** The five parts `parse_product_data` returns. The description, online and dimensions parts are
      dicts whose keys are always present, so the loops always find them truthy. */
  datatype ProductPayload = ProductPayload(
    product: ProductFields, description: DescriptionFields, onlineInfo: OnlineFields,
    dimensions: DimensionsFields, barcodes: seq<string>)

  /** The six price tiers and the stock hint of a price row. */
  datatype PricePayload = PricePayload(
    productCode: string, quantity: Option<int>, maxPurchase: Option<Dec>,
    optCard: Option<Dec>, optCardPlus: Option<Dec>, opt: Option<Dec>, retail: Option<Dec>,
    gold: Option<Dec>, platinum: Option<Dec>)

  datatype StockPayload = StockPayload(productCode: string, quantity: Option<int>, warehouse: string)

  /** A cleaned cell, or None when it is blank (the `_clean_str(...) or None` of the mapper). */
  function OptionalText(row: Row, column: string): (r: Option<string>)
    ensures r.Some? ==> r.value != "" && Unpadded(r.value)
  {
    OrNone(CleanStr(Get(row, column)))
  }

  /** `parse_product_data`. */
  function ParseProductData(row: Row): (r: ProductPayload)
    ensures Unpadded(r.product.code) && Unpadded(r.product.name) && Unpadded(r.product.fullName)
    ensures r.product.article != Some("") && r.description.comment != Some("")
    ensures r.description.mainProperty != Some("") && r.onlineInfo.onlineStoreName != Some("")
    ensures forall i :: 0 <= i < |r.barcodes| ==> IsDigits(r.barcodes[i])
  {
    ProductPayload(
      ProductFields(
        code := CleanStr(Some(GetOr(row, CodeColumn, ""))),
        name := CleanStr(Some(GetOr(row, NameColumn, ""))),
        article := OptionalText(row, ArticleColumn),
        baseUnit := CleanStr(Some(GetOr(row, BaseUnitColumn, DefaultUnit))),
        mainUnit := CleanStr(Some(GetOr(row, MainUnitColumn, DefaultUnit))),
        fullName := CleanStr(Some(GetOr(row, FullNameColumn, ""))),
        status := CleanStr(Some(GetOr(row, StatusColumn, DefaultStatus)))),
      DescriptionFields(
        comment := OptionalText(row, CommentColumn),
        mainProperty := OptionalText(row, MainPropertyColumn)),
      OnlineFields(
        exportToOnlineStore := ParseBool(Get(row, ExportColumn)),
        onlineStoreName := OptionalText(row, OnlineNameColumn),
        blockDiscount := ParseBool(Get(row, BlockDiscountColumn))),
      DimensionsFields(
        length := ParseDecimal(Get(row, LengthColumn)),
        width := ParseDecimal(Get(row, WidthColumn)),
        height := ParseDecimal(Get(row, HeightColumn)),
        volume := ParseDecimal(Get(row, VolumeColumn))),
      BarcodeList(GetOr(row, BarcodesColumn, "")))
  }

  /** `parse_price_data`. */
  function ParsePriceData(row: Row): (r: PricePayload)
    ensures Unpadded(r.productCode)
    ensures Get(row, PriceCodeColumn).None? ==> r.productCode == ""
    ensures Get(row, QuantityOnHandColumn).None? ==> r.quantity.None?
  {
    PricePayload(
      productCode := CleanStr(Some(GetOr(row, PriceCodeColumn, ""))),
      quantity := ParseInt(Get(row, QuantityOnHandColumn)),
      maxPurchase := ParseDecimal(Get(row, MaxPurchaseColumn)),
      optCard := ParseDecimal(Get(row, OptCardColumn)),
      optCardPlus := ParseDecimal(Get(row, OptCardPlusColumn)),
      opt := ParseDecimal(Get(row, OptColumn)),
      retail := ParseDecimal(Get(row, RetailColumn)),
      gold := ParseDecimal(Get(row, GoldColumn)),
      platinum := ParseDecimal(Get(row, PlatinumColumn)))
  }

  /** `parse_stock_data`. The default of the quantity column is the int 0, which `_parse_int`
      reads through its text "0". */
  function ParseStockData(row: Row): (r: StockPayload)
    ensures Unpadded(r.productCode) && Unpadded(r.warehouse)
    ensures Get(row, QuantityColumn).None? ==> r.quantity == Some(0)
    ensures Get(row, QuantityColumn) == Some("") ==> r.quantity.None?
  {
    IntRoundTrip(0);
    StockPayload(
      productCode := CleanStr(Some(GetOr(row, CodeColumn, ""))),
      quantity := ParseInt(Some(GetOr(row, QuantityColumn, "0"))),
      warehouse := CleanStr(Some(GetOr(row, WarehouseColumn, ""))))
  }

  /** Units and status fall back to their defaults only when the column is missing; a blank cell
      gives the empty string. */
  lemma ProductDefaultsOnlyWhenAbsent(row: Row)
    ensures var p := ParseProductData(row).product;
            && (Get(row, BaseUnitColumn).None? ==> p.baseUnit == DefaultUnit)
            && (Get(row, MainUnitColumn).None? ==> p.mainUnit == DefaultUnit)
            && (Get(row, StatusColumn).None? ==> p.status == DefaultStatus)
            && (Get(row, BaseUnitColumn).Some? && AllSpace(Get(row, BaseUnitColumn).value) ==> p.baseUnit == "")
            && (Get(row, MainUnitColumn).Some? && AllSpace(Get(row, MainUnitColumn).value) ==> p.mainUnit == "")
            && (Get(row, StatusColumn).Some? && AllSpace(Get(row, StatusColumn).value) ==> p.status == "")
  {
    assert Unpadded(DefaultUnit) && Unpadded(DefaultStatus);
    DefaultedCell(row, BaseUnitColumn, DefaultUnit);
    DefaultedCell(row, MainUnitColumn, DefaultUnit);
    DefaultedCell(row, StatusColumn, DefaultStatus);
  }

  lemma DefaultedCell(row: Row, column: string, default: string)
    requires Unpadded(default)
    ensures Get(row, column).None? ==> CleanStr(Some(GetOr(row, column, default))) == default
    ensures Get(row, column).Some? && AllSpace(Get(row, column).value)
            ==> CleanStr(Some(GetOr(row, column, default))) == ""
  {
    StripPadded("", default, "");
    assert "" + default + "" == default;
    BlankStrips(Get(row, column));
  }

  lemma BlankStrips(v: Option<string>)
    ensures v.Some? && AllSpace(v.value) ==> Strip(v.value) == ""
  {
    if v.Some? && AllSpace(v.value) {
      StripPadded(v.value, "", "");
      assert v.value + "" + "" == v.value;
    }
  }

  /** A blank article, comment, main property or storefront name becomes None, and so does a
      missing one. */
  lemma BlankOptionalTextIsNone(row: Row, column: string)
    requires Get(row, column).None? || AllSpace(Get(row, column).value)
    ensures OptionalText(row, column) == None
  {
    BlankStrips(Get(row, column));
  }

  /** A missing quantity column reads as 0, a blank one as None. */
  lemma StockQuantityAbsentVersusBlank(row: Row)
    ensures Get(row, QuantityColumn).None? ==> ParseStockData(row).quantity == Some(0)
    ensures Get(row, QuantityColumn).Some? && AllSpace(Get(row, QuantityColumn).value)
            ==> ParseStockData(row).quantity.None?
  {
    var v := Get(row, QuantityColumn);
    if v.Some? && AllSpace(v.value) {
      NoDigitsInSpace(v.value);
    }
  }

  lemma {:induction false} NoDigitsInSpace(s: string)
    requires AllSpace(s)
    ensures KeepDigitsAndMinus(s) == ""
  {
    if |s| > 0 {
      NoDigitsInSpace(s[1..]);
    }
  }
}
