/**
 * The post-processing getStructuredDataFromEmail applies to the JSON object the language
 * model returns: the price is coerced to a number, the currency is upper-cased or inferred
 * from the email text, and a purchase date that is not already YYYY-MM-DD is re-rendered
 * from a parsed Date or dropped. The chat-completion call itself is a given reply.
 */
module OracleOutput {
  import opened Wrappers
  import opened Text
  import opened Records

  /** A JSON value as JSON.parse yields it, with `undefined` for a key the object lacks. */
  datatype JsValue = Undefined | Null | Bool(b: bool) | Num(n: real) | Str(s: string) | Structured

  predicate JsTruthy(v: JsValue) {
    match v
    case Undefined => false
    case Null => false
    case Bool(b) => b
    case Num(n) => n != 0.0
    case Str(s) => s != ""
    case Structured => true
  }

  /** original_amount, where the webhook tells a missing key from an explicit null. */
  datatype AmountField = AmountMissing | AmountNull | Amount(value: real)

  /** The fields of the model's JSON object that the post-processor and the webhook read. */
  datatype Extraction = Extraction(
    vendorName: Option<string>,
    productName: Option<string>,
    price: JsValue,
    currency: JsValue,
    originalAmount: AmountField,
    originalCurrency: Option<string>,
    purchaseDate: Option<string>,
    billingCycle: Option<string>,
    category: Option<string>)

  /** What the chat-completion call came back with. */
  datatype OracleReply = CallFailed | EmptyContent | NotJson | Parsed(data: Extraction)

  // ---------------------------------------------------------------- price

  /** The characters /[^0-9.-]+/g leaves in place. */
  predicate PriceChar(c: char) {
    IsDigit(c) || c == '.' || c == '-'
  }

  /** `s.replace(/[^0-9.-]+/g, "")`. */
  function KeepPriceChars(s: string): (r: string)
    ensures |r| <= |s|
    ensures forall i :: 0 <= i < |r| ==> PriceChar(r[i])
  {
    if s == [] then []
    else (if PriceChar(s[0]) then [s[0]] else []) + KeepPriceChars(s[1..])
  }

  /** The replacement removes nothing from a string made only of price characters. */
  lemma {:induction false} KeepPriceCharsKeepsPriceText(s: string)
    requires forall i :: 0 <= i < |s| ==> PriceChar(s[i])
    ensures KeepPriceChars(s) == s
  {
    if s != [] {
      assert PriceChar(s[0]);
      KeepPriceCharsKeepsPriceText(s[1..]);
      assert s == [s[0]] + s[1..];
    }
  }

  /** The replacement distributes over concatenation: each character is kept or dropped on its own. */
  lemma {:induction false} KeepPriceCharsAppend(a: string, b: string)
    ensures KeepPriceChars(a + b) == KeepPriceChars(a) + KeepPriceChars(b)
  {
    if a == [] {
      assert a + b == b;
    } else {
      assert (a + b)[1..] == a[1..] + b;
      KeepPriceCharsAppend(a[1..], b);
    }
  }

  /** A string price becomes parseFloat of its price characters, or null when that is NaN. */
  function CoercePrice(price: JsValue, rt: Runtime): (r: JsValue)
    ensures !r.Str?
    ensures !price.Str? ==> r == price
    ensures price.Str? ==> (r.Null? <==> rt.parseFloat(KeepPriceChars(price.s)).None?)
    ensures price.Str? && rt.parseFloat(KeepPriceChars(price.s)).Some? ==>
              r == Num(rt.parseFloat(KeepPriceChars(price.s)).value)
  {
    match price
    case Str(s) =>
      (match rt.parseFloat(KeepPriceChars(s))
       case Some(v) => Num(v)
       case None => Null)
    case _ => price
  }

  // ---------------------------------------------------------------- currency

  /** The currency the email text suggests: the first of rupee, euro, pound, dollar it mentions. */
  function InferCurrency(text: string): (r: Option<string>)
    ensures r.Some? ==> r.value in {"INR", "EUR", "GBP", "USD"}
  {
    if Contains(text, "\U{20B9}") || Contains(Lower(text), "inr") then Some("INR")
    else if Contains(text, "\U{20AC}") || Contains(Lower(text), "eur") then Some("EUR")
    else if Contains(text, "\U{A3}") || Contains(Lower(text), "gbp") then Some("GBP")
    else if Contains(text, "$") then Some("USD")
    else None
  }

  /** One line of the inference table: a symbol, optionally a code word, and the code it means. */
  datatype Clue = Clue(symbol: string, word: Option<string>, code: string)

  const CurrencyClues: seq<Clue> := [
    Clue("\U{20B9}", Some("inr"), "INR"),
    Clue("\U{20AC}", Some("eur"), "EUR"),
    Clue("\U{A3}", Some("gbp"), "GBP"),
    Clue("$", None, "USD")
  ]

  predicate ClueFits(c: Clue, text: string) {
    Contains(text, c.symbol) || (c.word.Some? && Contains(Lower(text), c.word.value))
  }

  /** The code of the first clue in the table that the text fits. */
  function FirstFit(clues: seq<Clue>, text: string): (r: Option<string>)
    ensures r.None? <==> forall i :: 0 <= i < |clues| ==> !ClueFits(clues[i], text)
    ensures r.Some? ==> exists i :: 0 <= i < |clues| && ClueFits(clues[i], text) && clues[i].code == r.value
                                   && forall j :: 0 <= j < i ==> !ClueFits(clues[j], text)
  {
    if clues == [] then None
    else if ClueFits(clues[0], text) then Some(clues[0].code)
    else
      var r := FirstFit(clues[1..], text);
      assert r.Some? ==> exists i :: 1 <= i < |clues| && ClueFits(clues[i], text) && clues[i].code == r.value
                                     && forall j :: 0 <= j < i ==> !ClueFits(clues[j], text) by {
        if r.Some? {
          var k :| 0 <= k < |clues[1..]| && ClueFits(clues[1..][k], text) && clues[1..][k].code == r.value
                   && forall j :: 0 <= j < k ==> !ClueFits(clues[1..][j], text);
          assert forall j :: 0 <= j < k + 1 ==> !ClueFits(clues[j], text) by {
            forall j | 0 <= j < k + 1 ensures !ClueFits(clues[j], text) {
              if j > 0 { assert clues[j] == clues[1..][j - 1]; }
            }
          }
        }
      }
      r
  }

  /** The chain of if/else-if tests is exactly "the first fitting line of the clue table". */
  lemma InferCurrencyByTable(text: string)
    ensures InferCurrency(text) == FirstFit(CurrencyClues, text)
  {
    var c0, c1, c2, c3 := CurrencyClues[1..], CurrencyClues[2..], CurrencyClues[3..], CurrencyClues[4..];
    assert CurrencyClues[0] == Clue("\U{20B9}", Some("inr"), "INR") && CurrencyClues[1..] == c0;
    assert c0[0] == Clue("\U{20AC}", Some("eur"), "EUR") && c0[1..] == c1;
    assert c1[0] == Clue("\U{A3}", Some("gbp"), "GBP") && c1[1..] == c2;
    assert c2[0] == Clue("$", None, "USD") && c2[1..] == c3 && c3 == [];
  }

  /** Upper-casing a code word leaves it as it is. */
  lemma UpperCodes(code: string)
    requires code in {"INR", "EUR", "GBP", "USD"}
    ensures Upper(code) == code
  {
  }

  /** The text the inference reads: `(body || "") + " " + (subject || "")`. */
  function InferenceText(subject: Option<string>, body: Option<string>): string {
    body.GetOr("") + " " + subject.GetOr("")
  }

  /**
   * A non-empty string currency is upper-cased; otherwise, when the price is not null and the
   * currency is falsy, it is inferred from the text, and left alone when nothing is found.
   */
  function SettleCurrency(x: Extraction, text: string): (r: Extraction)
    ensures r == x.(currency := r.currency)
    ensures x.currency.Str? && x.currency.s != "" ==> r.currency == Str(Upper(x.currency.s))
    ensures !(x.currency.Str? && x.currency.s != "") && x.price != Null && !JsTruthy(x.currency) ==>
              r.currency == (match InferCurrency(text) case Some(c) => Str(c) case None => x.currency)
    ensures !(x.currency.Str? && x.currency.s != "") && (x.price == Null || JsTruthy(x.currency)) ==> r == x
  {
    if x.currency.Str? && x.currency.s != "" then x.(currency := Str(Upper(x.currency.s)))
    else if x.price != Null && !JsTruthy(x.currency) then
      match InferCurrency(text)
      case Some(c) => x.(currency := Str(c))
      case None => x
    else x
  }

  // ---------------------------------------------------------------- purchase date

  /** `${d.getFullYear()}-${String(d.getMonth() + 1).padStart(2, "0")}-${String(d.getDate()).padStart(2, "0")}`. */
  function FormatYmd(d: CalendarDate): string {
    IntToString(d.year) + "-" + Pad2(d.month) + "-" + Pad2(d.day)
  }

  /** A date with a four-digit year is rendered in the shape the strict test accepts. */
  lemma FormattedDateIsStrict(d: CalendarDate)
    requires 1000 <= d.year <= 9999 && 1 <= d.month <= 12 && 1 <= d.day <= 31
    ensures IsIsoDate(FormatYmd(d))
  {
    FourDigitYear(d.year);
    var y := IntToString(d.year);
    assert forall i :: 0 <= i < |y| ==> IsDigit(y[i]);
  }

  /**
   * A truthy purchase date that fails /^\d{4}-\d{2}-\d{2}$/ is replaced by the re-rendered
   * Date, or by null when the Date is invalid; any other date is kept.
   */
  function SettleDate(x: Extraction, rt: Runtime): (r: Extraction)
    ensures r == x.(purchaseDate := r.purchaseDate)
    ensures !Truthy(x.purchaseDate) || IsIsoDate(x.purchaseDate.value) ==> r == x
    ensures Truthy(x.purchaseDate) && !IsIsoDate(x.purchaseDate.value) ==>
              r.purchaseDate == (match rt.parseDate(x.purchaseDate.value)
                                 case Some(d) => Some(FormatYmd(d))
                                 case None => None)
  {
    if Truthy(x.purchaseDate) && !IsIsoDate(x.purchaseDate.value) then
      match rt.parseDate(x.purchaseDate.value)
      case Some(d) => x.(purchaseDate := Some(FormatYmd(d)))
      case None => x.(purchaseDate := None)
    else x
  }

  // ---------------------------------------------------------------- the whole post-processor

  /** The three steps in their order: price, then currency (which reads the new price), then date. */
  function Normalised(x: Extraction, subject: Option<string>, body: Option<string>, rt: Runtime): Extraction {
    SettleDate(SettleCurrency(x.(price := CoercePrice(x.price, rt)), InferenceText(subject, body)), rt)
  }

  /** The post-processing as the service runs it: a sequence of updates to the parsed object. */
  method PostProcess(x: Extraction, subject: Option<string>, body: Option<string>, rt: Runtime) returns (y: Extraction)
    ensures y == Normalised(x, subject, body, rt)
  {
    y := x;
    if y.price.Str? {
      var stripped := KeepPriceChars(y.price.s);
      var parsed := rt.parseFloat(stripped);
      y := y.(price := if parsed.Some? then Num(parsed.value) else Null);
    }
    ghost var priced := x.(price := CoercePrice(x.price, rt));
    assert y == priced;
    if y.currency.Str? && y.currency.s != "" {
      y := y.(currency := Str(Upper(y.currency.s)));
    } else if y.price != Null && !JsTruthy(y.currency) {
      var text := InferenceText(subject, body);
      var inferred := InferCurrency(text);
      if inferred.Some? {
        y := y.(currency := Str(inferred.value));
      }
    }
    assert y == SettleCurrency(priced, InferenceText(subject, body));
    if Truthy(y.purchaseDate) && !IsIsoDate(y.purchaseDate.value) {
      var d := rt.parseDate(y.purchaseDate.value);
      y := y.(purchaseDate := if d.Some? then Some(FormatYmd(d.value)) else None);
    }
  }

  /** The fields the webhook reads besides the date pass through untouched. */
  lemma NormalisedKeepsOtherFields(x: Extraction, subject: Option<string>, body: Option<string>, rt: Runtime)
    ensures var y := Normalised(x, subject, body, rt);
            y.vendorName == x.vendorName && y.productName == x.productName
            && y.originalAmount == x.originalAmount && y.originalCurrency == x.originalCurrency
            && y.billingCycle == x.billingCycle && y.category == x.category
  {
  }

  /** After post-processing the price is never a string, and the currency is never a lower-case letter string. */
  lemma NormalisedShapes(x: Extraction, subject: Option<string>, body: Option<string>, rt: Runtime)
    ensures var y := Normalised(x, subject, body, rt);
            !y.price.Str?
            && (y.currency.Str? && y.currency.s != "" ==> Upper(y.currency.s) == y.currency.s)
            && (Truthy(y.purchaseDate) ==> Truthy(x.purchaseDate))
  {
    var p := x.(price := CoercePrice(x.price, rt));
    var c := SettleCurrency(p, InferenceText(subject, body));
    if p.currency.Str? && p.currency.s != "" {
      UpperIdempotent(p.currency.s);
    } else if c.currency != p.currency {
      var code := InferCurrency(InferenceText(subject, body)).value;
      UpperCodes(code);
    }
  }

  /** Running the post-processor on its own output changes neither price nor currency again. */
  lemma NormalisedSettlesPriceAndCurrency(x: Extraction, subject: Option<string>, body: Option<string>, rt: Runtime)
    ensures var y := Normalised(x, subject, body, rt);
            var z := Normalised(y, subject, body, rt);
            z.price == y.price && z.currency == y.currency
  {
    var y := Normalised(x, subject, body, rt);
    NormalisedShapes(x, subject, body, rt);
    var text := InferenceText(subject, body);
    var p := x.(price := CoercePrice(x.price, rt));
    var c := SettleCurrency(p, text);
    if !(y.currency.Str? && y.currency.s != "") && y.price != Null && !JsTruthy(y.currency) {
      // the currency was falsy after the first pass, so the first pass also found nothing to infer
      assert c.currency == y.currency;
      if p.currency.Str? && p.currency.s != "" {
        assert false;
      }
    }
  }

  /** A date already in YYYY-MM-DD form is kept, and a re-rendered four-digit-year date then is. */
  lemma NormalisedDateIsStrict(x: Extraction, subject: Option<string>, body: Option<string>, rt: Runtime)
    requires Truthy(x.purchaseDate)
    requires !IsIsoDate(x.purchaseDate.value) ==>
               var d := rt.parseDate(x.purchaseDate.value);
               d.Some? ==> 1000 <= d.value.year <= 9999 && 1 <= d.value.month <= 12 && 1 <= d.value.day <= 31
    ensures var y := Normalised(x, subject, body, rt);
            y.purchaseDate.None? || IsIsoDate(y.purchaseDate.value)
  {
    if !IsIsoDate(x.purchaseDate.value) {
      var d := rt.parseDate(x.purchaseDate.value);
      if d.Some? {
        FormattedDateIsStrict(d.value);
      }
    }
  }

  /**
   * getStructuredDataFromEmail: no call when subject and body are both empty; null when the
   * call fails, returns no content or content that is not JSON; else the post-processed object.
   */
  function StructuredData(subject: Option<string>, body: Option<string>, reply: OracleReply, rt: Runtime): (r: Option<Extraction>)
    ensures !Truthy(subject) && !Truthy(body) ==> r.None?
    ensures !reply.Parsed? ==> r.None?
    ensures (Truthy(subject) || Truthy(body)) && reply.Parsed? ==> r == Some(Normalised(reply.data, subject, body, rt))
  {
    if !Truthy(subject) && !Truthy(body) then None
    else
      match reply
      case Parsed(x) => Some(Normalised(x, subject, body, rt))
      case _ => None
  }
}
