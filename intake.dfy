/**
 * The value-level steps of the inbound-email webhook: whose email it is, whether it looks
 * financial, whether the model's answer is good enough to record, the purchase date and the
 * display amount the recorded item gets, and how a duplicate insert is recognised.
 */
module Intake {
  import opened Wrappers
  import opened Text
  import opened Records
  import opened OracleOutput
  import opened Store

  // ---------------------------------------------------------------- the delivery

  /** Postmark's FromFull: absent (or falsy), a single address object, or an array of them. */
  datatype FromFull = NoFromFull | FromObject(email: Option<string>) | FromArray(emails: seq<Option<string>>)

  /** The fields of the inbound JSON payload the webhook reads. */
  datatype Payload = Payload(
    fromFull: FromFull,
    from: Option<string>,
    subject: Option<string>,
    textBody: Option<string>,
    messageId: Option<string>,
    date: Option<string>)

  // ---------------------------------------------------------------- owner

  /** A match of /<([^>]+)>/ spanning s[i..j + 1]: '<', at least one character other than '>', then '>'. */
  predicate Bracketed(s: string, i: int, j: int) {
    0 <= i && i + 1 < j < |s| && s[i] == '<' && s[j] == '>' && forall k :: i < k < j ==> s[k] != '>'
  }

  /** The capture of /<([^>]+)>/ for a match starting at the first character of s. */
  function CaptureHere(s: string): (r: Option<string>)
    ensures r.Some? ==> Bracketed(s, 0, |r.value| + 1) && r.value == s[1..|r.value| + 1]
    ensures r.None? ==> forall j :: !Bracketed(s, 0, j)
  {
    if s != [] && s[0] == '<' then
      var j := IndexOf(s[1..], '>');
      if j.Some? && j.value > 0 then
        assert forall k :: 0 < k < j.value + 1 ==> s[k] == s[1..][k - 1];
        Some(s[1..j.value + 1])
      else
        assert forall j' :: 1 < j' < |s| && s[j'] == '>' ==> s[1..][j' - 1] == '>';
        None
    else None
  }

  /** The capture of the leftmost match of /<([^>]+)>/ in s, as String.prototype.match reports it. */
  function AngleCapture(s: string): Option<string>
    decreases |s|
  {
    if s == [] then None
    else if CaptureHere(s).Some? then CaptureHere(s)
    else AngleCapture(s[1..])
  }

  /** The regular expression matches iff some bracketed span exists, and the capture is the leftmost one's inside. */
  lemma {:induction false} AngleCaptureSpec(s: string)
    ensures AngleCapture(s).None? <==> forall i, j :: !Bracketed(s, i, j)
    ensures AngleCapture(s).Some? ==>
              exists i, j :: Bracketed(s, i, j) && AngleCapture(s).value == s[i + 1..j]
                             && forall i', j' :: 0 <= i' < i ==> !Bracketed(s, i', j')
    decreases |s|
  {
    if s != [] {
      if CaptureHere(s).Some? {
        var c := CaptureHere(s).value;
        assert Bracketed(s, 0, |c| + 1) && c == s[0 + 1..|c| + 1];
      } else {
        var t := s[1..];
        AngleCaptureSpec(t);
        forall i, j | Bracketed(s, i, j) ensures i >= 1 && Bracketed(t, i - 1, j - 1) {
          assert i != 0;
          forall k | i - 1 < k < j - 1 ensures t[k] != '>' {
            assert t[k] == s[k + 1];
          }
        }
        if AngleCapture(t).Some? {
          var i, j :| Bracketed(t, i, j) && AngleCapture(t).value == t[i + 1..j]
                      && forall i', j' :: 0 <= i' < i ==> !Bracketed(t, i', j');
          assert Bracketed(s, i + 1, j + 1) by {
            forall k | i + 1 < k < j + 1 ensures s[k] != '>' {
              assert s[k] == t[k - 1];
            }
          }
          assert s[i + 2..j + 1] == t[i + 1..j];
          assert forall i', j' :: 0 <= i' < i + 1 ==> !Bracketed(s, i', j');
        } else {
          assert forall i, j :: !Bracketed(s, i, j);
        }
      }
    }
  }

  /** For a `Name <address>` header whose name has no '<', the capture is the address. */
  lemma {:induction false} AngleCaptureOfNameAddr(name: string, addr: string, rest: string)
    requires forall k :: 0 <= k < |name| ==> name[k] != '<'
    requires addr != [] && forall k :: 0 <= k < |addr| ==> addr[k] != '>'
    ensures AngleCapture(name + "<" + addr + ">" + rest) == Some(addr)
  {
    var s := name + "<" + addr + ">" + rest;
    if name == [] {
      assert s == "<" + addr + ">" + rest;
      assert Bracketed(s, 0, |addr| + 1) by {
        forall k | 0 < k < |addr| + 1 ensures s[k] != '>' {
          assert s[k] == addr[k - 1];
        }
      }
      assert CaptureHere(s).Some?;
      assert s[1..|addr| + 1] == addr;
    } else {
      assert CaptureHere(s).None?;
      assert s[1..] == name[1..] + "<" + addr + ">" + rest;
      AngleCaptureOfNameAddr(name[1..], addr, rest);
    }
  }

  /**
   * The owner of a delivery, lower-cased: FromFull.Email, else FromFull[0].Email for an array,
   * else the address in angle brackets in From, else From itself when it has no '<' but an '@'.
   */
  function OwnerEmail(p: Payload): (r: Option<string>)
    ensures r.Some? ==> r.value != [] && Lower(r.value) == r.value
    ensures p.fromFull.FromObject? && Truthy(p.fromFull.email) ==> r == Some(Lower(p.fromFull.email.value))
    ensures p.fromFull.FromArray? && |p.fromFull.emails| > 0 && Truthy(p.fromFull.emails[0]) ==>
              r == Some(Lower(p.fromFull.emails[0].value))
    ensures r.None? <==>
              !(p.fromFull.FromObject? && Truthy(p.fromFull.email))
              && !(p.fromFull.FromArray? && |p.fromFull.emails| > 0 && Truthy(p.fromFull.emails[0]))
              && (!Truthy(p.from)
                  || (AngleCapture(p.from.value).None? && (Contains(p.from.value, "<") || !Contains(p.from.value, "@"))))
  {
    var found :=
      if p.fromFull.FromObject? && Truthy(p.fromFull.email) then p.fromFull.email
      else if p.fromFull.FromArray? && |p.fromFull.emails| > 0 && Truthy(p.fromFull.emails[0]) then p.fromFull.emails[0]
      else if Truthy(p.from) then
        match AngleCapture(p.from.value)
        case Some(c) => (AngleCaptureSpec(p.from.value); Some(c))
        case None => if !Contains(p.from.value, "<") && Contains(p.from.value, "@") then p.from else None
      else None;
    if found.Some? then
      LowerIdempotent(found.value);
      Some(Lower(found.value))
    else None
  }

  /** With no usable FromFull, From yields an owner exactly when it holds a bracketed span or is a bare address. */
  lemma OwnerFromHeader(p: Payload)
    requires !(p.fromFull.FromObject? && Truthy(p.fromFull.email))
    requires !(p.fromFull.FromArray? && |p.fromFull.emails| > 0 && Truthy(p.fromFull.emails[0]))
    requires Truthy(p.from)
    ensures OwnerEmail(p).None? <==>
              (forall i, j :: !Bracketed(p.from.value, i, j)) && (Contains(p.from.value, "<") || !Contains(p.from.value, "@"))
    ensures OwnerEmail(p).Some? && AngleCapture(p.from.value).None? ==> OwnerEmail(p) == Some(Lower(p.from.value))
  {
    AngleCaptureSpec(p.from.value);
  }

  // ---------------------------------------------------------------- classifier

  const FinancialKeywords: seq<string> :=
    ["receipt", "invoice", "payment", "bill", "order", "subscription", "charge", "confirm"]

  const CommonVendors: seq<string> :=
    ["amazon", "netflix", "spotify", "aws", "zoom", "microsoft", "google", "apple"]

  /** `words.some(w => a.includes(w) || b.includes(w))`. */
  function MentionsAny(words: seq<string>, a: string, b: string): (r: bool)
    ensures r <==> exists k :: 0 <= k < |words| && (Contains(a, words[k]) || Contains(b, words[k]))
  {
    if words == [] then false
    else if Contains(a, words[0]) || Contains(b, words[0]) then true
    else
      var r := MentionsAny(words[1..], a, b);
      assert r ==> exists k :: 0 <= k < |words| && (Contains(a, words[k]) || Contains(b, words[k])) by {
        if r {
          var k :| 0 <= k < |words[1..]| && (Contains(a, words[1..][k]) || Contains(b, words[1..][k]));
          assert words[k + 1] == words[1..][k];
        }
      }
      assert !r ==> forall k :: 0 <= k < |words| ==> !(Contains(a, words[k]) || Contains(b, words[k])) by {
        if !r {
          forall k | 0 < k < |words| ensures !(Contains(a, words[k]) || Contains(b, words[k])) {
            assert words[k] == words[1..][k - 1];
          }
        }
      }
      r
  }

  /** `vendors.some(v => from.toLowerCase().includes(v) && (a.includes(v) || b.includes(v)))`. */
  function VendorMentioned(vendors: seq<string>, from: string, a: string, b: string): (r: bool)
    ensures r <==> exists k :: 0 <= k < |vendors| && Contains(Lower(from), vendors[k])
                                  && (Contains(a, vendors[k]) || Contains(b, vendors[k]))
  {
    if vendors == [] then false
    else if Contains(Lower(from), vendors[0]) && (Contains(a, vendors[0]) || Contains(b, vendors[0])) then true
    else
      var r := VendorMentioned(vendors[1..], from, a, b);
      assert r ==> exists k :: 0 <= k < |vendors| && Contains(Lower(from), vendors[k])
                               && (Contains(a, vendors[k]) || Contains(b, vendors[k])) by {
        if r {
          var k :| 0 <= k < |vendors[1..]| && Contains(Lower(from), vendors[1..][k])
                   && (Contains(a, vendors[1..][k]) || Contains(b, vendors[1..][k]));
          assert vendors[k + 1] == vendors[1..][k];
        }
      }
      assert !r ==> forall k :: 0 <= k < |vendors| ==>
                      !(Contains(Lower(from), vendors[k]) && (Contains(a, vendors[k]) || Contains(b, vendors[k]))) by {
        if !r {
          forall k | 0 < k < |vendors|
            ensures !(Contains(Lower(from), vendors[k]) && (Contains(a, vendors[k]) || Contains(b, vendors[k])))
          {
            assert vendors[k] == vendors[1..][k - 1];
          }
        }
      }
      r
  }

  /**
   * A financial keyword in the lower-cased subject or body, or else (when From is present) a
   * common vendor named both in the lower-cased sender and in the subject or body.
   */
  predicate IsPotentiallyFinancial(p: Payload)
    ensures IsPotentiallyFinancial(p) <==>
              (exists k :: 0 <= k < |FinancialKeywords|
                 && (Contains(Lower(p.subject.GetOr("")), FinancialKeywords[k]) || Contains(Lower(p.textBody.GetOr("")), FinancialKeywords[k])))
              || (Truthy(p.from) && exists k :: (0 <= k < |CommonVendors| && Contains(Lower(p.from.value), CommonVendors[k])
                   && (Contains(Lower(p.subject.GetOr("")), CommonVendors[k]) || Contains(Lower(p.textBody.GetOr("")), CommonVendors[k]))))
  {
    var ls := Lower(p.subject.GetOr(""));
    var lb := Lower(p.textBody.GetOr(""));
    MentionsAny(FinancialKeywords, ls, lb) || (Truthy(p.from) && VendorMentioned(CommonVendors, p.from.value, ls, lb))
  }

  // ---------------------------------------------------------------- gate

  /** The test the model's answer must pass, as written: it is there, names a vendor, and original_amount !== null. */
  predicate PassesGateAsWritten(data: Option<Extraction>)
    ensures PassesGate(data) ==> PassesGateAsWritten(data)
    ensures PassesGateAsWritten(data) && !PassesGate(data) <==>
              data.Some? && Truthy(data.value.vendorName) && data.value.originalAmount.AmountMissing?
  {
    data.Some? && Truthy(data.value.vendorName) && !data.value.originalAmount.AmountNull?
  }

  /** The test as intended: a vendor and an amount. */
  predicate PassesGate(data: Option<Extraction>)
  {
    data.Some? && Truthy(data.value.vendorName) && data.value.originalAmount.Amount?
  }

  // ---------------------------------------------------------------- purchase date

  /** JavaScript's `%`: the remainder takes the sign of the dividend. */
  function JsRem(a: int, b: int): (r: int)
    requires b > 0
    ensures a >= 0 ==> r == a % b
    ensures -b < r < b
  {
    if a >= 0 then a % b else -((-a) % b)
  }

  /** The value of the last two characters when s ends in '/', '-' or '.' followed by two digits. */
  function TwoDigitYearSuffix(s: string): (r: Option<nat>)
    ensures r.Some? <==> |s| >= 3 && s[|s| - 3] in {'/', '-', '.'} && IsDigit(s[|s| - 2]) && IsDigit(s[|s| - 1])
    ensures r.Some? ==> r.value < 100 && r.value == 10 * (s[|s| - 2] as int - '0' as int) + (s[|s| - 1] as int - '0' as int)
  {
    var n := |s|;
    if n >= 3 && s[n - 3] in {'/', '-', '.'} && IsDigit(s[n - 2]) && IsDigit(s[n - 1]) then
      Some(10 * (s[n - 2] as int - '0' as int) + (s[n - 1] as int - '0' as int))
    else None
  }

  /** The century a two-digit year is put in: up to ten years ahead of now is 20yy, anything later 19yy. */
  function WindowYear(yy: nat, now: CalendarDate): int
    requires yy < 100
  {
    if yy <= JsRem(now.year, 100) + 10 then 2000 + yy else 1900 + yy
  }

  /** The window keeps the two digits and picks 20yy exactly for the years up to ten past the current one. */
  lemma WindowYearSpec(yy: nat, now: CalendarDate)
    requires yy < 100 && now.year >= 0
    ensures var y := WindowYear(yy, now);
            y % 100 == yy && 1900 <= y < 2100 && (y >= 2000 <==> yy <= now.year % 100 + 10)
  {
  }

  /** The ISO string of the purchase date, before the fallback: null when absent or unparseable. */
  function PurchaseDateIso(pd: Option<string>, rt: Runtime): (r: Option<string>)
    ensures !Truthy(pd) ==> r.None?
    ensures Truthy(pd) && IsIsoDate(pd.value) ==>
              r == (if rt.parseDate(pd.value + "T00:00:00Z").Some? then Some(rt.toIso(rt.parseDate(pd.value + "T00:00:00Z").value)) else None)
    ensures Truthy(pd) && !IsIsoDate(pd.value) && rt.parseDate(pd.value).None? ==> r.None?
    ensures Truthy(pd) && !IsIsoDate(pd.value) && rt.parseDate(pd.value).Some? ==>
              var d := rt.parseDate(pd.value).value;
              r == Some(rt.toIso(if d.year < 2000 && TwoDigitYearSuffix(pd.value).Some?
                                 then d.(year := WindowYear(TwoDigitYearSuffix(pd.value).value, rt.now))
                                 else d))
  {
    if !Truthy(pd) then None
    else if IsIsoDate(pd.value) then
      match rt.parseDate(pd.value + "T00:00:00Z")
      case Some(d) => Some(rt.toIso(d))
      case None => None
    else
      match rt.parseDate(pd.value)
      case None => None
      case Some(d) =>
        var suffix := TwoDigitYearSuffix(pd.value);
        if d.year < 2000 && suffix.Some? then Some(rt.toIso(d.(year := WindowYear(suffix.value, rt.now))))
        else Some(rt.toIso(d))
  }

  /**
   * The purchase_date the item is recorded with: the converted purchase date, else the Date
   * header, else the current time. An unparseable Date header makes toISOString throw.
   */
  function RecordedDate(pd: Option<string>, header: Option<string>, rt: Runtime): (r: Result<string, JsError>)
    ensures r.Failure? <==> !Truthy(PurchaseDateIso(pd, rt)) && Truthy(header) && rt.parseDate(header.value).None?
    ensures Truthy(PurchaseDateIso(pd, rt)) ==> r == Success(PurchaseDateIso(pd, rt).value)
    ensures !Truthy(PurchaseDateIso(pd, rt)) && Truthy(header) && rt.parseDate(header.value).Some? ==>
              r == Success(rt.toIso(rt.parseDate(header.value).value))
    ensures !Truthy(PurchaseDateIso(pd, rt)) && !Truthy(header) ==> r == Success(rt.toIso(rt.now))
  {
    var iso := PurchaseDateIso(pd, rt);
    if Truthy(iso) then Success(iso.value)
    else if Truthy(header) then
      match rt.parseDate(header.value)
      case Some(d) => Success(rt.toIso(d))
      case None => Failure(RangeError("Invalid time value"))
    else Success(rt.toIso(rt.now))
  }

  /** A two-digit-year date read as before 2000 is recorded in the sliding century window. */
  lemma TwoDigitYearsAreWindowed(pd: string, rt: Runtime, d: CalendarDate)
    requires pd != [] && !IsIsoDate(pd) && rt.parseDate(pd) == Some(d)
    requires d.year < 2000 && TwoDigitYearSuffix(pd).Some?
    requires Truthy(Some(rt.toIso(d.(year := WindowYear(TwoDigitYearSuffix(pd).value, rt.now)))))
    requires rt.now.year >= 0
    ensures exists y :: RecordedDate(Some(pd), None, rt) == Success(rt.toIso(d.(year := y)))
                        && y % 100 == TwoDigitYearSuffix(pd).value
                        && (y >= 2000 <==> TwoDigitYearSuffix(pd).value <= rt.now.year % 100 + 10)
  {
    var y := WindowYear(TwoDigitYearSuffix(pd).value, rt.now);
    WindowYearSpec(TwoDigitYearSuffix(pd).value, rt.now);
    assert RecordedDate(Some(pd), None, rt) == Success(rt.toIso(d.(year := y)));
  }

  // ---------------------------------------------------------------- display amount

  const DefaultInrRate: real := 0.012
  const DefaultEurRate: real := 1.08
  const DefaultGbpRate: real := 1.27

  datatype Rates = Rates(inr: real, eur: real, gbp: real)

  /** `parseFloat(process.env.X) || fallback`: an unset, unparseable or zero setting gives the fallback. */
  function RateOr(setting: Option<string>, fallback: real, rt: Runtime): (r: real)
    ensures r == fallback || (setting.Some? && rt.parseFloat(setting.value) == Some(r) && r != 0.0)
    ensures setting.Some? && rt.parseFloat(setting.value).Some? && rt.parseFloat(setting.value).value != 0.0 ==>
              r == rt.parseFloat(setting.value).value
    ensures (setting.None? || rt.parseFloat(setting.value).None? || rt.parseFloat(setting.value).value == 0.0) ==>
              r == fallback
  {
    if setting.None? then fallback
    else
      match rt.parseFloat(setting.value)
      case Some(v) => if v != 0.0 then v else fallback
      case None => fallback
  }

  /** The three conversion rates the server starts with; none of them is ever zero. */
  function ConfiguredRates(inr: Option<string>, eur: Option<string>, gbp: Option<string>, rt: Runtime): (r: Rates)
    ensures r.inr != 0.0 && r.eur != 0.0 && r.gbp != 0.0
  {
    Rates(RateOr(inr, DefaultInrRate, rt), RateOr(eur, DefaultEurRate, rt), RateOr(gbp, DefaultGbpRate, rt))
  }

  /** An amount with no fraction of a cent. */
  predicate WholeCents(r: real) {
    (r * 100.0).Floor as real == r * 100.0
  }

  /** `parseFloat(x.toFixed(2))`: the nearest whole number of cents, halves rounded away from zero. */
  function RoundCents(x: real): (r: real)
    ensures -1.0 / 200.0 <= r - x <= 1.0 / 200.0
    ensures (x >= 0.0 ==> r >= 0.0) && (x <= 0.0 ==> r <= 0.0)
    ensures WholeCents(r)
  {
    var cents := if x >= 0.0 then NearestHalfUp(x * 100.0) else -NearestHalfUp(-x * 100.0);
    cents as real / 100.0
  }

  /** The whole number nearest a non-negative y, a half going up. */
  function NearestHalfUp(y: real): (n: int)
    requires y >= 0.0
    ensures n >= 0 && -0.5 <= n as real - y <= 0.5
  {
    (y + 0.5).Floor
  }

  /** `parseFloat((amount * rate).toFixed(2))`. */
  function Convert(amount: real, rate: real): (r: real)
    ensures -1.0 / 200.0 <= r - amount * rate <= 1.0 / 200.0
    ensures WholeCents(r)
  {
    RoundCents(amount * rate)
  }

  /** A number as the conversion block can leave it: undefined or null, NaN, or a finite value. */
  datatype JsNumber = NoNumber | NotANumber | Finite(value: real)

  /** amount_display and currency_display after the currency-conversion block. */
  datatype Shown<N> = Shown(amount: N, currency: Option<string>)

  /**
   * The conversion block as written, for whatever original_amount the gate let through: it runs
   * whenever the amount is not null, so an undefined amount still gets currency_display "USD".
   */
  function ShownAsWritten(amount: AmountField, code: Option<string>, rates: Rates): (r: Shown<JsNumber>)
    ensures amount.AmountNull? ==> r == Shown(NoNumber, None)
  {
    if amount.AmountNull? then Shown(NoNumber, None)
    else
      var given := if amount.Amount? then Finite(amount.value) else NoNumber;
      if code == Some("INR") then Shown(if amount.Amount? then Finite(Convert(amount.value, rates.inr)) else NotANumber, Some("USD"))
      else if code == Some("EUR") then Shown(if amount.Amount? then Finite(Convert(amount.value, rates.eur)) else NotANumber, Some("USD"))
      else if code == Some("GBP") then Shown(if amount.Amount? then Finite(Convert(amount.value, rates.gbp)) else NotANumber, Some("USD"))
      else if code == Some("USD") then Shown(given, Some("USD"))
      else if Truthy(code) then Shown(given, code)
      else Shown(given, Some("USD"))
  }

  /** The codes the webhook converts to US dollars. */
  predicate Converted(code: string) {
    code == "INR" || code == "EUR" || code == "GBP"
  }

  function RateFor(code: string, rates: Rates): real
    requires Converted(code)
  {
    if code == "INR" then rates.inr else if code == "EUR" then rates.eur else rates.gbp
  }

  /**
   * The conversion block for an amount that is there: INR, EUR and GBP are converted to USD at
   * the configured rate, rounded to a whole number of cents; any other code keeps the amount and shows that code; no
   * code keeps the amount and shows USD.
   */
  function ShownFor(amount: real, code: Option<string>, rates: Rates): (r: Shown<real>)
    ensures code.Some? && Converted(code.value) ==>
              r.currency == Some("USD") && -1.0 / 200.0 <= r.amount - amount * RateFor(code.value, rates) <= 1.0 / 200.0
              && WholeCents(r.amount)
    ensures !(code.Some? && Converted(code.value)) ==>
              r.amount == amount && r.currency == (if Truthy(code) then code else Some("USD"))
  {
    if code.Some? && Converted(code.value) then Shown(Convert(amount, RateFor(code.value, rates)), Some("USD"))
    else Shown(amount, if Truthy(code) then code else Some("USD"))
  }

  /** For an amount that is there, the block as written and the intended one agree. */
  lemma ShownAgrees(amount: real, code: Option<string>, rates: Rates)
    ensures ShownAsWritten(Amount(amount), code, rates)
            == Shown(Finite(ShownFor(amount, code, rates).amount), ShownFor(amount, code, rates).currency)
  {
    if code == Some("INR") {
      assert RateFor(code.value, rates) == rates.inr;
    } else if code == Some("EUR") {
      assert code != Some("INR") && RateFor(code.value, rates) == rates.eur;
    } else if code == Some("GBP") {
      assert code != Some("INR") && code != Some("EUR") && RateFor(code.value, rates) == rates.gbp;
    } else {
      assert code != Some("INR") && code != Some("EUR") && code != Some("GBP");
    }
  }

  /**
   * An answer without an original_amount key passes the gate as written and is recorded with
   * currency_display "USD" but no amount: the state the block's own comment says cannot arise.
   */
  lemma GateAdmitsMissingAmount(rates: Rates)
    ensures var x := Extraction(Some("Netflix"), None, Undefined, Undefined, AmountMissing, None, None, None, None);
            PassesGateAsWritten(Some(x)) && !PassesGate(Some(x))
            && ShownAsWritten(x.originalAmount, x.originalCurrency, rates) == Shown(NoNumber, Some("USD"))
            && ShownAsWritten(x.originalAmount, Some("INR"), rates) == Shown(NotANumber, Some("USD"))
  {
  }

  // ---------------------------------------------------------------- the item

  /** original_currency: the model's code upper-cased, or null when it gave none. */
  function CurrencyCode(c: Option<string>): Option<string> {
    if Truthy(c) then Some(Upper(c.value)) else None
  }

  /** The financialItemData object the webhook inserts for an answer that passed the gate. */
  function ItemFor(owner: string, p: Payload, x: Extraction, date: string, rates: Rates): FinancialItem
    requires x.originalAmount.Amount?
  {
    var code := CurrencyCode(x.originalCurrency);
    var shown := ShownFor(x.originalAmount.value, code, rates);
    FinancialItem(owner, x.vendorName, x.productName, Some(x.originalAmount.value), code,
                  Some(shown.amount), shown.currency, Some(date), x.billingCycle,
                  if Truthy(x.category) then x.category else Some("Other"),
                  p.subject, p.messageId)
  }

  /** A recorded item always has an amount, a display amount, a display currency and a category. */
  lemma ItemForShowsAmount(owner: string, p: Payload, x: Extraction, date: string, rates: Rates)
    requires x.originalAmount.Amount?
    ensures var item := ItemFor(owner, p, x, date, rates);
            item.originalAmount.Some? && item.amountDisplay.Some? && Truthy(item.currencyDisplay) && Truthy(item.category)
            && (item.originalCurrency.Some? ==> Upper(item.originalCurrency.value) == item.originalCurrency.value)
            && item.ownerEmail == owner && item.messageId == p.messageId
  {
    if Truthy(x.originalCurrency) {
      UpperIdempotent(x.originalCurrency.value);
    }
  }

  /** The webhook's construction of financialItemData: the object literal, then the conversion block. */
  method BuildItem(owner: string, p: Payload, x: Extraction, date: string, rates: Rates) returns (item: FinancialItem)
    requires x.originalAmount.Amount?
    ensures item == ItemFor(owner, p, x, date, rates)
  {
    var amount := x.originalAmount.value;
    var code := if Truthy(x.originalCurrency) then Some(Upper(x.originalCurrency.value)) else None;
    item := FinancialItem(owner, x.vendorName, x.productName, Some(amount), code, None, None, Some(date),
                          x.billingCycle, if Truthy(x.category) then x.category else Some("Other"),
                          p.subject, p.messageId);
    item := item.(currencyDisplay := Some("USD"));
    if code == Some("INR") {
      assert RateFor(code.value, rates) == rates.inr;
      item := item.(amountDisplay := Some(Convert(amount, rates.inr)));
    } else if code == Some("EUR") {
      assert RateFor(code.value, rates) == rates.eur;
      item := item.(amountDisplay := Some(Convert(amount, rates.eur)));
    } else if code == Some("GBP") {
      assert RateFor(code.value, rates) == rates.gbp;
      item := item.(amountDisplay := Some(Convert(amount, rates.gbp)));
    } else if code == Some("USD") {
      assert !Converted(code.value);
      item := item.(amountDisplay := Some(amount));
    } else if Truthy(code) {
      assert !Converted(code.value);
      item := item.(amountDisplay := Some(amount), currencyDisplay := code);
    } else {
      assert code.None?;
      item := item.(amountDisplay := Some(amount), currencyDisplay := Some("USD"));
    }
  }

  // ---------------------------------------------------------------- duplicates

  /** The catch block's test: code 23505, or a message naming a UNIQUE constraint on source_email_message_id. */
  predicate IsUniqueViolation(err: DbError)
    ensures err.code == UniqueViolationCode ==> IsUniqueViolation(err)
    ensures err.code != UniqueViolationCode && !Contains(err.message, MessageIdColumn) ==> !IsUniqueViolation(err)
    ensures err.code != UniqueViolationCode && !Contains(Upper(err.message), "UNIQUE CONSTRAINT") ==> !IsUniqueViolation(err)
  {
    err.code == UniqueViolationCode
    || (err.message != "" && Contains(Upper(err.message), "UNIQUE CONSTRAINT") && Contains(err.message, MessageIdColumn))
  }

  lemma UpperPhrase(head: string, phrase: string)
    requires head == "UNIQUE constraint" && phrase == "UNIQUE CONSTRAINT"
    ensures Upper(head) == phrase
  {
    forall i | 0 <= i < |head| ensures Upper(head)[i] == phrase[i] {
      UpperAt(head, i);
    }
  }

  lemma UniqueConstraintPhrase(lead: string, phrase: string)
    requires lead == TranslatedUniqueLead && phrase == "UNIQUE CONSTRAINT"
    ensures Contains(Upper(lead), phrase)
  {
    var head, tail := "UNIQUE constraint", " failed: FinancialItems." + MessageIdColumn + " for value ";
    assert lead == head + tail;
    UpperPhrase(head, phrase);
    UpperLeads(head, tail, phrase);
  }

  lemma UpperLeads(head: string, tail: string, phrase: string)
    requires Upper(head) == phrase
    ensures Contains(Upper(head + tail), phrase)
  {
    UpperAppend(head, tail);
    assert StartsWith(phrase, phrase);
    ContainsLeft(phrase, Upper(tail), phrase);
  }

  lemma ColumnInLead(lead: string, column: string)
    requires lead == TranslatedUniqueLead && column == MessageIdColumn
    ensures Contains(lead, column)
  {
    var front, back := "UNIQUE constraint" + " failed: FinancialItems.", " for value ";
    assert lead == front + column + back;
    assert StartsWith(column, column);
    ContainsRight(front, column, column);
    ContainsLeft(front + column, back, column);
  }

  /** The error addFinancialItem rewrites a message-id clash into is recognised, whatever the message id. */
  lemma RecognisesTranslatedClash(lead: string, messageId: Option<string>)
    requires lead == TranslatedUniqueLead
    ensures IsUniqueViolation(DbError(TranslatedUniqueCode, None, lead + Rendered(messageId)))
  {
    var rest := Rendered(messageId);
    var phrase := "UNIQUE CONSTRAINT";
    UniqueConstraintPhrase(lead, phrase);
    UpperAppend(lead, rest);
    ContainsLeft(Upper(lead), Upper(rest), phrase);
    var column := MessageIdColumn;
    ColumnInLead(lead, column);
    ContainsLeft(lead, rest, column);
  }

  /** Inserting an item whose message id is already stored fails with an error the webhook treats as a duplicate. */
  lemma DuplicateInsertRecognised(items: seq<ItemRow>, item: FinancialItem, id: ItemId)
    requires !HasItem(items, id) && item.messageId.Some? && MessageIdTaken(items, item.messageId.value)
    ensures var e := ItemInsertError(items, item, id, None);
            e.Some? && IsUniqueViolation(e.value)
  {
    var lead := TranslatedUniqueLead;
    RecognisesTranslatedClash(lead, item.messageId);
  }

  /** `items.find(it => it.source_email_message_id === messageId)`: a stored NULL never equals an absent id. */
  function FindByMessageId(rows: seq<ItemRow>, messageId: Option<string>): (r: Option<ItemRow>)
    ensures messageId.None? ==> r.None?
    ensures r.Some? ==> r.value in rows && r.value.item.messageId == messageId
    ensures r.None? && messageId.Some? ==> forall k :: 0 <= k < |rows| ==> rows[k].item.messageId != messageId
  {
    if messageId.None? || rows == [] then None
    else if rows[0].item.messageId == messageId then Some(rows[0])
    else
      var r := FindByMessageId(rows[1..], messageId);
      assert r.None? ==> forall k :: 0 < k < |rows| ==> rows[k] == rows[1..][k - 1];
      r
  }
}
