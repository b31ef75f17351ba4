/**
 * Record shapes shared by the extractor, the store and the webhook, and the pieces of the
 * JavaScript runtime the pipeline calls into (number and date parsing, ISO rendering, the
 * clock), which the model takes as given functions and values.
 */
module Records {
  import opened Wrappers
  import opened Text

  /** Stands for the UUID primary keys of both tables. */
  type ItemId = nat

  datatype Sentiment = Positive | Neutral | Negative

  /** A context highlight as the extractor builds it and addContextHighlight receives it. */
  datatype Highlight = Highlight(
    ownerEmail: string,
    productKeyword: Option<string>,
    text: string,
    sentiment: Sentiment,
    subject: Option<string>,
    messageId: Option<string>,
    financialItemId: Option<ItemId>)

  /** The FinancialItems columns a caller of addFinancialItem supplies (all but id and created_at). */
  datatype FinancialItem = FinancialItem(
    ownerEmail: string,
    vendorName: Option<string>,
    productName: Option<string>,
    originalAmount: Option<real>,
    originalCurrency: Option<string>,
    amountDisplay: Option<real>,
    currencyDisplay: Option<string>,
    purchaseDate: Option<string>,
    billingCycle: Option<string>,
    category: Option<string>,
    rawSubject: Option<string>,
    messageId: Option<string>)

  /** What a thrown JavaScript error says. */
  datatype JsError = TypeError(what: string) | RangeError(what: string)

  /** A JavaScript Date read in local time: getFullYear, getMonth() + 1, getDate, time of day in ms. */
  datatype CalendarDate = CalendarDate(year: int, month: int, day: int, timeOfDay: int)

  /** The regular expression /^\d{4}-\d{2}-\d{2}$/. */
  predicate IsIsoDate(s: string) {
    |s| == 10 && s[4] == '-' && s[7] == '-'
    && IsDigit(s[0]) && IsDigit(s[1]) && IsDigit(s[2]) && IsDigit(s[3])
    && IsDigit(s[5]) && IsDigit(s[6]) && IsDigit(s[8]) && IsDigit(s[9])
  }

  /** The runtime services the pipeline uses, each a given function. */
  datatype Runtime = Runtime(
    parseFloat: string -> Option<real>,          // None stands for NaN
    parseDate: string -> Option<CalendarDate>,   // new Date(s); None stands for an Invalid Date
    toIso: CalendarDate -> string,               // Date.prototype.toISOString
    now: CalendarDate)                           // new Date() when the delivery is processed
}
