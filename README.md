# Inbound-email financial hub, modelled in Dafny

The backend receives emails forwarded by an inbound-mail service through a webhook. For each
delivery it does the following:

- works out whose email it is;
- decides whether the email looks financial;
- if so, asks a language model for the transaction's details, post-processes the answer and
  records a financial item, converting the amount to US dollars for display;
- extracts "context highlights" from the body: sentences that carry decision or issue context,
  each with a product keyword and a sentiment;
- stores each highlight, linked to an item when the linking rules allow.

A dashboard endpoint lists an owner's items. Each item comes with its linked highlights and the
owner's unlinked highlights about the item's keyword.

The model has these modules:

- `Wrappers`: Option and Result.
- `Text`: ASCII case mapping, substring search, JavaScript `trim` and `\s`, code-point string
  order, number rendering.
- `Records`: the row shapes shared by every part. The JavaScript runtime services (`parseFloat`,
  `new Date`, `toISOString`, the clock) are given functions in a `Runtime` value.
- `ContextExtractor`: `extractContextHighlights`. The break-loops and the `forEach` are methods
  proved equal to pure specifications. Properties of those specifications are proved as lemmas.
- `Store`: `database.js` as a class `Database`. Its two tables are sequences of rows, with the
  schema's constraints as the class invariant `Valid()`: primary keys, the table-wide UNIQUE
  message id, the foreign key with ON DELETE SET NULL, and the ordering of each SELECT.
- `OracleOutput`: the post-processing `getStructuredDataFromEmail` applies to the model's JSON.
  The chat-completion call itself is a given reply.
- `Intake`: the value-level steps of the webhook: owner, classifier, gate, purchase date,
  display amount, duplicate recognition.
- `Webhook`: the handler. The item half and the highlight loop are methods over the `Database`;
  the handler's contract is stated through specification functions.
- `DashboardApi`: `GET /api/data/:ownerEmail/financial-items` with its de-duplicating merge.

Database failures that the model does not derive from the tables' contents are parameters: a
lost connection or a server error. So are the language model's reply and the extractor's
sentence tokenisation and sentiment scores.

The gate on the model's answer as written (`original_amount !== null`) lets an answer without an
`original_amount` key through. The model exhibits that behaviour, and the pipeline itself uses
the evidently intended gate: an amount must be present. See "Findings".

Some behaviour of the code worth knowing when reading the model:

- The fallback highlight fires for bodies of 51 to 999 characters and summarises the first 200
  characters.
- Highlights carry no indicator field. The fallback highlight is recognisable only by its text.
- The answer's post-processing coerces and infers `price` and `currency`. The webhook reads
  `original_amount` and `original_currency`, so it takes them as the model gave them, apart
  from upper-casing the code.
- An unparseable Date header, used when the answer has no usable date, makes `toISOString`
  throw. That ends the delivery with a 500 response rather than degrading.

## Model

| member | source | states |
|---|---|---|
| ContextExtractor.SentimentLabel | backend/utils/contextExtractor.js:16-20 | positive exactly when the score exceeds 0.3, negative exactly when it is below -0.3, neutral otherwise |
| ContextExtractor.FirstMentionedIsFirst | backend/utils/contextExtractor.js:37-45 | the email's keyword is the first table entry that the subject or body mentions, ignoring case; it is absent exactly when no entry is mentioned |
| ContextExtractor.FindFirstMentioned | backend/utils/contextExtractor.js:37-45 | the break-loop over KNOWN_SERVICES returns the first mentioned entry |
| ContextExtractor.SentenceKeywordPrecedence | backend/utils/contextExtractor.js:49-71 | a service named in the sentence, the earliest in table order, overrides the email-level keyword; otherwise the email-level keyword is kept |
| ContextExtractor.FindIndicator | backend/utils/contextExtractor.js:73-79 | the loop reports an indicator exactly when some indicator phrase occurs in the lower-cased sentence |
| ContextExtractor.VisitSentence | backend/utils/contextExtractor.js:47-111 | the forEach callback pushes a highlight, with the trimmed text, the refined keyword and the score's label, exactly when the sentence qualifies |
| ContextExtractor.CollectSentenceHighlights | backend/utils/contextExtractor.js:47-111 | the forEach pushes the qualifying sentences' highlights in sentence order |
| ContextExtractor.SentenceHighlightsBound | backend/utils/contextExtractor.js:47-111 | at most one highlight per sentence |
| ContextExtractor.SentenceHighlightsSound | backend/utils/contextExtractor.js:81-110 | every highlight comes from a qualifying sentence: its trimmed text is 16 to 399 characters long and it is unlinked |
| ContextExtractor.SentenceHighlightsComplete | backend/utils/contextExtractor.js:81-110 | every qualifying sentence yields its highlight |
| ContextExtractor.SentenceHighlightsEmpty | backend/utils/contextExtractor.js:47-115 | no sentence highlight exactly when no sentence qualifies |
| ContextExtractor.FallbackTextShape | backend/utils/contextExtractor.js:129-132 | the synthesised text starts with "General context about " and summarises at most the first 200 characters of the body |
| ContextExtractor.FallbackRule | backend/utils/contextExtractor.js:113-137 | the result is the single fallback highlight exactly when no sentence qualified, the email has a keyword and the body is 51 to 999 characters long; otherwise it is the sentence highlights |
| ContextExtractor.ExtractContextHighlights | backend/utils/contextExtractor.js:22-146 | the function as written equals the specification: an empty or absent body gives nothing, and an absent subject with a non-empty table throws |
| Store.TranslateInsertError | backend/database.js:223-237 | the error is rewritten to PG_UNIQUE_VIOLATION, with the "UNIQUE constraint failed" message, exactly when it is a 23505 whose constraint names source_email_message_id, ignoring case; any other error is rethrown unchanged |
| Store.TranslateRecognisesMessageId | backend/database.js:226-235 | the duplicate-key error of the message-id constraint is rewritten |
| Store.TranslateKeepsKeyViolation | backend/database.js:226-237 | a primary-key clash is rethrown as it is |
| Store.InsertRankedKeepsRanked | backend/database.js:289 | inserting a row into a list ordered by purchase_date DESC, created_at DESC keeps it ordered |
| Store.RankRows | backend/database.js:289 | the ORDER BY returns a permutation of its rows |
| Store.RankRowsRanked | backend/database.js:289 | the ORDER BY's output is ordered: NULL dates first, then later dates first, then newer rows first |
| Store.FirstMatchingInRanked | backend/database.js:300 | LIMIT 1 over ordered rows returns a matching row that no other match precedes, and nothing exactly when no row matches |
| Store.SelectNewestOrdered | backend/database.js:312 | selected highlight rows come out newest first |
| Store.ItemInsertError | backend/database.js:72-84 | an item insert fails with a connection fault (translated), with a primary-key violation for a used id, or with the translated unique violation for a message id already stored; it succeeds exactly when none of these applies |
| Store.HighlightInsertError | backend/database.js:95-102 | a highlight insert succeeds exactly when there is no fault and its link, if any, names an existing item; a dangling link is a foreign-key violation |
| Store.ItemInsertKeepsConsistent | backend/database.js:70-103 | appending a row with a fresh id and an unused message id keeps every schema constraint |
| Store.HighlightInsertKeepsConsistent | backend/database.js:90-103 | appending a highlight whose link names an existing item keeps every schema constraint |
| Store.Detach | backend/database.js:102 | ON DELETE SET NULL clears a highlight's link exactly when it named the deleted item, and changes nothing else |
| Store.DeleteKeepsConsistent | backend/database.js:102 | deleting an item and setting its highlights' links to NULL keeps every constraint |
| Store.Database.constructor | backend/database.js:64-104 | the freshly created tables are empty and satisfy the constraints |
| Store.Database.AddFinancialItem | backend/database.js:177-239 | the insert appends exactly the row with the new id and the next timestamp, or fails with ItemInsertError's error and leaves the table unchanged; the highlights are untouched |
| Store.Database.AddContextHighlight | backend/database.js:242-280 | the insert appends exactly the row with a fresh id, or fails with HighlightInsertError's error and leaves the table unchanged; the items are untouched |
| Store.Database.DeleteFinancialItem | backend/database.js:102 | removing an item row unlinks its highlights and keeps them; the constraints still hold |
| Store.Database.GetFinancialItemsByOwner | backend/database.js:287-297 | exactly the owner's rows, a permutation of them, in ORDER BY purchase_date DESC, created_at DESC |
| Store.Database.FindFinancialItemByKeywordAndOwner | backend/database.js:299-308 | the owner's first row in that order whose vendor, product, subject or category contains the keyword; null exactly when none does |
| Store.Database.GetContextHighlightsForItem | backend/database.js:310-320 | exactly the highlights linked to the item, newest first |
| Store.Database.GetContextHighlightsByProductKeywordAndOwner | backend/database.js:322-337 | exactly the owner's unlinked highlights whose keyword contains the given one, ignoring case, newest first |
| OracleOutput.KeepPriceChars | backend/services/openAiService.js:97 | the replacement leaves only digits, '.' and '-' |
| OracleOutput.KeepPriceCharsKeepsPriceText | backend/services/openAiService.js:97 | a string of price characters is left as it is |
| OracleOutput.KeepPriceCharsAppend | backend/services/openAiService.js:97 | the replacement acts on each character independently, so it distributes over concatenation |
| OracleOutput.CoercePrice | backend/services/openAiService.js:95-100 | a string price becomes the number parseFloat reads from its digits, '.' and '-', or null when parseFloat gives NaN; any other price is unchanged |
| OracleOutput.InferCurrency | backend/services/openAiService.js:106-125 | only INR, EUR, GBP or USD can be inferred |
| OracleOutput.InferCurrencyByTable | backend/services/openAiService.js:109-124 | the if/else chain picks the first matching row of the table rupee/inr, euro/eur, pound/gbp, dollar |
| OracleOutput.SettleCurrency | backend/services/openAiService.js:101-125 | only the currency changes; a non-empty string currency is upper-cased; a falsy one is inferred when the price is not null; otherwise it is left alone |
| OracleOutput.FormattedDateIsStrict | backend/services/openAiService.js:134-136 | a re-rendered date with a four-digit year passes the YYYY-MM-DD test |
| OracleOutput.SettleDate | backend/services/openAiService.js:127-152 | only the date changes: a truthy date that fails the test is re-rendered, or set to null when it is invalid |
| OracleOutput.PostProcess | backend/services/openAiService.js:95-154 | the in-place updates equal the three steps, in the order price, currency, date |
| OracleOutput.NormalisedKeepsOtherFields | backend/services/openAiService.js:95-154 | vendor, product, original amount and currency, billing cycle and category pass through untouched |
| OracleOutput.NormalisedShapes | backend/services/openAiService.js:95-152 | the price is never a string afterwards, a string currency is upper-case, and a date appears only if one was given |
| OracleOutput.NormalisedSettlesPriceAndCurrency | backend/services/openAiService.js:95-125 | post-processing its own output changes neither price nor currency |
| OracleOutput.NormalisedDateIsStrict | backend/services/openAiService.js:127-152 | a given date ends up in YYYY-MM-DD form or null when the parsed year has four digits |
| OracleOutput.StructuredData | backend/services/openAiService.js:31-37 | no answer when subject and body are both empty or when the call fails; otherwise the post-processed object |
| Intake.AngleCaptureSpec | backend/server.js:109-111 | /<([^>]+)>/ matches exactly when a bracketed span exists, and the capture is the leftmost span's inside |
| Intake.AngleCaptureOfNameAddr | backend/server.js:109-111 | for `Name <address>`, the capture is the address |
| Intake.OwnerEmail | backend/server.js:94-115 | the owner is FromFull.Email when truthy, else the first element's Email of a FromFull array, else the address taken from From, lower-cased; there is none exactly when no source applies; an owner is non-empty and lower-case |
| Intake.OwnerFromHeader | backend/server.js:108-115 | without a usable FromFull, there is no owner exactly when From has no bracketed span and contains '<' or no '@'; a bare address is lower-cased |
| Intake.MentionsAny | backend/server.js:142-144 | true exactly when some financial keyword occurs in the subject or the body |
| Intake.VendorMentioned | backend/server.js:156-163 | true exactly when some common vendor occurs both in the lower-cased sender and in the subject or body |
| Intake.IsPotentiallyFinancial | backend/server.js:129-163 | a delivery looks financial exactly when a financial keyword occurs in the lower-cased subject or body, or, with From present, a common vendor occurs both in the lower-cased sender and in the subject or body |
| Intake.PassesGateAsWritten | backend/server.js:174-179 | the corrected gate (vendor and an amount) implies the one as written, and the two differ exactly on an answer that names a vendor but has no original_amount key |
| Intake.JsRem | backend/server.js:209 | JavaScript's % agrees with the Euclidean remainder for a non-negative dividend and stays within the divisor |
| Intake.TwoDigitYearSuffix | backend/server.js:199-206 | a suffix is found exactly when the date string ends in '/', '-' or '.' followed by two digits, and its value is the number those two digits spell |
| Intake.WindowYearSpec | backend/server.js:206-216 | the chosen year keeps the two digits, lies in 1900..2099, and is in the 2000s exactly for years up to ten past the current one |
| Intake.PurchaseDateIso | backend/server.js:187-225 | a missing or empty date gives none; a YYYY-MM-DD date is read as UTC midnight, none when invalid; any other date is parsed, none when invalid, and a year before 2000 with a two-digit suffix is moved into the window before rendering |
| Intake.RecordedDate | backend/server.js:187-229 | the converted purchase date when there is one; otherwise the rendered Date header, or the rendered current time when there is no header; a throw exactly when the header cannot be parsed |
| Intake.TwoDigitYearsAreWindowed | backend/server.js:198-219 | a re-parsed date before 2000 with a two-digit year suffix is recorded with its year moved into the window |
| Intake.RateOr | backend/server.js:21-23 | a setting that is present, parses and is non-zero is the rate; in every other case the fallback is |
| Intake.ConfiguredRates | backend/server.js:21-23 | no configured rate is ever zero |
| Intake.RoundCents | backend/server.js:252-262 | toFixed(2) gives a whole number of cents, at most half a cent from the value, with its sign |
| Intake.Convert | backend/server.js:252-262 | a converted amount is a whole number of cents within half a cent of amount times rate |
| Intake.ShownAsWritten | backend/server.js:248-286 | the conversion block as written: a null amount leaves nothing shown |
| Intake.ShownFor | backend/server.js:248-286 | INR, EUR and GBP are shown in USD as a whole number of cents within half a cent of amount times rate; another code shows the amount in that code; no code shows it in USD |
| Intake.ShownAgrees | backend/server.js:248-286 | for an amount that is present, the block as written and the corrected one agree |
| Intake.GateAdmitsMissingAmount | backend/server.js:175-179 | an answer without original_amount passes the gate as written but not the corrected one, and is shown as USD with no amount |
| Intake.ItemForShowsAmount | backend/server.js:231-246 | a recorded item has an amount, a display amount, a display currency, a category, an upper-case currency code, this owner and this message id |
| Intake.BuildItem | backend/server.js:231-286 | the object literal followed by the conversion block builds exactly the specified item |
| Intake.RecognisesTranslatedClash | backend/server.js:302-306 | the rewritten duplicate error is recognised as a duplicate, whatever the message id |
| Intake.IsUniqueViolation | backend/server.js:302-306 | code 23505 is always a duplicate; an error with another code is one only when its message, upper-cased, contains "UNIQUE CONSTRAINT" and it names source_email_message_id |
| Intake.DuplicateInsertRecognised | backend/server.js:300-307 | inserting an item whose message id is already stored fails with an error the handler treats as a duplicate |
| Intake.FindByMessageId | backend/server.js:311-316 | find returns a row of the list with that message id, and nothing when no row has it or the message id is absent |
| Webhook.ProposedItemShape | backend/server.js:165-246 | a proposed item belongs to the owner, carries the delivery's subject and message id, names a vendor and shows an amount |
| Webhook.RedeliveryFindsItem | backend/server.js:311-316 | a redelivered message finds the item its first delivery recorded for the same owner |
| Webhook.Recorded | backend/server.js:165-328 | the item the delivery is tied to belongs to the owner and carries the delivery's message id; it is either already stored or the row just inserted |
| Webhook.RecordedItems | backend/server.js:288-328 | recording adds at most one row, of this owner and this message id, none for a message id already stored, and a row is added exactly when the answer is that new row |
| Webhook.ProposeItem | backend/server.js:130-286 | classification, the model's answer, the gate, the date and the item literal give exactly the proposed item |
| Webhook.RecordItem | backend/server.js:288-328 | the answer and the new items table are those of Recorded and RecordedItems: nothing without a proposed item; the inserted row on success; the owner's existing row with that message id on a duplicate; a failure on any other database error; the highlights are untouched |
| Webhook.LinkForSpec | backend/server.js:355-386 | a link names one of the owner's items whose vendor or product contains the keyword, or, without a keyword, this delivery's item; this delivery's item is linked exactly when the keyword is absent or its names contain it; with no item of its own, a highlight goes to the owner's first keyword match in newest-first order only when that match's vendor or product contains the keyword, stays unlinked without a keyword, and stays unlinked when no owner item matches |
| Webhook.LinkHighlight | backend/server.js:356-389 | the candidate search and the link tests set exactly the specified link |
| Webhook.LinkedAll | backend/server.js:355-389 | each highlight receives its own link, in order |
| Webhook.StoredWithoutFaults | backend/server.js:402-409 | without write faults, highlights whose links name existing items are all stored, in order |
| Webhook.LinkedAllStored | backend/server.js:355-410 | extracted highlights come unlinked and links name existing items, so without write faults every highlight is stored |
| Webhook.StoredStep | backend/server.js:402-409 | a turn appends its highlight exactly when the insert succeeds; a failed insert is skipped |
| Webhook.StoreOne | backend/server.js:355-410 | one turn of the loop keeps the invariant: the new rows are the stored highlights so far |
| Webhook.StoreHighlights | backend/server.js:350-421 | the loop adds exactly the linked highlights whose inserts succeed, in order, and leaves the items alone |
| Webhook.Handled | backend/server.js:86-466 | no owner exactly when the response is 200 without work; a database fault in the response is the item half's; a saved item belongs to the owner and carries the message id |
| Webhook.HandleInboundEmail | backend/server.js:86-466 | the response is Handled: 200 without work when there is no owner; 500 when the item half or the extractor fails; otherwise 200 with the saved item. The items table becomes RecordedItems; a 500 adds no highlight; after a 200 the new highlights are exactly the extractor's output, linked, minus failed writes |
| DashboardApi.ItemKeyword | backend/server.js:486-488 | the keyword is the vendor when truthy, else the product when truthy, else the category; it is truthy exactly when one of the three is |
| DashboardApi.Merged | backend/server.js:494-498 | the merge keeps the item's highlights as a prefix, adds only keyword highlights, lists every keyword highlight's id, and never repeats an id |
| DashboardApi.MergedDisjoint | backend/server.js:494-498 | with no shared ids, the merge is plain concatenation |
| DashboardApi.MergeById | backend/server.js:494-498 | the forEach with find computes the merge |
| DashboardApi.DifferentRowsDifferentIds | backend/database.js:93 | two different highlight rows have different ids |
| DashboardApi.ContextIsConcatenation | backend/server.js:484-499 | the context is the item's linked highlights followed by the keyword highlights; the de-duplication never drops a row |
| DashboardApi.ContextMembership | backend/server.js:484-499 | a highlight is in an item's context exactly when it is linked to the item, or when it is the owner's unlinked highlight whose keyword contains the item's keyword |
| DashboardApi.ContextDistinct | backend/server.js:494-498 | no highlight appears twice in an item's context |
| DashboardApi.ItemContext | backend/server.js:484-499 | the loop body computes an item's context |
| DashboardApi.Listing | backend/server.js:484-504 | one entry per owner's item, in the store's order, each with its context |
| DashboardApi.ItemsWithContext | backend/server.js:469-505 | an empty owner parameter gives 400; otherwise the listing for the lower-cased owner |

## Left out

- Slack notifications (server.js:47-83, 293-299, 412-447): outgoing HTTP only. They affect neither the tables nor the response.
- The chat-completion call, its prompt and JSON.parse (openAiService.js:39-93): the reply is a parameter. A failed call, empty content or non-JSON content each yield null.
- The sentence tokeniser, the word tokeniser and the AFINN sentiment scorer: the sentences and their scores are parameters.
- The contents of KNOWN_SERVICES and CONTEXT_INDICATOR_KEYWORDS: the constants file is not part of this model, so the tables are a parameter.
- initializeDb, the pool configuration and the column migrations (database.js:5-167): only the schema's constraints are modelled, as the class invariant.
- The ICS export and the other endpoints of server.js: outside the modelled core.
- Unicode case mapping: toLowerCase and toUpperCase are modelled on ASCII letters only.
- ILIKE patterns: a keyword is a plain substring, case-insensitive for ASCII. `%` and `_` inside a keyword are not treated as wildcards.
- Text order of purchase_date follows code points, that is, C collation. Other database collations are not modelled.
- created_at is a logical clock that grows with every insert, and UUIDs are natural numbers never handed out twice. Wall-clock ties are not modelled.
- JSON values other than strings and null are not modelled for the fields the pipeline only copies: vendor, product, billing cycle and category.
- original_amount is either a number, null or missing. A string amount is not modelled; JavaScript would coerce it in the multiplication and store it as given.
- original_currency is either a string or missing. A non-string currency is not modelled; its `toUpperCase()` would throw and end the delivery with a 500.
- purchase_date is either a string or missing. A numeric date is not modelled; JavaScript would read it as a timestamp.
- ContextExtractor.Qualifies: lengths count Unicode code points, while JavaScript's `length` counts UTF-16 code units. Text outside the Basic Multilingual Plane therefore gets a smaller length here.
- ContextExtractor.FallbackApplies: the body length counts Unicode code points, not UTF-16 code units.
- ContextExtractor.FallbackText: the 200-character prefix counts Unicode code points, not UTF-16 code units.
- FromFull elements that are null, and From values that are not strings, are not modelled. Such payloads would make the handler throw.
- Intake.RoundCents: is stated as a whole number of cents within half a cent of the exact value. Binary floating point, and the effect of toFixed's rounding of binary values, are not modelled.
- Intake.Convert: the same bound as RoundCents, over exact reals rather than binary floating point.
- Intake.ShownFor: the same bound as RoundCents for the converted codes, over exact reals rather than binary floating point.
- Date parsing, getFullYear and toISOString are given functions. The range limit of toISOString is not modelled, apart from the throw on an Invalid Date.
- Faults of the SELECT queries are not modelled: reads always succeed. A failure in the GET endpoint's queries (the 500 at server.js:506-512) is therefore not modelled.
- actuallyLinkedHighlightsCount only feeds the Slack message, so it is not modelled.
- Console logging: no effect on state.

## Findings

| source | as written | input that shows it | evidently intended | confidence | as-written member | corrected member |
|---|---|---|---|---|---|---|
| backend/server.js:175-179 | the gate tests `original_amount !== null`, which is true for an answer that lacks the key (undefined); the conversion block at 249-285 then sets currency_display "USD" (and amount_display NaN for INR, EUR or GBP) while original_amount is stored NULL, contrary to the comment at 286 | the answer `{"vendor_name": "Netflix"}` with no original_amount key | only an answer with an amount passes the gate, so a recorded item always shows an amount | not executed | Intake.GateAdmitsMissingAmount | Intake.ItemForShowsAmount |
