/**
 * The inbound-email webhook: it finds the owner, records at most one financial item for the
 * delivery (or finds the one an earlier delivery of the same message recorded), extracts the
 * context highlights and stores each of them, linked to an item when the rules allow.
 */
module Webhook {
  import opened Wrappers
  import opened Text
  import opened Records
  import opened ContextExtractor
  import opened OracleOutput
  import opened Store
  import opened Intake

  /** Why a delivery ended in the 500 response: a database error or a thrown JavaScript error. */
  datatype WebhookFault = DatabaseFault(dbError: DbError) | ScriptFault(jsError: JsError)

  /** The response: 200 without processing, 200 after processing (with the item the delivery is tied to), or 500. */
  datatype Outcome = SenderUnknown | Processed(saved: Option<ItemRow>) | Failed(fault: WebhookFault)

  // ---------------------------------------------------------------- the financial item

  /**
   * The item the delivery asks to record: none when it does not look financial or the answer
   * fails the gate, a thrown error when the fallback date cannot be rendered.
   */
  function Proposed(owner: string, p: Payload, reply: OracleReply, rt: Runtime, rates: Rates): Option<Result<FinancialItem, JsError>> {
    if !IsPotentiallyFinancial(p) then None
    else
      var data := StructuredData(p.subject, p.textBody, reply, rt);
      if !PassesGate(data) then None
      else
        match RecordedDate(data.value.purchaseDate, p.date, rt)
        case Failure(e) => Some(Failure(e))
        case Success(date) => Some(Success(ItemFor(owner, p, data.value, date, rates)))
  }

  /** Every proposed item belongs to the owner, carries the delivery's message id and shows an amount. */
  lemma ProposedItemShape(owner: string, p: Payload, reply: OracleReply, rt: Runtime, rates: Rates)
    requires Proposed(owner, p, reply, rt, rates).Some? && Proposed(owner, p, reply, rt, rates).value.Success?
    ensures var item := Proposed(owner, p, reply, rt, rates).value.value;
            item.ownerEmail == owner && item.messageId == p.messageId && item.rawSubject == p.subject
            && item.amountDisplay.Some? && Truthy(item.currencyDisplay) && Truthy(item.vendorName)
  {
    var data := StructuredData(p.subject, p.textBody, reply, rt);
    var date := RecordedDate(data.value.purchaseDate, p.date, rt).value;
    ItemForShowsAmount(owner, p, data.value, date, rates);
  }

  /** A redelivered message finds the item its first delivery recorded for the same owner. */
  lemma RedeliveryFindsItem(items: seq<ItemRow>, clock: nat, nextId: nat, owner: string, row: ItemRow)
    requires ItemsConsistent(items, clock, nextId)
    requires row in items && row.item.ownerEmail == owner && row.item.messageId.Some?
    ensures FindByMessageId(RankRows(OwnerRows(items, owner)), row.item.messageId) == Some(row)
  {
    var rows := RankRows(OwnerRows(items, owner));
    RankRowsMembers(OwnerRows(items, owner));
    assert row in rows;
    var found := FindByMessageId(rows, row.item.messageId);
    assert found.Some?;
    var i :| 0 <= i < |items| && items[i] == found.value;
    var j :| 0 <= j < |items| && items[j] == row;
    assert i == j;
  }

  /**
   * What recording an item may do to the items table: append at most one row, of this owner and
   * this message id, and none when the message id is already stored.
   */
  predicate ItemsGrewBy(before: seq<ItemRow>, after: seq<ItemRow>, owner: string, messageId: Option<string>) {
    && before <= after && |after| <= |before| + 1
    && (forall i :: |before| <= i < |after| ==> after[i].item.ownerEmail == owner && after[i].item.messageId == messageId)
    && (messageId.Some? && MessageIdTaken(before, messageId.value) ==> after == before)
  }

  /**
   * What the item half answers, given the items table and the counters before it: nothing to
   * record, the row just inserted, the row an earlier delivery of the message recorded (on a
   * duplicate), or the fault that ends the delivery with a 500.
   */
  function Recorded(items: seq<ItemRow>, nextId: nat, clock: nat, owner: string, p: Payload, reply: OracleReply,
                    rt: Runtime, rates: Rates, fault: Option<DbError>): (r: Result<Option<ItemRow>, WebhookFault>)
    ensures r.Success? && r.value.Some? ==>
              r.value.value.item.ownerEmail == owner && r.value.value.item.messageId == p.messageId
              && (r.value.value in items || r.value.value.id == nextId)
  {
    match Proposed(owner, p, reply, rt, rates)
    case None => Success(None)
    case Some(Failure(e)) => Failure(ScriptFault(e))
    case Some(Success(item)) =>
      ProposedItemShape(owner, p, reply, rt, rates);
      match ItemInsertError(items, item, nextId, fault)
      case None => Success(Some(ItemRow(nextId, item, clock)))
      case Some(e) =>
        if IsUniqueViolation(e) then
          RankRowsMembers(OwnerRows(items, owner));
          Success(FindByMessageId(RankRows(OwnerRows(items, owner)), p.messageId))
        else Failure(DatabaseFault(e))
  }

  /** The items table after the item half: one row more exactly when the insert went through. */
  function RecordedItems(items: seq<ItemRow>, nextId: nat, clock: nat, owner: string, p: Payload, reply: OracleReply,
                         rt: Runtime, rates: Rates, fault: Option<DbError>): (r: seq<ItemRow>)
    ensures ItemsGrewBy(items, r, owner, p.messageId)
    ensures r == items
            || (|r| == |items| + 1 && Recorded(items, nextId, clock, owner, p, reply, rt, rates, fault) == Success(Some(r[|items|])))
  {
    match Proposed(owner, p, reply, rt, rates)
    case Some(Success(item)) =>
      ProposedItemShape(owner, p, reply, rt, rates);
      if ItemInsertError(items, item, nextId, fault).None? then items + [ItemRow(nextId, item, clock)] else items
    case _ => items
  }

  /** The item half up to the insert: classify, ask the model, apply the gate, then date and build the item. */
  method ProposeItem(owner: string, p: Payload, reply: OracleReply, rt: Runtime, rates: Rates)
    returns (pr: Option<Result<FinancialItem, JsError>>)
    ensures pr == Proposed(owner, p, reply, rt, rates)
    ensures pr.Some? && pr.value.Success? ==> pr.value.value.ownerEmail == owner && pr.value.value.messageId == p.messageId
  {
    if !IsPotentiallyFinancial(p) {
      return None;
    }
    var data := StructuredData(p.subject, p.textBody, reply, rt);
    if !PassesGate(data) {
      return None;
    }
    var date := RecordedDate(data.value.purchaseDate, p.date, rt);
    if date.Failure? {
      return Some(Failure(date.error));
    }
    var item := BuildItem(owner, p, data.value, date.value, rates);
    return Some(Success(item));
  }

  /**
   * The item half of the handler: classify, ask the model, apply the gate, build and insert the
   * item; on a duplicate read the existing one back, on any other database error give up.
   */
  method RecordItem(db: Database, owner: string, p: Payload, reply: OracleReply, rt: Runtime, rates: Rates, fault: Option<DbError>)
    returns (r: Result<Option<ItemRow>, WebhookFault>)
    requires db.Valid()
    modifies db
    ensures db.Valid()
    ensures db.highlights == old(db.highlights)
    ensures r == Recorded(old(db.items), old(db.nextId), old(db.clock), owner, p, reply, rt, rates, fault)
    ensures db.items == RecordedItems(old(db.items), old(db.nextId), old(db.clock), owner, p, reply, rt, rates, fault)
    ensures r.Success? && r.value.Some? ==> r.value.value in db.items && r.value.value.item.ownerEmail == owner
    ensures ItemsGrewBy(old(db.items), db.items, owner, p.messageId)
  {
    var pr := ProposeItem(owner, p, reply, rt, rates);
    if pr.None? {
      return Success(None);
    }
    if pr.value.Failure? {
      return Failure(ScriptFault(pr.value.error));
    }
    var item := pr.value.value;
    var inserted := db.AddFinancialItem(item, None, fault);
    if inserted.Success? {
      return Success(Some(inserted.value));
    }
    if IsUniqueViolation(inserted.error) {
      var mine := db.GetFinancialItemsByOwner(owner);
      var existing := FindByMessageId(mine, p.messageId);
      return Success(existing);
    }
    return Failure(DatabaseFault(inserted.error));
  }

  // ---------------------------------------------------------------- linking highlights

  /** The `?.toLowerCase().includes(keyword.toLowerCase())` test on vendor and product name. */
  predicate NamesKeyword(r: ItemRow, keyword: string) {
    (r.item.vendorName.Some? && ContainsIgnoringCase(r.item.vendorName.value, keyword))
    || (r.item.productName.Some? && ContainsIgnoringCase(r.item.productName.value, keyword))
  }

  /** The item a highlight is offered to: this delivery's item, else (with a keyword) the owner's first keyword match. */
  function Candidate(items: seq<ItemRow>, owner: string, saved: Option<ItemRow>, h: Highlight): Option<ItemRow> {
    if saved.Some? then saved
    else if Truthy(h.productKeyword) then FirstMatching(RankRows(OwnerRows(items, owner)), h.productKeyword.value)
    else None
  }

  /**
   * The link a highlight gets: with a keyword, the candidate when its vendor or product name
   * contains the keyword; without one, this delivery's item.
   */
  function LinkFor(items: seq<ItemRow>, owner: string, saved: Option<ItemRow>, h: Highlight): Option<ItemId> {
    var c := Candidate(items, owner, saved, h);
    if c.None? then None
    else if Truthy(h.productKeyword) then (if NamesKeyword(c.value, h.productKeyword.value) then Some(c.value.id) else None)
    else if saved.Some? && c.value.id == saved.value.id then Some(saved.value.id)
    else None
  }

  /** The highlight as written: with its link set when one was established, untouched otherwise. */
  function Linked(items: seq<ItemRow>, owner: string, saved: Option<ItemRow>, h: Highlight): Highlight {
    var link := LinkFor(items, owner, saved, h);
    if link.Some? then h.(financialItemId := link) else h
  }

  /**
   * A link only ever points at one of the owner's items; with a keyword, one whose vendor or
   * product name contains it; without a keyword, this delivery's item. Conversely, this
   * delivery's item is linked whenever the keyword is absent or its names contain the keyword.
   * With no item of its own, a highlight with a keyword goes to the owner's first item in
   * newest-first order whose vendor, product, subject or category contains the keyword, and
   * only when that item's vendor or product name contains it; without a keyword, it stays unlinked.
   */
  lemma LinkForSpec(items: seq<ItemRow>, owner: string, saved: Option<ItemRow>, h: Highlight)
    requires saved.Some? ==> saved.value in items && saved.value.item.ownerEmail == owner
    ensures var link := LinkFor(items, owner, saved, h);
            link.Some? ==> exists r :: r in items && r.id == link.value && r.item.ownerEmail == owner
                                       && (Truthy(h.productKeyword) ==> NamesKeyword(r, h.productKeyword.value))
                                       && (!Truthy(h.productKeyword) ==> saved == Some(r))
    ensures saved.Some? ==>
              (LinkFor(items, owner, saved, h) == Some(saved.value.id) <==>
                 !Truthy(h.productKeyword) || NamesKeyword(saved.value, h.productKeyword.value))
    ensures saved.Some? ==> LinkFor(items, owner, saved, h).None? || LinkFor(items, owner, saved, h) == Some(saved.value.id)
    ensures saved.None? && !Truthy(h.productKeyword) ==> LinkFor(items, owner, saved, h).None?
    ensures saved.None? && Truthy(h.productKeyword) ==>
              var c := FirstMatching(RankRows(OwnerRows(items, owner)), h.productKeyword.value);
              LinkFor(items, owner, saved, h) == (if c.Some? && NamesKeyword(c.value, h.productKeyword.value) then Some(c.value.id) else None)
    ensures saved.None? && Truthy(h.productKeyword)
            && (forall r :: r in items && r.item.ownerEmail == owner ==> !MatchesKeyword(r, h.productKeyword.value)) ==>
              LinkFor(items, owner, saved, h).None?
  {
    var c := Candidate(items, owner, saved, h);
    if saved.None? && Truthy(h.productKeyword) {
      var own := OwnerRows(items, owner);
      RankRowsMembers(own);
    }
    if LinkFor(items, owner, saved, h).Some? {
      assert c.value in items && c.value.item.ownerEmail == owner;
    }
  }

  /** The k-th write's fault, none past the end of the list. */
  function WriteFault(faults: seq<Option<DbError>>, k: nat): Option<DbError> {
    if k < |faults| then faults[k] else None
  }

  /** The offered highlights as the loop writes them, each with the link the rules give it. */
  function LinkedAll(items: seq<ItemRow>, owner: string, saved: Option<ItemRow>, hs: seq<Highlight>): (ls: seq<Highlight>)
    ensures |ls| == |hs| && forall i :: 0 <= i < |hs| ==> ls[i] == Linked(items, owner, saved, hs[i])
  {
    if hs == [] then [] else LinkedAll(items, owner, saved, hs[..|hs| - 1]) + [Linked(items, owner, saved, hs[|hs| - 1])]
  }

  /** The highlights stored by the first n turns of the loop: each one whose insert did not fail. */
  function Stored(items: seq<ItemRow>, ls: seq<Highlight>, faults: seq<Option<DbError>>, n: nat): (r: seq<Highlight>)
    requires n <= |ls|
    ensures |r| <= n
  {
    if n == 0 then []
    else
      Stored(items, ls, faults, n - 1)
      + (if HighlightAccepted(items, ls[n - 1], WriteFault(faults, n - 1)) then [ls[n - 1]] else [])
  }

  /** The highlight column of some rows. */
  function Contents(rows: seq<HighlightRow>): (r: seq<Highlight>)
    ensures |r| == |rows| && forall i :: 0 <= i < |rows| ==> r[i] == rows[i].highlight
  {
    if rows == [] then [] else Contents(rows[..|rows| - 1]) + [rows[|rows| - 1].highlight]
  }

  /** Without write faults, highlights whose links name existing items are all stored, in order. */
  lemma {:induction false} StoredWithoutFaults(items: seq<ItemRow>, ls: seq<Highlight>, n: nat)
    requires n <= |ls|
    requires forall i :: 0 <= i < |ls| && ls[i].financialItemId.Some? ==> HasItem(items, ls[i].financialItemId.value)
    ensures Stored(items, ls, [], n) == ls[..n]
  {
    if n > 0 {
      StoredWithoutFaults(items, ls, n - 1);
      assert ls[..n] == ls[..n - 1] + [ls[n - 1]];
    }
  }

  /** Extracted highlights come unlinked and links only name existing items, so without write faults all are stored. */
  lemma LinkedAllStored(items: seq<ItemRow>, owner: string, saved: Option<ItemRow>, hs: seq<Highlight>)
    requires saved.Some? ==> saved.value in items && saved.value.item.ownerEmail == owner
    requires forall i :: 0 <= i < |hs| ==> hs[i].financialItemId.None?
    ensures Stored(items, LinkedAll(items, owner, saved, hs), [], |hs|) == LinkedAll(items, owner, saved, hs)
  {
    var ls := LinkedAll(items, owner, saved, hs);
    forall i | 0 <= i < |ls| && ls[i].financialItemId.Some? ensures HasItem(items, ls[i].financialItemId.value) {
      LinkForSpec(items, owner, saved, hs[i]);
    }
    StoredWithoutFaults(items, ls, |ls|);
    assert ls[..|ls|] == ls;
  }

  /** One turn of the loop appends the turn's highlight to the stored ones exactly when its insert succeeds. */
  lemma StoredStep(items: seq<ItemRow>, ls: seq<Highlight>, faults: seq<Option<DbError>>, k: nat,
                   before: seq<HighlightRow>, prior: seq<HighlightRow>, after: seq<HighlightRow>, row: HighlightRow)
    requires k < |ls| && before <= prior
    requires Contents(prior[|before|..]) == Stored(items, ls, faults, k)
    requires var e := HighlightInsertError(items, ls[k], WriteFault(faults, k));
             && (e.Some? ==> after == prior)
             && (e.None? ==> after == prior + [row] && row.highlight == ls[k])
    ensures before <= after
    ensures Contents(after[|before|..]) == Stored(items, ls, faults, k + 1)
  {
    if HighlightAccepted(items, ls[k], WriteFault(faults, k)) {
      assert after[|before|..] == prior[|before|..] + [row];
      assert after[|before|..][..|after| - |before| - 1] == prior[|before|..];
    }
  }

  /** One turn's linking: find the candidate item and set the highlight's link when the rules allow. */
  method LinkHighlight(db: Database, owner: string, saved: Option<ItemRow>, offered: Highlight) returns (h: Highlight)
    requires db.Valid()
    ensures h == Linked(db.items, owner, saved, offered)
  {
    h := offered;
    var candidate := saved;
    if candidate.None? && Truthy(h.productKeyword) {
      candidate := db.FindFinancialItemByKeywordAndOwner(h.productKeyword.value, owner);
    }
    var link: Option<ItemId> := None;
    if candidate.Some? {
      if Truthy(h.productKeyword) {
        if NamesKeyword(candidate.value, h.productKeyword.value) {
          link := Some(candidate.value.id);
        }
      } else if saved.Some? {
        if candidate.value.id == saved.value.id {
          link := Some(saved.value.id);
        }
      }
    }
    if link.Some? {
      h := h.(financialItemId := link);
    }
  }

  /** One turn of the highlight loop: link the k-th highlight and insert it, logging a failed insert. */
  method StoreOne(db: Database, owner: string, saved: Option<ItemRow>, hs: seq<Highlight>, faults: seq<Option<DbError>>,
                  k: nat, ghost ls: seq<Highlight>, ghost before: seq<HighlightRow>)
    requires k < |hs| && ls == LinkedAll(db.items, owner, saved, hs)
    requires db.Valid() && before <= db.highlights
    requires Contents(db.highlights[|before|..]) == Stored(db.items, ls, faults, k)
    modifies db
    ensures db.Valid() && db.items == old(db.items) && before <= db.highlights
    ensures Contents(db.highlights[|before|..]) == Stored(db.items, ls, faults, k + 1)
  {
    var h := LinkHighlight(db, owner, saved, hs[k]);
    ghost var prior := db.highlights;
    var written := db.AddContextHighlight(h, WriteFault(faults, k));
    ghost var row := if written.Success? then written.value else HighlightRow(0, h, 0);
    StoredStep(db.items, ls, faults, k, before, prior, db.highlights, row);
  }

  /**
   * The highlight loop: offer each highlight to a candidate item, set the link when the rules
   * allow, and insert it; a failed insert is logged and the loop goes on.
   */
  method StoreHighlights(db: Database, owner: string, saved: Option<ItemRow>, hs: seq<Highlight>, faults: seq<Option<DbError>>)
    requires db.Valid()
    modifies db
    ensures db.Valid()
    ensures db.items == old(db.items)
    ensures old(db.highlights) <= db.highlights
    ensures Contents(db.highlights[|old(db.highlights)|..]) == Stored(old(db.items), LinkedAll(old(db.items), owner, saved, hs), faults, |hs|)
  {
    ghost var before := db.highlights;
    ghost var ls := LinkedAll(db.items, owner, saved, hs);
    var k := 0;
    while k < |hs|
      invariant k <= |hs|
      invariant db.Valid() && db.items == old(db.items)
      invariant before <= db.highlights
      invariant Contents(db.highlights[|before|..]) == Stored(db.items, ls, faults, k)
    {
      StoreOne(db, owner, saved, hs, faults, k, ls, before);
      k := k + 1;
    }
  }

  // ---------------------------------------------------------------- the handler

  /**
   * The response to a delivery, given the tables and counters before it: 200 without work when
   * no owner can be found; a 500 when recording the item or extracting the highlights throws;
   * otherwise 200 with the item the delivery is tied to. A failed highlight write is only logged.
   */
  function Handled(items: seq<ItemRow>, nextId: nat, clock: nat, p: Payload, reply: OracleReply, rt: Runtime, rates: Rates,
                   tables: Tables, ss: seq<Sentence>, fallbackScore: real, itemFault: Option<DbError>): (r: Outcome)
    ensures r.SenderUnknown? <==> OwnerEmail(p).None?
    ensures r.Processed? && r.saved.Some? ==>
              r.saved.value.item.ownerEmail == OwnerEmail(p).value && r.saved.value.item.messageId == p.messageId
    ensures r.Failed? && r.fault.DatabaseFault? ==>
              Recorded(items, nextId, clock, OwnerEmail(p).value, p, reply, rt, rates, itemFault) == Failure(r.fault)
  {
    match OwnerEmail(p)
    case None => SenderUnknown
    case Some(owner) =>
      match Recorded(items, nextId, clock, owner, p, reply, rt, rates, itemFault)
      case Failure(f) => Failed(f)
      case Success(saved) =>
        match Extract(p.textBody, EmailContext(owner, p.subject, p.messageId), tables, ss, fallbackScore)
        case Failure(e) => Failed(ScriptFault(e))
        case Success(_) => Processed(saved)
  }

  /**
   * POST /webhook/email-inbound. The model's reply, the runtime, the rates, the extractor's
   * tables and sentence analysis, and the database faults are given; Slack is not modelled.
   */
  method HandleInboundEmail(db: Database, p: Payload, reply: OracleReply, rt: Runtime, rates: Rates,
                            tables: Tables, ss: seq<Sentence>, fallbackScore: real,
                            itemFault: Option<DbError>, writeFaults: seq<Option<DbError>>)
    returns (r: Outcome)
    requires db.Valid()
    modifies db
    ensures db.Valid()
    ensures r == Handled(old(db.items), old(db.nextId), old(db.clock), p, reply, rt, rates, tables, ss, fallbackScore, itemFault)
    ensures OwnerEmail(p).None? ==> db.items == old(db.items) && db.highlights == old(db.highlights)
    ensures OwnerEmail(p).Some? ==>
              db.items == RecordedItems(old(db.items), old(db.nextId), old(db.clock), OwnerEmail(p).value, p, reply, rt, rates, itemFault)
    ensures r.Failed? ==> db.highlights == old(db.highlights)
    ensures old(db.highlights) <= db.highlights
    ensures r.Processed? && r.saved.Some? ==>
              r.saved.value in db.items && Some(r.saved.value.item.ownerEmail) == OwnerEmail(p)
    ensures r.Processed? ==>
              var ex := Extract(p.textBody, EmailContext(OwnerEmail(p).value, p.subject, p.messageId), tables, ss, fallbackScore);
              && ex.Success?
              && Contents(db.highlights[|old(db.highlights)|..])
                 == Stored(db.items, LinkedAll(db.items, OwnerEmail(p).value, r.saved, ex.value), writeFaults, |ex.value|)
  {
    var owner := OwnerEmail(p);
    if owner.None? {
      return SenderUnknown;
    }
    var recorded := RecordItem(db, owner.value, p, reply, rt, rates, itemFault);
    if recorded.Failure? {
      return Failed(recorded.error);
    }
    var saved := recorded.value;
    var extracted: seq<Highlight> := [];
    if Truthy(p.textBody) {
      var ex := ExtractContextHighlights(p.textBody, EmailContext(owner.value, p.subject, p.messageId), tables, ss, fallbackScore);
      if ex.Failure? {
        return Failed(ScriptFault(ex.error));
      }
      extracted := ex.value;
    }
    StoreHighlights(db, owner.value, saved, extracted, writeFaults);
    return Processed(saved);
  }
}
