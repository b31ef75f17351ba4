/**
 * The two-table store of backend/database.js: FinancialItems and ContextHighlights, with the
 * constraints their CREATE TABLE statements declare (primary keys, the table-wide UNIQUE
 * source_email_message_id, the foreign key from a highlight to its item with ON DELETE SET
 * NULL) and the ordering of the SELECTs. Rows are kept in insertion order; created_at is a
 * logical clock that grows with every insert.
 */
module Store {
  import opened Wrappers
  import opened Text
  import opened Records

  datatype ItemRow = ItemRow(id: ItemId, item: FinancialItem, createdAt: nat)

  datatype HighlightRow = HighlightRow(id: ItemId, highlight: Highlight, createdAt: nat)

  /** A database error as node-postgres reports it, or as addFinancialItem rethrows it. */
  datatype DbError = DbError(code: string, constraint: Option<string>, message: string)

  const UniqueViolationCode := "23505"
  const ForeignKeyViolationCode := "23503"
  const TranslatedUniqueCode := "PG_UNIQUE_VIOLATION"
  const ItemKeyConstraint := "financialitems_pkey"
  const MessageIdColumn := "source_email_message_id"
  const MessageIdConstraint := "financialitems_" + MessageIdColumn + "_key"
  const HighlightItemConstraint := "contexthighlights_financial_item_id_fkey"
  const TranslatedUniqueLead := "UNIQUE constraint" + " failed: FinancialItems." + MessageIdColumn + " for value "

  /** The server's message texts for the two constraint violations. */
  const DuplicateKeyLead := "duplicate key value violates unique constraint \""
  const ForeignKeyMessage := "insert or update on table \"contexthighlights\" violates foreign key constraint \""
                             + HighlightItemConstraint + "\""

  function UniqueViolation(constraint: string): DbError {
    DbError(UniqueViolationCode, Some(constraint), DuplicateKeyLead + constraint + "\"")
  }

  function ForeignKeyViolation(): (e: DbError)
    ensures e.code == ForeignKeyViolationCode && e.constraint == Some(HighlightItemConstraint)
  {
    DbError(ForeignKeyViolationCode, Some(HighlightItemConstraint), ForeignKeyMessage)
  }

  /** How a template literal renders an absent message id. */
  function Rendered(s: Option<string>): string {
    if s.Some? then s.value else "undefined"
  }

  /** The catch block of addFinancialItem: a unique violation on the message-id constraint is rewritten, anything else passes unchanged. */
  function TranslateInsertError(err: DbError, messageId: Option<string>): (r: DbError)
    ensures r.code == TranslatedUniqueCode <==>
              (err.code == UniqueViolationCode && Truthy(err.constraint)
               && Contains(Lower(err.constraint.value), MessageIdColumn))
              || err.code == TranslatedUniqueCode
    ensures r.code == TranslatedUniqueCode && err.code != TranslatedUniqueCode ==>
              r.message == TranslatedUniqueLead + Rendered(messageId) && r.constraint.None?
    ensures r.code != TranslatedUniqueCode ==> r == err
  {
    if err.code == UniqueViolationCode && Truthy(err.constraint)
       && Contains(Lower(err.constraint.value), MessageIdColumn)
    then DbError(TranslatedUniqueCode, None, TranslatedUniqueLead + Rendered(messageId))
    else err
  }

  /** Lowering leaves a string without ASCII capitals as it is. */
  lemma {:induction false} LowerWithoutCapitals(s: string)
    requires forall i :: 0 <= i < |s| ==> !('A' <= s[i] <= 'Z')
    ensures Lower(s) == s
  {
    if s != [] {
      LowerWithoutCapitals(s[1..]);
    }
  }

  /** The raw duplicate-key error of the message-id constraint is rewritten into the translated one. */
  lemma TranslateRecognisesMessageId(constraint: string, messageId: Option<string>)
    requires constraint == MessageIdConstraint
    ensures TranslateInsertError(UniqueViolation(constraint), messageId)
            == DbError(TranslatedUniqueCode, None, TranslatedUniqueLead + Rendered(messageId))
  {
    assert Contains(Lower(constraint), MessageIdColumn) by {
      LowerWithoutCapitals(constraint);
      ContainsAt(constraint, MessageIdColumn, 15);
    }
  }

  /** A primary-key clash is rethrown as it is. */
  lemma TranslateKeepsKeyViolation(constraint: string, messageId: Option<string>)
    requires constraint == ItemKeyConstraint
    ensures TranslateInsertError(UniqueViolation(constraint), messageId) == UniqueViolation(constraint)
  {
    NotContainsWhenShorter(Lower(constraint), MessageIdColumn);
  }

  lemma {:induction false} NotContainsWhenShorter(s: string, pat: string)
    requires |s| < |pat|
    ensures !Contains(s, pat)
  {
    if s != [] {
      NotContainsWhenShorter(s[1..], pat);
    }
  }

  // ---------------------------------------------------------------- row predicates

  predicate HasItem(rows: seq<ItemRow>, id: ItemId) {
    exists r :: r in rows && r.id == id
  }

  predicate HasHighlight(rows: seq<HighlightRow>, id: ItemId) {
    exists r :: r in rows && r.id == id
  }

  predicate MessageIdTaken(rows: seq<ItemRow>, messageId: string) {
    exists r :: r in rows && r.item.messageId == Some(messageId)
  }

  /** A purchase date that comes earlier in ORDER BY purchase_date DESC: NULL first, then the larger text. */
  predicate DateAhead(a: Option<string>, b: Option<string>) {
    (a.None? && b.Some?) || (a.Some? && b.Some? && StrLess(b.value, a.value))
  }

  /** `a` comes strictly before `b` in ORDER BY purchase_date DESC, created_at DESC. */
  predicate Precedes(a: ItemRow, b: ItemRow) {
    DateAhead(a.item.purchaseDate, b.item.purchaseDate)
    || (a.item.purchaseDate == b.item.purchaseDate && a.createdAt > b.createdAt)
  }

  predicate Ranked(rows: seq<ItemRow>) {
    forall i, j :: 0 <= i < j < |rows| ==> !Precedes(rows[j], rows[i])
  }

  lemma PrecedesAsymmetric(a: ItemRow, b: ItemRow)
    ensures !(Precedes(a, b) && Precedes(b, a))
  {
    if a.item.purchaseDate.Some? && b.item.purchaseDate.Some? {
      var x, y := a.item.purchaseDate.value, b.item.purchaseDate.value;
      StrLessIrreflexive(x);
      if StrLess(x, y) && StrLess(y, x) {
        StrLessTransitive(x, y, x);
      }
    }
  }

  /** Whatever `b` is, it comes after `a` or before `c` when `a` comes before `c`. */
  lemma PrecedesNegativelyTransitive(a: ItemRow, b: ItemRow, c: ItemRow)
    requires Precedes(a, c)
    ensures Precedes(a, b) || Precedes(b, c)
  {
    var pa, pb, pc := a.item.purchaseDate, b.item.purchaseDate, c.item.purchaseDate;
    if pa.Some? && pb.Some? && pb.value != pa.value && !StrLess(pb.value, pa.value) {
      StrLessTotal(pa.value, pb.value);
      if pc.value != pa.value {
        StrLessTransitive(pc.value, pa.value, pb.value);
      }
    }
  }

  // ---------------------------------------------------------------- ranking

  /** Insert `r` in front of the first row it does not come after. */
  function InsertRanked(r: ItemRow, rows: seq<ItemRow>): (res: seq<ItemRow>)
    ensures multiset(res) == multiset(rows) + multiset{r}
  {
    if rows == [] || !Precedes(rows[0], r) then [r] + rows
    else
      assert rows == [rows[0]] + rows[1..];
      [rows[0]] + InsertRanked(r, rows[1..])
  }

  lemma {:induction false} InsertRankedKeepsRanked(r: ItemRow, rows: seq<ItemRow>)
    requires Ranked(rows)
    ensures Ranked(InsertRanked(r, rows))
  {
    if rows != [] && Precedes(rows[0], r) {
      InsertRankedKeepsRanked(r, rows[1..]);
      var res := InsertRanked(r, rows);
      var tail := InsertRanked(r, rows[1..]);
      assert res == [rows[0]] + tail;
      forall j | 0 < j < |res| ensures !Precedes(res[j], rows[0]) {
        var x := res[j];
        assert x in multiset(tail);
        if x == r {
          PrecedesAsymmetric(rows[0], r);
        } else {
          assert x in multiset(rows[1..]);
          var k :| 0 <= k < |rows[1..]| && rows[1..][k] == x;
          assert rows[k + 1] == x;
        }
      }
    } else {
      PrependKeepsRanked(r, rows);
    }
  }

  /** A row that the head of a ranked list does not precede can go in front of it. */
  lemma PrependKeepsRanked(r: ItemRow, rows: seq<ItemRow>)
    requires Ranked(rows) && (rows == [] || !Precedes(rows[0], r))
    ensures Ranked([r] + rows)
  {
    var res := [r] + rows;
    forall i, j | 0 <= i < j < |res| ensures !Precedes(res[j], res[i]) {
      if i == 0 {
        if j > 1 && Precedes(res[j], r) {
          PrecedesNegativelyTransitive(res[j], rows[0], r);
        }
      } else {
        assert res[i] == rows[i - 1] && res[j] == rows[j - 1];
      }
    }
  }

  /** The ORDER BY of getFinancialItemsByOwner and findFinancialItemByKeywordAndOwner. */
  function RankRows(rows: seq<ItemRow>): (res: seq<ItemRow>)
    ensures multiset(res) == multiset(rows)
  {
    if rows == [] then []
    else
      assert rows == [rows[0]] + rows[1..];
      InsertRanked(rows[0], RankRows(rows[1..]))
  }

  lemma {:induction false} RankRowsRanked(rows: seq<ItemRow>)
    ensures Ranked(RankRows(rows))
  {
    if rows != [] {
      RankRowsRanked(rows[1..]);
      InsertRankedKeepsRanked(rows[0], RankRows(rows[1..]));
    }
  }

  function OwnerRows(rows: seq<ItemRow>, owner: string): (res: seq<ItemRow>)
    ensures forall r :: r in res <==> r in rows && r.item.ownerEmail == owner
  {
    if rows == [] then []
    else (if rows[0].item.ownerEmail == owner then [rows[0]] else []) + OwnerRows(rows[1..], owner)
  }

  /** The `%keyword%` ILIKE test over vendor, product, subject and category (NULL never matches). */
  predicate MatchesKeyword(r: ItemRow, keyword: string) {
    (r.item.vendorName.Some? && ContainsIgnoringCase(r.item.vendorName.value, keyword))
    || (r.item.productName.Some? && ContainsIgnoringCase(r.item.productName.value, keyword))
    || (r.item.rawSubject.Some? && ContainsIgnoringCase(r.item.rawSubject.value, keyword))
    || (r.item.category.Some? && ContainsIgnoringCase(r.item.category.value, keyword))
  }

  lemma RankRowsMembers(rows: seq<ItemRow>)
    ensures forall r :: r in RankRows(rows) <==> r in rows
  {
    forall r ensures r in RankRows(rows) <==> r in rows {
      assert r in RankRows(rows) <==> r in multiset(RankRows(rows));
      assert r in rows <==> r in multiset(rows);
    }
  }

  /** LIMIT 1: the first row that matches. */
  function FirstMatching(rows: seq<ItemRow>, keyword: string): (r: Option<ItemRow>)
    ensures r.Some? ==> r.value in rows && MatchesKeyword(r.value, keyword)
  {
    if rows == [] then None
    else if MatchesKeyword(rows[0], keyword) then Some(rows[0])
    else FirstMatching(rows[1..], keyword)
  }

  /** In ranked rows, the first match comes no later than any other match, and None means no row matches. */
  lemma {:induction false} FirstMatchingInRanked(rows: seq<ItemRow>, keyword: string)
    requires Ranked(rows)
    ensures FirstMatching(rows, keyword).None? <==> forall x :: x in rows ==> !MatchesKeyword(x, keyword)
    ensures FirstMatching(rows, keyword).Some? ==>
              forall x :: x in rows && MatchesKeyword(x, keyword) ==> !Precedes(x, FirstMatching(rows, keyword).value)
  {
    if rows != [] {
      var rest := rows[1..];
      assert Ranked(rest) by {
        forall i, j | 0 <= i < j < |rest| ensures !Precedes(rest[j], rest[i]) {
          assert rest[i] == rows[i + 1] && rest[j] == rows[j + 1];
        }
      }
      FirstMatchingInRanked(rest, keyword);
      assert forall x :: x in rows <==> x == rows[0] || x in rest;
      if MatchesKeyword(rows[0], keyword) {
        forall x | x in rows && MatchesKeyword(x, keyword) ensures !Precedes(x, rows[0]) {
          if x == rows[0] {
            PrecedesAsymmetric(x, x);
          } else {
            var k :| 0 <= k < |rest| && rest[k] == x;
            assert rows[k + 1] == x;
          }
        }
      }
    }
  }

  /** The rows `keep` selects, last inserted first. */
  function SelectNewest(hs: seq<HighlightRow>, keep: HighlightRow -> bool): (rows: seq<HighlightRow>)
    ensures forall h :: h in rows <==> h in hs && keep(h)
  {
    if hs == [] then []
    else (if keep(hs[|hs| - 1]) then [hs[|hs| - 1]] else []) + SelectNewest(hs[..|hs| - 1], keep)
  }

  /** Rows listed newest first (ORDER BY created_at DESC with distinct stamps). */
  predicate NewestFirst(rows: seq<HighlightRow>) {
    forall i, j :: 0 <= i < j < |rows| ==> rows[i].createdAt > rows[j].createdAt
  }

  /** With stamps increasing along the table, the selection comes out newest first. */
  lemma {:induction false} SelectNewestOrdered(hs: seq<HighlightRow>, keep: HighlightRow -> bool)
    requires forall i, j :: 0 <= i < j < |hs| ==> hs[i].createdAt < hs[j].createdAt
    ensures NewestFirst(SelectNewest(hs, keep))
  {
    if hs != [] {
      var init := hs[..|hs| - 1];
      var last := hs[|hs| - 1];
      SelectNewestOrdered(init, keep);
      var tail := SelectNewest(init, keep);
      if keep(last) {
        var rows := [last] + tail;
        forall i, j | 0 <= i < j < |rows| ensures rows[i].createdAt > rows[j].createdAt {
          if i == 0 {
            assert rows[j] in init;
          } else {
            assert rows[i] == tail[i - 1] && rows[j] == tail[j - 1];
          }
        }
      }
    }
  }

  // ---------------------------------------------------------------- inserts

  /** `id = uuidv4()` unless the caller supplies one; nextId stands for a value never handed out. */
  function NewItemId(suppliedId: Option<ItemId>, nextId: nat): ItemId {
    suppliedId.GetOr(nextId)
  }

  /**
   * What addFinancialItem throws for inserting `item` under `id`, if anything. A fault stands for
   * an error raised before any constraint is checked (a lost connection, say) and goes through
   * the same catch block; the primary key is checked before the message-id constraint.
   */
  function ItemInsertError(items: seq<ItemRow>, item: FinancialItem, id: ItemId, fault: Option<DbError>): (e: Option<DbError>)
    ensures fault.Some? ==> e == Some(TranslateInsertError(fault.value, item.messageId))
    ensures fault.None? && HasItem(items, id) ==> e == Some(UniqueViolation(ItemKeyConstraint))
    ensures fault.None? && !HasItem(items, id) && item.messageId.Some? && MessageIdTaken(items, item.messageId.value) ==>
              e == Some(DbError(TranslatedUniqueCode, None, TranslatedUniqueLead + item.messageId.value))
    ensures e.None? <==>
              fault.None? && !HasItem(items, id) && !(item.messageId.Some? && MessageIdTaken(items, item.messageId.value))
  {
    if fault.Some? then Some(TranslateInsertError(fault.value, item.messageId))
    else if HasItem(items, id) then Some(UniqueViolation(ItemKeyConstraint))
    else if item.messageId.Some? && MessageIdTaken(items, item.messageId.value) then
      var name := MessageIdConstraint;
      TranslateRecognisesMessageId(name, item.messageId);
      Some(TranslateInsertError(UniqueViolation(name), item.messageId))
    else None
  }

  /** Whether a highlight insert goes through: no failure of the connection and, when linked, an existing item. */
  predicate HighlightAccepted(items: seq<ItemRow>, h: Highlight, fault: Option<DbError>) {
    fault.None? && (h.financialItemId.Some? ==> HasItem(items, h.financialItemId.value))
  }

  /** What addContextHighlight throws, if anything: the fault, or the foreign-key violation of a dangling link. */
  function HighlightInsertError(items: seq<ItemRow>, h: Highlight, fault: Option<DbError>): (e: Option<DbError>)
    ensures fault.Some? ==> e == fault
    ensures e.None? <==> HighlightAccepted(items, h, fault)
    ensures fault.None? && e.Some? ==> e.value.code == ForeignKeyViolationCode
  {
    if fault.Some? then fault
    else if h.financialItemId.Some? && !HasItem(items, h.financialItemId.value) then Some(ForeignKeyViolation())
    else None
  }

  // ---------------------------------------------------------------- table invariants

  /** Primary keys distinct, message ids distinct where present, stamps increasing, all below the counters. */
  predicate ItemsConsistent(items: seq<ItemRow>, clock: nat, nextId: nat) {
    (forall i, j :: 0 <= i < j < |items| ==> items[i].id != items[j].id && items[i].createdAt < items[j].createdAt)
    && (forall i, j :: 0 <= i < j < |items| && items[i].item.messageId.Some? ==>
          items[i].item.messageId != items[j].item.messageId)
    && (forall i :: 0 <= i < |items| ==> items[i].id < nextId && items[i].createdAt < clock)
  }

  /** As above, plus the foreign key: a linked highlight names an existing item. */
  predicate HighlightsConsistent(highlights: seq<HighlightRow>, items: seq<ItemRow>, clock: nat, nextId: nat) {
    (forall i, j :: 0 <= i < j < |highlights| ==>
       highlights[i].id != highlights[j].id && highlights[i].createdAt < highlights[j].createdAt)
    && (forall i :: 0 <= i < |highlights| ==> highlights[i].id < nextId && highlights[i].createdAt < clock)
    && (forall i :: 0 <= i < |highlights| && highlights[i].highlight.financialItemId.Some? ==>
          HasItem(items, highlights[i].highlight.financialItemId.value))
  }

  lemma ItemInsertKeepsConsistent(items: seq<ItemRow>, highlights: seq<HighlightRow>, clock: nat, nextId: nat, row: ItemRow, nextId': nat)
    requires ItemsConsistent(items, clock, nextId) && HighlightsConsistent(highlights, items, clock, nextId)
    requires !HasItem(items, row.id) && row.createdAt == clock && row.id < nextId' && nextId <= nextId'
    requires row.item.messageId.Some? ==> !MessageIdTaken(items, row.item.messageId.value)
    ensures ItemsConsistent(items + [row], clock + 1, nextId')
    ensures HighlightsConsistent(highlights, items + [row], clock + 1, nextId')
  {
    var items' := items + [row];
    forall i, j | 0 <= i < j < |items'| && items'[i].item.messageId.Some?
      ensures items'[i].item.messageId != items'[j].item.messageId
    {
      if j == |items| {
        assert items'[i] in items;
      }
    }
    forall i, j | 0 <= i < j < |items'| ensures items'[i].id != items'[j].id && items'[i].createdAt < items'[j].createdAt {
      if j == |items| {
        assert items'[i] in items;
      }
    }
    forall i | 0 <= i < |highlights| && highlights[i].highlight.financialItemId.Some?
      ensures HasItem(items', highlights[i].highlight.financialItemId.value)
    {
      var r :| r in items && r.id == highlights[i].highlight.financialItemId.value;
      assert r in items';
    }
  }

  lemma HighlightInsertKeepsConsistent(items: seq<ItemRow>, highlights: seq<HighlightRow>, clock: nat, nextId: nat, row: HighlightRow)
    requires ItemsConsistent(items, clock, nextId) && HighlightsConsistent(highlights, items, clock, nextId)
    requires row.id == nextId && row.createdAt == clock
    requires row.highlight.financialItemId.Some? ==> HasItem(items, row.highlight.financialItemId.value)
    ensures ItemsConsistent(items, clock + 1, nextId + 1)
    ensures HighlightsConsistent(highlights + [row], items, clock + 1, nextId + 1)
    ensures !HasHighlight(highlights, row.id)
  {
    var hs := highlights + [row];
    forall i, j | 0 <= i < j < |hs| ensures hs[i].id != hs[j].id && hs[i].createdAt < hs[j].createdAt {
      if j == |highlights| {
        assert hs[i] == highlights[i];
      }
    }
    forall i | 0 <= i < |hs| && hs[i].highlight.financialItemId.Some?
      ensures HasItem(items, hs[i].highlight.financialItemId.value)
    {
      if i < |highlights| {
        assert hs[i] == highlights[i];
      }
    }
  }

  // ---------------------------------------------------------------- deleting an item

  function WithoutItem(items: seq<ItemRow>, id: ItemId): (res: seq<ItemRow>)
    ensures forall r :: r in res <==> r in items && r.id != id
    ensures |res| <= |items|
  {
    if items == [] then []
    else (if items[0].id != id then [items[0]] else []) + WithoutItem(items[1..], id)
  }

  /** ON DELETE SET NULL for one highlight row. */
  function Detach(h: HighlightRow, id: ItemId): (res: HighlightRow)
    ensures res.id == h.id && res.createdAt == h.createdAt
    ensures res.highlight.financialItemId == (if h.highlight.financialItemId == Some(id) then None else h.highlight.financialItemId)
    ensures res.highlight.(financialItemId := None) == h.highlight.(financialItemId := None)
  {
    if h.highlight.financialItemId == Some(id) then h.(highlight := h.highlight.(financialItemId := None)) else h
  }

  /** The order-and-uniqueness facts between one row and a later one. */
  predicate Earlier(x: ItemRow, y: ItemRow) {
    x.id != y.id && x.createdAt < y.createdAt && (x.item.messageId.Some? ==> x.item.messageId != y.item.messageId)
  }

  lemma ItemsConsistentRest(items: seq<ItemRow>, clock: nat, nextId: nat)
    requires items != [] && ItemsConsistent(items, clock, nextId)
    ensures ItemsConsistent(items[1..], clock, nextId)
    ensures forall y :: y in items[1..] ==> Earlier(items[0], y)
  {
    var rest := items[1..];
    forall i, j | 0 <= i < j < |rest| ensures Earlier(rest[i], rest[j]) {
      assert rest[i] == items[i + 1] && rest[j] == items[j + 1];
    }
    forall y | y in rest ensures Earlier(items[0], y) {
      var k :| 0 <= k < |rest| && rest[k] == y;
      assert items[k + 1] == y;
    }
  }

  lemma ItemsConsistentCons(x: ItemRow, tail: seq<ItemRow>, clock: nat, nextId: nat)
    requires ItemsConsistent(tail, clock, nextId) && x.id < nextId && x.createdAt < clock
    requires forall y :: y in tail ==> Earlier(x, y)
    ensures ItemsConsistent([x] + tail, clock, nextId)
  {
    var res := [x] + tail;
    forall i, j | 0 <= i < j < |res| ensures Earlier(res[i], res[j]) {
      if i > 0 {
        assert res[i] == tail[i - 1] && res[j] == tail[j - 1];
      } else {
        assert res[j] in tail;
      }
    }
  }

  lemma {:induction false} WithoutItemConsistent(items: seq<ItemRow>, id: ItemId, clock: nat, nextId: nat)
    requires ItemsConsistent(items, clock, nextId)
    ensures ItemsConsistent(WithoutItem(items, id), clock, nextId)
  {
    if items != [] {
      ItemsConsistentRest(items, clock, nextId);
      WithoutItemConsistent(items[1..], id, clock, nextId);
      if items[0].id != id {
        assert WithoutItem(items, id) == [items[0]] + WithoutItem(items[1..], id);
        ItemsConsistentCons(items[0], WithoutItem(items[1..], id), clock, nextId);
      } else {
        assert WithoutItem(items, id) == WithoutItem(items[1..], id);
      }
    }
  }

  /** ON DELETE SET NULL over the whole highlights table. */
  function DetachAll(hs: seq<HighlightRow>, id: ItemId): (res: seq<HighlightRow>)
    ensures |res| == |hs| && forall i :: 0 <= i < |hs| ==> res[i] == Detach(hs[i], id)
  {
    seq(|hs|, i requires 0 <= i < |hs| => Detach(hs[i], id))
  }

  lemma DeleteKeepsConsistent(items: seq<ItemRow>, highlights: seq<HighlightRow>, id: ItemId, clock: nat, nextId: nat)
    requires ItemsConsistent(items, clock, nextId) && HighlightsConsistent(highlights, items, clock, nextId)
    ensures ItemsConsistent(WithoutItem(items, id), clock, nextId)
    ensures HighlightsConsistent(DetachAll(highlights, id), WithoutItem(items, id), clock, nextId)
  {
    WithoutItemConsistent(items, id, clock, nextId);
    var hs := DetachAll(highlights, id);
    forall i | 0 <= i < |hs| && hs[i].highlight.financialItemId.Some?
      ensures HasItem(WithoutItem(items, id), hs[i].highlight.financialItemId.value)
    {
      var fid := hs[i].highlight.financialItemId.value;
      assert fid != id && highlights[i].highlight.financialItemId == Some(fid);
      var r :| r in items && r.id == fid;
      assert r in WithoutItem(items, id);
    }
  }

  // ---------------------------------------------------------------- the store

  class Database {
    var items: seq<ItemRow>
    var highlights: seq<HighlightRow>
    /** The next value of created_at. */
    var clock: nat
    /** Every id below this has been handed out; stands for the freshness of uuidv4(). */
    var nextId: nat

    /** The schema constraints, plus the facts about ids and timestamps the model relies on. */
    predicate Valid()
      reads this
    {
      ItemsConsistent(items, clock, nextId) && HighlightsConsistent(highlights, items, clock, nextId)
    }

    constructor ()
      ensures Valid()
      ensures items == [] && highlights == []
    {
      items := [];
      highlights := [];
      clock := 0;
      nextId := 0;
    }

    /**
     * addFinancialItem: one INSERT ... RETURNING *. The row gets the supplied id or a fresh
     * one; on any error the table is left as it was.
     */
    method AddFinancialItem(item: FinancialItem, suppliedId: Option<ItemId>, fault: Option<DbError>)
      returns (r: Result<ItemRow, DbError>)
      requires Valid()
      modifies this
      ensures Valid()
      ensures unchanged(this`highlights)
      ensures var e := ItemInsertError(old(items), item, NewItemId(suppliedId, old(nextId)), fault);
              && (e.Some? ==> r == Failure(e.value) && items == old(items))
              && (e.None? ==> r == Success(ItemRow(NewItemId(suppliedId, old(nextId)), item, old(clock)))
                              && items == old(items) + [r.value])
    {
      var id := NewItemId(suppliedId, nextId);
      var e := ItemInsertError(items, item, id, fault);
      if e.Some? {
        return Failure(e.value);
      }
      var row := ItemRow(id, item, clock);
      var nextId' := if id >= nextId then id + 1 else nextId;
      ItemInsertKeepsConsistent(items, highlights, clock, nextId, row, nextId');
      items := items + [row];
      clock := clock + 1;
      nextId := nextId';
      assert ItemsConsistent(items, clock, nextId) && HighlightsConsistent(highlights, items, clock, nextId);
      r := Success(row);
    }

    /** addContextHighlight: one INSERT with a fresh id; on any error the table is left as it was. */
    method AddContextHighlight(h: Highlight, fault: Option<DbError>) returns (r: Result<HighlightRow, DbError>)
      requires Valid()
      modifies this
      ensures Valid()
      ensures unchanged(this`items)
      ensures var e := HighlightInsertError(items, h, fault);
              && (e.Some? ==> r == Failure(e.value) && highlights == old(highlights))
              && (e.None? ==> r == Success(HighlightRow(old(nextId), h, old(clock)))
                              && !HasHighlight(old(highlights), r.value.id)
                              && highlights == old(highlights) + [r.value])
    {
      var e := HighlightInsertError(items, h, fault);
      if e.Some? {
        return Failure(e.value);
      }
      var row := HighlightRow(nextId, h, clock);
      HighlightInsertKeepsConsistent(items, highlights, clock, nextId, row);
      highlights := highlights + [row];
      clock := clock + 1;
      nextId := nextId + 1;
      assert ItemsConsistent(items, clock, nextId) && HighlightsConsistent(highlights, items, clock, nextId);
      r := Success(row);
    }

    /**
     * Deleting an item row: the FOREIGN KEY ... ON DELETE SET NULL clause unlinks its highlights,
     * which stay in the table.
     */
    method DeleteFinancialItem(id: ItemId)
      requires Valid()
      modifies this
      ensures Valid()
      ensures items == WithoutItem(old(items), id)
      ensures highlights == DetachAll(old(highlights), id)
      ensures unchanged(this`clock) && unchanged(this`nextId)
    {
      DeleteKeepsConsistent(items, highlights, id, clock, nextId);
      highlights := DetachAll(highlights, id);
      items := WithoutItem(items, id);
      assert ItemsConsistent(items, clock, nextId) && HighlightsConsistent(highlights, items, clock, nextId);
    }

    /** getFinancialItemsByOwner: exactly the owner's rows, newest purchase date first (NULL dates lead). */
    function GetFinancialItemsByOwner(owner: string): (rows: seq<ItemRow>)
      reads this
      ensures forall r :: r in rows <==> r in items && r.item.ownerEmail == owner
      ensures multiset(rows) == multiset(OwnerRows(items, owner))
      ensures Ranked(rows)
    {
      var own := OwnerRows(items, owner);
      RankRowsRanked(own);
      RankRowsMembers(own);
      RankRows(own)
    }

    /** findFinancialItemByKeywordAndOwner: the first of the owner's rows, in that order, that matches the keyword. */
    function FindFinancialItemByKeywordAndOwner(keyword: string, owner: string): (r: Option<ItemRow>)
      reads this
      ensures r.None? <==> forall x :: x in items && x.item.ownerEmail == owner ==> !MatchesKeyword(x, keyword)
      ensures r.Some? ==> r.value in items && r.value.item.ownerEmail == owner && MatchesKeyword(r.value, keyword)
      ensures r.Some? ==> forall x :: x in items && x.item.ownerEmail == owner && MatchesKeyword(x, keyword) ==>
                            !Precedes(x, r.value)
    {
      var rows := GetFinancialItemsByOwner(owner);
      FirstMatchingInRanked(rows, keyword);
      FirstMatching(rows, keyword)
    }

    /** getContextHighlightsForItem: exactly the highlights linked to the item, newest first. */
    function GetContextHighlightsForItem(id: ItemId): (rows: seq<HighlightRow>)
      reads this
      requires Valid()
      ensures forall h :: h in rows <==> h in highlights && h.highlight.financialItemId == Some(id)
      ensures NewestFirst(rows)
    {
      var keep := (h: HighlightRow) => h.highlight.financialItemId == Some(id);
      SelectNewestOrdered(highlights, keep);
      SelectNewest(highlights, keep)
    }

    /** getContextHighlightsByProductKeywordAndOwner: the owner's unlinked highlights whose keyword contains `keyword`, newest first. */
    function GetContextHighlightsByProductKeywordAndOwner(keyword: string, owner: string): (rows: seq<HighlightRow>)
      reads this
      requires Valid()
      ensures forall h :: h in rows <==>
                h in highlights && h.highlight.ownerEmail == owner && h.highlight.financialItemId.None?
                && h.highlight.productKeyword.Some? && ContainsIgnoringCase(h.highlight.productKeyword.value, keyword)
      ensures NewestFirst(rows)
    {
      var keep := (h: HighlightRow) => h.highlight.ownerEmail == owner && h.highlight.financialItemId.None?
                                       && h.highlight.productKeyword.Some?
                                       && ContainsIgnoringCase(h.highlight.productKeyword.value, keyword);
      SelectNewestOrdered(highlights, keep);
      SelectNewest(highlights, keep)
    }
  }
}
