/**
 * GET /api/data/:ownerEmail/financial-items: the owner's items in the store's order, each with
 * the highlights linked to it followed by the owner's unlinked highlights about the item's
 * keyword (vendor, else product, else category), skipping any row already listed.
 */
module DashboardApi {
  import opened Wrappers
  import opened Text
  import opened Records
  import opened Store

  datatype ItemWithContext = ItemWithContext(row: ItemRow, contextHighlights: seq<HighlightRow>)

  /** 400 for an empty owner parameter, else the JSON list. */
  datatype ApiResponse = BadRequest | ItemList(entries: seq<ItemWithContext>)

  predicate DistinctIds(rows: seq<HighlightRow>) {
    forall i, j :: 0 <= i < j < |rows| ==> rows[i].id != rows[j].id
  }

  /** `item.vendor_name || item.product_name || item.category`, then tested for truthiness. */
  function ItemKeyword(item: FinancialItem): (r: Option<string>)
    ensures Truthy(r) <==> Truthy(item.vendorName) || Truthy(item.productName) || Truthy(item.category)
    ensures Truthy(r) ==> r == item.vendorName || r == item.productName || r == item.category
    ensures Truthy(item.vendorName) ==> r == item.vendorName
    ensures !Truthy(item.vendorName) && Truthy(item.productName) ==> r == item.productName
    ensures !Truthy(item.vendorName) && !Truthy(item.productName) && Truthy(item.category) ==> r == item.category
  {
    if Truthy(item.vendorName) then item.vendorName
    else if Truthy(item.productName) then item.productName
    else item.category
  }

  /** The list after the forEach: each extra row is appended unless a row with its id is already listed. */
  function Merged(base: seq<HighlightRow>, extra: seq<HighlightRow>): (r: seq<HighlightRow>)
    ensures base <= r
    ensures forall x :: x in r ==> x in base || x in extra
    ensures forall x :: x in extra ==> HasHighlight(r, x.id)
    ensures DistinctIds(base) ==> DistinctIds(r)
  {
    if extra == [] then base
    else
      var init := extra[..|extra| - 1];
      var x := extra[|extra| - 1];
      var m := Merged(base, init);
      assert forall y :: y in extra ==> y in init || y == x;
      if HasHighlight(m, x.id) then m
      else
        var r := m + [x];
        assert forall y :: y in m ==> y in r;
        r
  }

  /** When no extra row shares an id with the base or with another extra row, the merge is plain concatenation. */
  lemma {:induction false} MergedDisjoint(base: seq<HighlightRow>, extra: seq<HighlightRow>)
    requires forall a, b :: a in base && b in extra ==> a.id != b.id
    requires DistinctIds(extra)
    ensures Merged(base, extra) == base + extra
  {
    if extra != [] {
      var init := extra[..|extra| - 1];
      var x := extra[|extra| - 1];
      assert DistinctIds(init);
      MergedDisjoint(base, init);
      forall y | y in base + init ensures y.id != x.id {
        if y !in base {
          var k :| 0 <= k < |init| && init[k] == y;
          assert extra[k] == y;
        }
      }
      assert base + init + [x] == base + extra;
    }
  }

  /** The forEach over the keyword highlights, as a loop. */
  method MergeById(base: seq<HighlightRow>, extra: seq<HighlightRow>) returns (merged: seq<HighlightRow>)
    ensures merged == Merged(base, extra)
  {
    merged := base;
    var k := 0;
    while k < |extra|
      invariant k <= |extra|
      invariant merged == Merged(base, extra[..k])
    {
      var x := extra[k];
      assert extra[..k + 1][..k] == extra[..k];
      if !HasHighlight(merged, x.id) {
        merged := merged + [x];
      }
      k := k + 1;
    }
    assert extra[..k] == extra;
  }

  /** The context_highlights the endpoint attaches to one of the owner's items. */
  function ContextFor(db: Database, owner: string, row: ItemRow): seq<HighlightRow>
    reads db
    requires db.Valid()
  {
    var base := db.GetContextHighlightsForItem(row.id);
    var keyword := ItemKeyword(row.item);
    if Truthy(keyword) then Merged(base, db.GetContextHighlightsByProductKeywordAndOwner(keyword.value, owner))
    else base
  }

  /** Ids in a valid highlight table are distinct, so two different rows of it never share an id. */
  lemma DifferentRowsDifferentIds(db: Database, a: HighlightRow, b: HighlightRow)
    requires db.Valid() && a in db.highlights && b in db.highlights && a != b
    ensures a.id != b.id
  {
    var i :| 0 <= i < |db.highlights| && db.highlights[i] == a;
    var j :| 0 <= j < |db.highlights| && db.highlights[j] == b;
    assert i != j;
  }

  /**
   * The two queries never share a row (one returns linked rows, the other unlinked ones), so
   * the de-duplication drops nothing: the context is the linked highlights, newest first, then
   * the keyword highlights, newest first.
   */
  lemma ContextIsConcatenation(db: Database, owner: string, row: ItemRow)
    requires db.Valid()
    ensures var keyword := ItemKeyword(row.item);
            ContextFor(db, owner, row) ==
              db.GetContextHighlightsForItem(row.id)
              + (if Truthy(keyword) then db.GetContextHighlightsByProductKeywordAndOwner(keyword.value, owner) else [])
  {
    var keyword := ItemKeyword(row.item);
    var base := db.GetContextHighlightsForItem(row.id);
    if Truthy(keyword) {
      var extra := db.GetContextHighlightsByProductKeywordAndOwner(keyword.value, owner);
      forall a, b | a in base && b in extra ensures a.id != b.id {
        assert a.highlight.financialItemId != b.highlight.financialItemId;
        DifferentRowsDifferentIds(db, a, b);
      }
      forall i, j | 0 <= i < j < |extra| ensures extra[i].id != extra[j].id {
        assert extra[i].createdAt != extra[j].createdAt;
        DifferentRowsDifferentIds(db, extra[i], extra[j]);
      }
      MergedDisjoint(base, extra);
    } else {
      assert base + [] == base;
    }
  }

  /** Rows of a valid table listed newest first are different rows, hence have different ids. */
  lemma NewestFirstDistinct(db: Database, rows: seq<HighlightRow>)
    requires db.Valid() && NewestFirst(rows) && forall h :: h in rows ==> h in db.highlights
    ensures DistinctIds(rows)
  {
    forall i, j | 0 <= i < j < |rows| ensures rows[i].id != rows[j].id {
      assert rows[i].createdAt != rows[j].createdAt;
      DifferentRowsDifferentIds(db, rows[i], rows[j]);
    }
  }

  /**
   * What an item's context holds: exactly the highlights linked to it, and (when the item has a
   * keyword) the owner's unlinked highlights whose product keyword contains it.
   */
  lemma ContextMembership(db: Database, owner: string, row: ItemRow, h: HighlightRow)
    requires db.Valid()
    ensures var keyword := ItemKeyword(row.item);
            h in ContextFor(db, owner, row) <==>
              h in db.highlights
              && (h.highlight.financialItemId == Some(row.id)
                  || (Truthy(keyword) && h.highlight.ownerEmail == owner && h.highlight.financialItemId.None?
                      && h.highlight.productKeyword.Some?
                      && ContainsIgnoringCase(h.highlight.productKeyword.value, keyword.value)))
  {
    ContextIsConcatenation(db, owner, row);
  }

  /** No highlight is listed twice in an item's context. */
  lemma ContextDistinct(db: Database, owner: string, row: ItemRow)
    requires db.Valid()
    ensures DistinctIds(ContextFor(db, owner, row))
  {
    NewestFirstDistinct(db, db.GetContextHighlightsForItem(row.id));
  }

  /** The per-item body of the endpoint's loop: the linked highlights, then the keyword highlights merged in. */
  method ItemContext(db: Database, owner: string, row: ItemRow) returns (context: seq<HighlightRow>)
    requires db.Valid()
    ensures context == ContextFor(db, owner, row)
  {
    context := db.GetContextHighlightsForItem(row.id);
    var keyword := ItemKeyword(row.item);
    if Truthy(keyword) {
      var related := db.GetContextHighlightsByProductKeywordAndOwner(keyword.value, owner);
      context := MergeById(context, related);
    }
  }

  /** The JSON list for an owner: each of the owner's items, in the store's order, with its context. */
  function Listing(db: Database, owner: string): (r: seq<ItemWithContext>)
    reads db
    requires db.Valid()
    ensures var items := db.GetFinancialItemsByOwner(owner);
            |r| == |items| && forall k :: 0 <= k < |items| ==> r[k] == ItemWithContext(items[k], ContextFor(db, owner, items[k]))
  {
    var items := db.GetFinancialItemsByOwner(owner);
    seq(|items|, k requires 0 <= k < |items| reads db requires db.Valid() => ItemWithContext(items[k], ContextFor(db, owner, items[k])))
  }

  /** The endpoint: 400 without an owner; otherwise the listing for the lower-cased owner. */
  method ItemsWithContext(db: Database, ownerParam: string) returns (resp: ApiResponse)
    requires db.Valid()
    ensures ownerParam == [] ==> resp == BadRequest
    ensures ownerParam != [] ==> resp == ItemList(Listing(db, Lower(ownerParam)))
  {
    if ownerParam == [] {
      return BadRequest;
    }
    var owner := Lower(ownerParam);
    var items := db.GetFinancialItemsByOwner(owner);
    ghost var listing := Listing(db, owner);
    var entries: seq<ItemWithContext> := [];
    var i := 0;
    while i < |items|
      invariant i <= |items| && entries == listing[..i]
    {
      var context := ItemContext(db, owner, items[i]);
      assert listing[i] == ItemWithContext(items[i], context);
      assert listing[..i + 1] == listing[..i] + [listing[i]];
      entries := entries + [ItemWithContext(items[i], context)];
      i := i + 1;
    }
    assert listing[..i] == listing;
    return ItemList(entries);
  }
}
