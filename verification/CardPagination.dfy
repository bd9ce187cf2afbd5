/** Keyset pagination of issued cards. */
module CardPagination {
  import opened Wrappers
  import opened Arithmetic

  datatype Card = Card(id: nat, issuedAt: int)

  /** What an encoded cursor carries. */
  datatype Cursor = Cursor(id: nat, timestamp: int)

  datatype Page = Page(items: seq<Card>, nextCursor: Option<Cursor>, hasMore: bool)

  /** ORDER BY "issuedAt" DESC, "id" DESC. */
  predicate Precedes(a: Card, b: Card) {
    a.issuedAt > b.issuedAt || (a.issuedAt == b.issuedAt && a.id > b.id)
  }

  /** The card table in listing order. */
  ghost predicate Listed(cards: seq<Card>) {
    forall i, j :: 0 <= i < j < |cards| ==> Precedes(cards[i], cards[j])
  }

  /** The keyset condition of the query. */
  predicate Beyond(c: Card, cursor: Option<Cursor>) {
    cursor.Some? ==>
      c.issuedAt < cursor.value.timestamp || (c.issuedAt == cursor.value.timestamp && c.id < cursor.value.id)
  }

  /** The rows that match the filters. */
  function Matching(cards: seq<Card>, matches: Card -> bool): (rows: seq<Card>)
    ensures forall c :: c in rows <==> c in cards && matches(c)
  {
    if cards == [] then []
    else
      assert cards == [cards[0]] + cards[1..];
      (if matches(cards[0]) then [cards[0]] else []) + Matching(cards[1..], matches)
  }

  function Take(rows: seq<Card>, n: nat): seq<Card> { if |rows| <= n then rows else rows[..n] }

  /** `findMany` with the keyset condition and `take`. */
  function Query(cards: seq<Card>, matches: Card -> bool, cursor: Option<Cursor>, take: nat): seq<Card> {
    Take(Matching(cards, c => matches(c) && Beyond(c, cursor)), take)
  }

  /** `listIssuedManagementCards`: one row more than the page tells whether there is a next one. */
  function ListPage(cards: seq<Card>, matches: Card -> bool, cursor: Option<Cursor>, limit: nat): Page
    requires limit > 0
  {
    var rows := Query(cards, matches, cursor, limit + 1);
    var items := Take(rows, limit);
    var hasMore := |rows| > limit;
    Page(items,
         if hasMore && items != [] then Some(Cursor(items[|items| - 1].id, items[|items| - 1].issuedAt)) else None,
         hasMore)
  }

  /** The first `pages` pages a client sees by following `nextCursor`. */
  function Follow(cards: seq<Card>, matches: Card -> bool, cursor: Option<Cursor>, limit: nat, pages: nat): seq<Page>
    requires limit > 0
    decreases pages
  {
    if pages == 0 then []
    else
      var page := ListPage(cards, matches, cursor, limit);
      if page.nextCursor.None? then [page] else [page] + Follow(cards, matches, page.nextCursor, limit, pages - 1)
  }

  function Items(pages: seq<Page>): seq<Card> {
    if pages == [] then [] else pages[0].items + Items(pages[1..])
  }

  // ----- the keyset condition

  lemma {:induction false} MatchingListed(cards: seq<Card>, matches: Card -> bool)
    requires Listed(cards)
    ensures Listed(Matching(cards, matches))
  {
    if cards != [] {
      MatchingListed(cards[1..], matches);
      var rest := Matching(cards[1..], matches);
      forall j | 0 <= j < |rest| ensures Precedes(cards[0], rest[j]) {
        assert rest[j] in cards[1..];
      }
    }
  }

  lemma {:induction false} MatchingTwice(cards: seq<Card>, matches: Card -> bool, cursor: Option<Cursor>)
    ensures Matching(cards, c => matches(c) && Beyond(c, cursor)) == Matching(Matching(cards, matches), c => Beyond(c, cursor))
  {
    if cards != [] {
      MatchingTwice(cards[1..], matches, cursor);
      var rest := Matching(cards[1..], matches);
      if matches(cards[0]) {
        assert ([cards[0]] + rest)[1..] == rest;
      } else {
        assert [] + rest == rest;
      }
    }
  }

  lemma {:induction false} MatchingAll(rows: seq<Card>, keep: Card -> bool)
    requires forall c :: c in rows ==> keep(c)
    ensures Matching(rows, keep) == rows
  {
    if rows != [] {
      assert rows[0] in rows;
      forall c | c in rows[1..] ensures keep(c) { assert c in rows; }
      MatchingAll(rows[1..], keep);
    }
  }

  lemma {:induction false} MatchingNone(rows: seq<Card>, keep: Card -> bool)
    requires forall c :: c in rows ==> !keep(c)
    ensures Matching(rows, keep) == []
  {
    if rows != [] {
      assert rows[0] in rows;
      forall c | c in rows[1..] ensures !keep(c) { assert c in rows; }
      MatchingNone(rows[1..], keep);
    }
  }

  lemma {:induction false} MatchingConcat(a: seq<Card>, b: seq<Card>, keep: Card -> bool)
    ensures Matching(a + b, keep) == Matching(a, keep) + Matching(b, keep)
  {
    if a == [] {
      assert a + b == b;
    } else {
      assert (a + b)[1..] == a[1..] + b;
      MatchingConcat(a[1..], b, keep);
    }
  }

  /** Past the k-th row the keyset condition leaves exactly the rows after it. */
  lemma BeyondRow(rows: seq<Card>, cursor: Option<Cursor>, k: nat)
    requires Listed(rows) && After(rows, cursor, k)
    ensures Matching(rows, c => Beyond(c, cursor)) == rows[k..]
  {
    hide Matching;
    var keep := c => Beyond(c, cursor);
    forall c | c in rows[..k] ensures !keep(c) {
      var i :| 0 <= i < k && rows[i] == c;
      assert i < k - 1 ==> Precedes(rows[i], rows[k - 1]);
    }
    forall c | c in rows[k..] ensures keep(c) {
      var i :| 0 <= i < |rows[k..]| && rows[k..][i] == c;
      assert k > 0 ==> Precedes(rows[k - 1], rows[k + i]);
    }
    MatchingNone(rows[..k], keep);
    MatchingAll(rows[k..], keep);
    MatchingConcat(rows[..k], rows[k..], keep);
    assert rows[..k] + rows[k..] == rows;
  }

  // ----- following the cursor

  /** A cursor that stands after the first k matching rows. */
  ghost predicate After(rows: seq<Card>, cursor: Option<Cursor>, k: nat) {
    && k <= |rows|
    && (cursor.None? ==> k == 0)
    && (cursor.Some? ==> 0 < k && cursor.value == Cursor(rows[k - 1].id, rows[k - 1].issuedAt))
  }

  lemma QueryFrom(cards: seq<Card>, matches: Card -> bool, cursor: Option<Cursor>, k: nat)
    requires Listed(cards) && After(Matching(cards, matches), cursor, k)
    ensures Matching(cards, c => matches(c) && Beyond(c, cursor)) == Matching(cards, matches)[k..]
  {
    hide *;
    MatchingListed(cards, matches);
    MatchingTwice(cards, matches, cursor);
    BeyondRow(Matching(cards, matches), cursor, k);
  }

  /** A page is the next `limit` matching rows, and its cursor stands after them exactly when more follow. */
  lemma PageFrom(cards: seq<Card>, matches: Card -> bool, cursor: Option<Cursor>, limit: nat, k: nat)
    requires Listed(cards) && limit > 0 && After(Matching(cards, matches), cursor, k)
    ensures var rows := Matching(cards, matches);
      var page := ListPage(cards, matches, cursor, limit);
      && page.items == Take(rows[k..], limit)
      && page.hasMore == (|rows| > k + limit)
      && page.nextCursor.Some? == page.hasMore
      && (page.hasMore ==> After(rows, page.nextCursor, k + limit))
  {
    hide Matching, Listed;
    var rows := Matching(cards, matches);
    QueryFrom(cards, matches, cursor, k);
    assert Query(cards, matches, cursor, limit + 1) == Take(rows[k..], limit + 1);
    assert Take(Take(rows[k..], limit + 1), limit) == Take(rows[k..], limit);
  }

  lemma ItemsOfFirst(page: Page, rest: seq<Page>)
    ensures Items([page] + rest) == page.items + Items(rest)
    ensures Items([]) == [] && page.items + [] == page.items
  {
    assert ([page] + rest)[1..] == rest;
  }

  lemma {:induction false} FollowFrom(
    cards: seq<Card>, matches: Card -> bool, cursor: Option<Cursor>, limit: nat, k: nat, pages: nat)
    requires Listed(cards) && limit > 0 && After(Matching(cards, matches), cursor, k)
    requires pages >= Rounds(|Matching(cards, matches)| - k, limit)
    ensures var rows := Matching(cards, matches);
      var seen := Follow(cards, matches, cursor, limit, pages);
      && Items(seen) == rows[k..]
      && |seen| == Rounds(|rows| - k, limit)
      && seen[|seen| - 1].nextCursor == None
    decreases pages
  {
    hide Matching, ListPage, Listed, Items;
    var rows := Matching(cards, matches);
    PageFrom(cards, matches, cursor, limit, k);
    var page := ListPage(cards, matches, cursor, limit);
    if page.hasMore {
      FollowFrom(cards, matches, page.nextCursor, limit, k + limit, pages - 1);
      ItemsOfFirst(page, Follow(cards, matches, page.nextCursor, limit, pages - 1));
      assert rows[k..] == rows[k..k + limit] + rows[k + limit..];
    } else {
      ItemsOfFirst(page, []);
      assert [page] + [] == [page];
    }
  }

  /**
   * Pagination is complete. On a fixed table, following the cursor from the start returns every matching card exactly
   * once in listing order, and ends with a null cursor after ceil(n / limit) pages (one page when nothing matches).
   */
  lemma PaginationIsComplete(cards: seq<Card>, matches: Card -> bool, limit: nat, pages: nat)
    requires Listed(cards) && limit > 0
    requires pages >= Rounds(|Matching(cards, matches)|, limit)
    ensures var seen := Follow(cards, matches, None, limit, pages);
      var items := Items(seen);
      && (forall c :: c in items <==> c in cards && matches(c))
      && (forall i, j :: 0 <= i < j < |items| ==> Precedes(items[i], items[j]))
      && |seen| == (if items == [] then 1 else CeilDiv(|items|, limit))
      && seen[|seen| - 1].nextCursor == None
  {
    hide Follow, ListPage, Items, CeilDiv;
    var rows := Matching(cards, matches);
    MatchingListed(cards, matches);
    FollowFrom(cards, matches, None, limit, 0, pages);
    assert rows[0..] == rows;
    if rows != [] {
      RoundsIsCeiling(|rows|, limit);
    }
  }
}
