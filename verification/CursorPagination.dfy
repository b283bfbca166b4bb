/** Paging through a list by the id of the last row of each page, in an opaque cursor. */
module CursorPagination {
  import opened Wrappers
  import Base64Url

  datatype Json =
    | Null
    | Bool(b: bool)
    | Number(n: real)
    | String(s: string)
    | Array(items: seq<Json>)
    | Object(fields: map<string, Json>)

  /** JSON.stringify to UTF-8 bytes, and back; None where JSON.parse throws. */
  datatype Codec = Codec(stringify: Json -> seq<Base64Url.Byte>, parse: seq<Base64Url.Byte> -> Option<Json>)

  function IdOnly(id: string): Json {
    Object(map["id" := String(id)])
  }

  /** What cursors need of the codec: {"id": ...} takes some bytes and is read back from them. */
  ghost predicate Lawful(codec: Codec) {
    forall id ::
      && codec.stringify(IdOnly(id)) != []
      && codec.parse(codec.stringify(IdOnly(id))) == Some(IdOnly(id))
  }

  function EncodeCursor(codec: Codec, payload: Json): string {
    Base64Url.Encode(codec.stringify(payload))
  }

  /** Anything but an object with a string id is no cursor. */
  function DecodeCursor(codec: Codec, cursor: Option<string>): (r: Option<map<string, Json>>)
    ensures r.Some? ==> "id" in r.value && r.value["id"].String?
  {
    if cursor.None? || cursor.value == "" then None
    else
      var parsed := codec.parse(Base64Url.Decode(cursor.value));
      if parsed.Some? && parsed.value.Object? && "id" in parsed.value.fields && parsed.value.fields["id"].String?
      then Some(parsed.value.fields)
      else None
  }

  datatype Row = Row(id: string, columns: map<string, string>)

  datatype PageInfo = PageInfo(
    hasNextPage: bool, hasPreviousPage: bool, startCursor: Option<string>, endCursor: Option<string>, count: nat)

  datatype Page = Page(items: seq<Row>, info: PageInfo)

  function IndexOf(rows: seq<Row>, id: string): (i: Option<nat>)
    ensures i.Some? ==> i.value < |rows| && rows[i.value].id == id
    ensures i.None? ==> forall k :: 0 <= k < |rows| ==> rows[k].id != id
  {
    if rows == [] then None
    else if rows[0].id == id then Some(0)
    else
      var i := IndexOf(rows[1..], id);
      assert i.None? ==> forall k :: 1 <= k < |rows| ==> rows[k].id == rows[1..][k - 1].id;
      if i.Some? then Some(i.value + 1) else None
  }

  function Window(rows: seq<Row>, start: nat, length: nat): seq<Row> {
    if start >= |rows| then []
    else if start + length <= |rows| then rows[start..start + length]
    else rows[start..]
  }

  /** The query: `take` rows from the front, or from behind the row with the cursor's id; nothing if there is none. */
  function Query(rows: seq<Row>, take: nat, cursor: Option<string>): seq<Row> {
    if cursor.None? then Window(rows, 0, take)
    else
      var i := IndexOf(rows, cursor.value);
      if i.None? then [] else Window(rows, i.value + 1, take)
  }

  function CursorOf(codec: Codec): string -> string {
    id => EncodeCursor(codec, IdOnly(id))
  }

  /** One row more than a page was asked for, to see whether there is a next page. */
  function PageOf(items: seq<Row>, limit: nat, hasPreviousPage: bool, cursorOf: string -> string): Page {
    var hasNextPage := |items| > limit;
    var paginated := if hasNextPage then items[..limit] else items;
    var n := |paginated|;
    Page(paginated, PageInfo(hasNextPage, hasPreviousPage,
                             if n > 0 then Some(cursorOf(paginated[0].id)) else None,
                             if n > 0 then Some(cursorOf(paginated[n - 1].id)) else None,
                             n))
  }

  /** An empty id counts as no cursor. */
  function PaginateWithCursor(codec: Codec, rows: seq<Row>, limit: nat, rawCursor: Option<string>): Page {
    var decoded := DecodeCursor(codec, rawCursor);
    var after := if decoded.Some? && decoded.value["id"].s != "" then Some(decoded.value["id"].s) else None;
    PageOf(Query(rows, limit + 1, after), limit, after.Some?, CursorOf(codec))
  }

  // ------------------------------------------------------------------ one page

  lemma DecodeUndoesEncode(codec: Codec, id: string)
    requires Lawful(codec)
    ensures DecodeCursor(codec, Some(CursorOf(codec)(id))) == Some(map["id" := String(id)])
  {
    Base64Url.DecodeUndoesEncode(codec.stringify(IdOnly(id)));
  }

  /** The text holds an object with a string id that is not empty. */
  ghost predicate Names(codec: Codec, cursor: string, id: string) {
    && id != "" && cursor != ""
    && exists fields: map<string, Json> ::
         && codec.parse(Base64Url.Decode(cursor)) == Some(Object(fields))
         && "id" in fields && fields["id"] == String(id)
  }

  predicate Distinct(rows: seq<Row>) {
    forall i, j :: 0 <= i < j < |rows| ==> rows[i].id != rows[j].id
  }

  /** The page that starts at a position in the list. */
  ghost predicate PageFrom(rows: seq<Row>, limit: nat, start: nat, page: Page, cursorOf: string -> string) {
    var n := |page.items|;
    && page.items == Window(rows, start, limit)
    && page.info.count == n
    && (page.info.hasNextPage <==> start + limit < |rows|)
    && (page.info.hasPreviousPage <==> start > 0)
    && page.info.startCursor == (if n > 0 then Some(cursorOf(rows[start].id)) else None)
    && page.info.endCursor == (if n > 0 then Some(cursorOf(rows[start + n - 1].id)) else None)
  }

  lemma PageOfWindow(rows: seq<Row>, limit: nat, start: nat, cursorOf: string -> string)
    ensures PageFrom(rows, limit, start, PageOf(Window(rows, start, limit + 1), limit, start > 0, cursorOf), cursorOf)
  {
    var items := Window(rows, start, limit + 1);
    assert |items| > limit ==> items[..limit] == Window(rows, start, limit);
  }

  /** The cursor of row i gets the page behind it, or the first page again if that row's id is empty. */
  ghost predicate ServesAfter(rows: seq<Row>, limit: nat, fetch: Option<string> -> Page, cursorOf: string -> string,
                              i: nat)
    requires i < |rows|
  {
    PageFrom(rows, limit, if rows[i].id == "" then 0 else i + 1, fetch(Some(cursorOf(rows[i].id))), cursorOf)
  }

  ghost predicate Serves(rows: seq<Row>, limit: nat, fetch: Option<string> -> Page, cursorOf: string -> string) {
    && PageFrom(rows, limit, 0, fetch(None), cursorOf)
    && forall i :: 0 <= i < |rows| ==> ServesAfter(rows, limit, fetch, cursorOf, i)
  }

  function Fetch(codec: Codec, rows: seq<Row>, limit: nat): Option<string> -> Page {
    cursor => PaginateWithCursor(codec, rows, limit, cursor)
  }

  lemma QueryBehind(rows: seq<Row>, take: nat, i: nat)
    requires Distinct(rows) && i < |rows|
    ensures Query(rows, take, Some(rows[i].id)) == Window(rows, i + 1, take)
  {
    assert IndexOf(rows, rows[i].id) == Some(i);
  }

  lemma CursorRead(codec: Codec, rows: seq<Row>, limit: nat, id: string)
    requires Lawful(codec)
    ensures PaginateWithCursor(codec, rows, limit, Some(CursorOf(codec)(id))) ==
            PageOf(Query(rows, limit + 1, if id == "" then None else Some(id)), limit, id != "", CursorOf(codec))
  {
    DecodeUndoesEncode(codec, id);
  }

  lemma FetchServesAfter(codec: Codec, rows: seq<Row>, limit: nat, i: nat)
    requires Lawful(codec) && Distinct(rows) && i < |rows|
    ensures ServesAfter(rows, limit, Fetch(codec, rows, limit), CursorOf(codec), i)
  {
    CursorRead(codec, rows, limit, rows[i].id);
    QueryBehind(rows, limit + 1, i);
    PageOfWindow(rows, limit, if rows[i].id == "" then 0 else i + 1, CursorOf(codec));
  }

  lemma FetchServesFirst(codec: Codec, rows: seq<Row>, limit: nat)
    ensures PageFrom(rows, limit, 0, Fetch(codec, rows, limit)(None), CursorOf(codec))
  {
    PageOfWindow(rows, limit, 0, CursorOf(codec));
  }

  lemma FetchServes(codec: Codec, rows: seq<Row>, limit: nat)
    requires Lawful(codec) && Distinct(rows)
    ensures Serves(rows, limit, Fetch(codec, rows, limit), CursorOf(codec))
  {
    FetchServesFirst(codec, rows, limit);
    forall i | 0 <= i < |rows| ensures ServesAfter(rows, limit, Fetch(codec, rows, limit), CursorOf(codec), i) {
      FetchServesAfter(codec, rows, limit, i);
    }
  }

  // ------------------------------------------------------------------ any cursor

  lemma NamedIsDecoded(codec: Codec, cursor: string, id: string)
    requires Names(codec, cursor, id)
    ensures DecodeCursor(codec, Some(cursor)).Some? && DecodeCursor(codec, Some(cursor)).value["id"] == String(id)
  {
  }

  lemma FoundIsThere(rows: seq<Row>, id: string)
    ensures IndexOf(rows, id).Some? ==> exists row :: row in rows && row.id == id
  {
    var i := IndexOf(rows, id);
    if i.Some? {
      assert rows[i.value] in rows;
    }
  }

  /** A text that names an id gets the rows behind the row with it, or an empty page if there is no such row. */
  lemma NamedIsServed(codec: Codec, rows: seq<Row>, limit: nat, cursor: string, id: string)
    requires Distinct(rows) && Names(codec, cursor, id)
    ensures var page := PaginateWithCursor(codec, rows, limit, Some(cursor));
            && (forall i :: 0 <= i < |rows| && rows[i].id == id ==> PageFrom(rows, limit, i + 1, page, CursorOf(codec)))
            && ((forall row :: row in rows ==> row.id != id) ==> page == Page([], PageInfo(false, true, None, None, 0)))
  {
    NamedIsDecoded(codec, cursor, id);
    assert PaginateWithCursor(codec, rows, limit, Some(cursor)) ==
           PageOf(Query(rows, limit + 1, Some(id)), limit, true, CursorOf(codec));
    forall i | 0 <= i < |rows| && rows[i].id == id
      ensures PageFrom(rows, limit, i + 1, PaginateWithCursor(codec, rows, limit, Some(cursor)), CursorOf(codec))
    {
      QueryBehind(rows, limit + 1, i);
      PageOfWindow(rows, limit, i + 1, CursorOf(codec));
    }
    FoundIsThere(rows, id);
  }

  /** Any other text, and no cursor at all, gets the first page: text that is no JSON, no object, or an object without
      an id, with one that is no string, or with an empty one. */
  lemma OthersServedFirstPage(codec: Codec, rows: seq<Row>, limit: nat, cursor: Option<string>)
    requires cursor.Some? ==> forall id :: !Names(codec, cursor.value, id)
    ensures PageFrom(rows, limit, 0, PaginateWithCursor(codec, rows, limit, cursor), CursorOf(codec))
  {
    var decoded := DecodeCursor(codec, cursor);
    if decoded.Some? && decoded.value["id"].s != "" {
      assert Names(codec, cursor.value, decoded.value["id"].s);
      assert false;
    }
    PageOfWindow(rows, limit, 0, CursorOf(codec));
  }

  // ------------------------------------------------------------------ a walk

  ghost predicate IsNext(fetch: Option<string> -> Page, page: Page, next: Page) {
    page.info.hasNextPage && next == fetch(page.info.endCursor)
  }

  /** Pages fetched one after another, each with the endCursor of the one before, while there is a next page. */
  ghost predicate Follows(fetch: Option<string> -> Page, pages: seq<Page>) {
    && pages != []
    && pages[0] == fetch(None)
    && forall k :: 0 <= k < |pages| - 1 ==> IsNext(fetch, pages[k], pages[k + 1])
  }

  /** A walk that has come to an end. */
  ghost predicate Complete(fetch: Option<string> -> Page, pages: seq<Page>) {
    Follows(fetch, pages) && !pages[|pages| - 1].info.hasNextPage
  }

  function Items(pages: seq<Page>): seq<Row> {
    if pages == [] then [] else Items(pages[..|pages| - 1]) + pages[|pages| - 1].items
  }

  /** Where page k starts in the list. */
  function PageStart(limit: nat, k: nat): (start: nat)
    ensures limit > 0 ==> start >= k
  {
    if k == 0 then 0 else PageStart(limit, k - 1) + limit
  }

  /** Page k is not the last one and its last row has an empty id. */
  predicate EmptyEnd(rows: seq<Row>, limit: nat, k: nat)
    requires limit > 0
  {
    PageStart(limit, k + 1) < |rows| && rows[PageStart(limit, k + 1) - 1].id == ""
  }

  lemma NextPage(rows: seq<Row>, limit: nat, fetch: Option<string> -> Page, cursorOf: string -> string, k: nat,
                 page: Page, next: Page)
    requires Serves(rows, limit, fetch, cursorOf) && limit > 0
    requires PageFrom(rows, limit, PageStart(limit, k), page, cursorOf) && IsNext(fetch, page, next)
    ensures PageStart(limit, k + 1) < |rows|
    ensures PageFrom(rows, limit, if EmptyEnd(rows, limit, k) then 0 else PageStart(limit, k + 1), next, cursorOf)
  {
    assert |page.items| == limit;
    assert ServesAfter(rows, limit, fetch, cursorOf, PageStart(limit, k) + limit - 1);
  }

  /** Page k of a walk starts at k * limit as long as no page before it ends in an empty id. */
  lemma {:induction false} NthPage(rows: seq<Row>, limit: nat, fetch: Option<string> -> Page,
                                   cursorOf: string -> string, pages: seq<Page>, k: nat)
    requires Serves(rows, limit, fetch, cursorOf) && limit > 0 && Follows(fetch, pages) && k < |pages|
    requires forall i: nat :: i < k ==> !EmptyEnd(rows, limit, i)
    ensures PageFrom(rows, limit, PageStart(limit, k), pages[k], cursorOf)
    ensures k > 0 ==> PageStart(limit, k) < |rows|
  {
    if k > 0 {
      NthPage(rows, limit, fetch, cursorOf, pages, k - 1);
      assert IsNext(fetch, pages[k - 1], pages[k - 1 + 1]);
      NextPage(rows, limit, fetch, cursorOf, k - 1, pages[k - 1], pages[k]);
    }
  }

  lemma ItemsSnoc(pages: seq<Page>, k: nat)
    requires k < |pages|
    ensures Items(pages[..k + 1]) == Items(pages[..k]) + pages[k].items
  {
    assert pages[..k + 1][..k] == pages[..k];
  }

  lemma {:induction false} ItemsSoFar(rows: seq<Row>, limit: nat, fetch: Option<string> -> Page,
                                      cursorOf: string -> string, pages: seq<Page>, k: nat)
    requires Serves(rows, limit, fetch, cursorOf) && limit > 0 && Follows(fetch, pages) && k <= |pages|
    requires forall i: nat :: i + 1 < k ==> !EmptyEnd(rows, limit, i)
    ensures Items(pages[..k]) == Window(rows, 0, PageStart(limit, k))
  {
    if k > 0 {
      ItemsSoFar(rows, limit, fetch, cursorOf, pages, k - 1);
      ItemsSnoc(pages, k - 1);
      NthPage(rows, limit, fetch, cursorOf, pages, k - 1);
      WindowApart(rows, PageStart(limit, k - 1), limit);
    }
  }

  lemma WindowApart(rows: seq<Row>, m: nat, length: nat)
    ensures Window(rows, 0, m + length) == Window(rows, 0, m) + Window(rows, m, length)
  {
  }

  // ------------------------------------------------------------------ an empty id at the end of a page

  lemma {:induction false} LeastEmptyEnd(rows: seq<Row>, limit: nat, from: nat, k: nat) returns (r: nat)
    requires limit > 0 && EmptyEnd(rows, limit, k) && from <= k
    requires forall i: nat :: i < from ==> !EmptyEnd(rows, limit, i)
    ensures EmptyEnd(rows, limit, r) && forall i: nat :: i < r ==> !EmptyEnd(rows, limit, i)
    decreases k - from
  {
    if EmptyEnd(rows, limit, from) {
      r := from;
    } else {
      r := LeastEmptyEnd(rows, limit, from + 1, k);
    }
  }

  /** Behind the first page that ends in an empty id a walk starts over, so that every page is one of those up to it. */
  lemma {:induction false} StartsOver(rows: seq<Row>, limit: nat, fetch: Option<string> -> Page,
                                      cursorOf: string -> string, pages: seq<Page>, r: nat, k: nat) returns (m: nat)
    requires Serves(rows, limit, fetch, cursorOf) && limit > 0 && Follows(fetch, pages) && k < |pages|
    requires EmptyEnd(rows, limit, r) && forall i: nat :: i < r ==> !EmptyEnd(rows, limit, i)
    ensures m <= r && PageFrom(rows, limit, PageStart(limit, m), pages[k], cursorOf)
  {
    if k == 0 {
      m := 0;
    } else {
      m := StartsOver(rows, limit, fetch, cursorOf, pages, r, k - 1);
      assert IsNext(fetch, pages[k - 1], pages[k - 1 + 1]);
      NextPage(rows, limit, fetch, cursorOf, m, pages[k - 1], pages[k]);
      m := if m == r then 0 else m + 1;
    }
  }

  lemma {:induction false} PageStartGrows(limit: nat, i: nat, j: nat)
    requires i <= j
    ensures PageStart(limit, i) <= PageStart(limit, j)
  {
    if i < j {
      PageStartGrows(limit, i, j - 1);
    }
  }

  lemma NeverEnds(rows: seq<Row>, limit: nat, fetch: Option<string> -> Page, cursorOf: string -> string,
                  pages: seq<Page>, r: nat, k: nat)
    requires Serves(rows, limit, fetch, cursorOf) && limit > 0 && Follows(fetch, pages) && k < |pages|
    requires EmptyEnd(rows, limit, r)
    ensures pages[k].info.hasNextPage
  {
    var least := LeastEmptyEnd(rows, limit, 0, r);
    var m := StartsOver(rows, limit, fetch, cursorOf, pages, least, k);
    PageStartGrows(limit, m + 1, least + 1);
  }

  // ------------------------------------------------------------------ whole walks

  /** max(1, ceil(n / limit)) */
  function PageCount(n: nat, limit: nat): nat
    requires limit > 0
  {
    if n == 0 then 1 else (n + limit - 1) / limit
  }

  lemma {:induction false} PageStartIs(limit: nat, k: nat)
    ensures PageStart(limit, k) == k * limit
  {
    if k > 0 {
      PageStartIs(limit, k - 1);
      assert k * limit == (k - 1) * limit + limit;
    }
  }

  lemma ProductGrows(a: nat, b: nat, d: nat)
    ensures a <= b ==> a * d <= b * d
  {
    assert a <= b ==> b * d == a * d + (b - a) * d;
  }

  lemma QuotientBetween(a: nat, d: nat)
    requires d > 0
    ensures (a / d) * d <= a < (a / d) * d + d
  {
    assert a == (a / d) * d + a % d;
  }

  lemma NextProduct(k: nat, d: nat)
    ensures (k + 1) * d == k * d + d
  {
  }

  lemma PageCountIs(n: nat, limit: nat, k: nat)
    requires limit > 0
    ensures k < PageCount(n, limit) <==> k == 0 || PageStart(limit, k) < n
  {
    PageStartIs(limit, k);
    if n > 0 {
      var q := (n + limit - 1) / limit;
      QuotientBetween(n + limit - 1, limit);
      NextProduct(k, limit);
      ProductGrows(q, k, limit);
      ProductGrows(k + 1, q, limit);
      if k == 0 {
        QuotientPositive(n + limit - 1, limit);
      }
    }
  }

  lemma QuotientPositive(a: nat, d: nat)
    requires 0 < d <= a
    ensures a / d > 0
  {
    QuotientBetween(a, d);
  }

  lemma CompleteMeetsNoEmptyEnd(rows: seq<Row>, limit: nat, fetch: Option<string> -> Page, cursorOf: string -> string,
                                pages: seq<Page>)
    requires Serves(rows, limit, fetch, cursorOf) && limit > 0 && Complete(fetch, pages)
    ensures forall i: nat :: !EmptyEnd(rows, limit, i)
  {
    forall i: nat ensures !EmptyEnd(rows, limit, i) {
      if EmptyEnd(rows, limit, i) {
        NeverEnds(rows, limit, fetch, cursorOf, pages, i, |pages| - 1);
      }
    }
  }

  lemma CompleteCount(rows: seq<Row>, limit: nat, fetch: Option<string> -> Page, cursorOf: string -> string,
                      pages: seq<Page>)
    requires Serves(rows, limit, fetch, cursorOf) && limit > 0 && Complete(fetch, pages)
    requires forall i: nat :: !EmptyEnd(rows, limit, i)
    ensures |pages| == PageCount(|rows|, limit) && PageStart(limit, |pages|) >= |rows|
  {
    var last := |pages| - 1;
    NthPage(rows, limit, fetch, cursorOf, pages, last);
    PageCountIs(|rows|, limit, last);
    PageCountIs(|rows|, limit, last + 1);
  }

  lemma WholeList(rows: seq<Row>, limit: nat, fetch: Option<string> -> Page, cursorOf: string -> string,
                  pages: seq<Page>)
    requires Serves(rows, limit, fetch, cursorOf) && limit > 0 && Complete(fetch, pages)
    ensures Items(pages) == rows && |pages| == PageCount(|rows|, limit)
  {
    CompleteMeetsNoEmptyEnd(rows, limit, fetch, cursorOf, pages);
    CompleteCount(rows, limit, fetch, cursorOf, pages);
    ItemsSoFar(rows, limit, fetch, cursorOf, pages, |pages|);
    assert pages[..|pages|] == pages;
  }

  /** A walk that has come to an end went through the whole list, each row once and in order, in max(1, ceil(n / limit))
      pages. */
  lemma CompleteWalkIsWholeList(codec: Codec, rows: seq<Row>, limit: nat, pages: seq<Page>)
    requires Lawful(codec) && Distinct(rows) && limit > 0 && Complete(Fetch(codec, rows, limit), pages)
    ensures Items(pages) == rows
    ensures |pages| == PageCount(|rows|, limit)
  {
    FetchServes(codec, rows, limit);
    WholeList(rows, limit, Fetch(codec, rows, limit), CursorOf(codec), pages);
  }

  lemma {:induction false} WalkOn(rows: seq<Row>, limit: nat, fetch: Option<string> -> Page,
                                  cursorOf: string -> string, pages: seq<Page>) returns (all: seq<Page>)
    requires Serves(rows, limit, fetch, cursorOf) && limit > 0 && Follows(fetch, pages)
    requires forall i: nat :: !EmptyEnd(rows, limit, i)
    ensures Complete(fetch, all)
    decreases |rows| - PageStart(limit, |pages| - 1)
  {
    var last := |pages| - 1;
    NthPage(rows, limit, fetch, cursorOf, pages, last);
    if pages[last].info.hasNextPage {
      var more := pages + [fetch(pages[last].info.endCursor)];
      forall k | 0 <= k < |more| - 1 ensures IsNext(fetch, more[k], more[k + 1]) {
        assert k < last ==> IsNext(fetch, pages[k], pages[k + 1]);
      }
      all := WalkOn(rows, limit, fetch, cursorOf, more);
    } else {
      all := pages;
    }
  }

  /** Following endCursor comes to an end exactly when no page but the last ends in a row with an empty id. */
  lemma WalkEndsIff(codec: Codec, rows: seq<Row>, limit: nat)
    requires Lawful(codec) && Distinct(rows) && limit > 0
    ensures (exists pages :: Complete(Fetch(codec, rows, limit), pages)) <==>
            forall k: nat :: !EmptyEnd(rows, limit, k)
  {
    var fetch, cursorOf := Fetch(codec, rows, limit), CursorOf(codec);
    FetchServes(codec, rows, limit);
    if forall k: nat :: !EmptyEnd(rows, limit, k) {
      var all := WalkOn(rows, limit, fetch, cursorOf, [fetch(None)]);
    } else {
      var r: nat :| EmptyEnd(rows, limit, r);
      forall pages | Follows(fetch, pages) ensures !Complete(fetch, pages) {
        NeverEnds(rows, limit, fetch, cursorOf, pages, r, |pages| - 1);
      }
    }
  }

  /** Two rows, one a page, the first with an empty id: the second page is the first again. */
  lemma EmptyIdStartsOver(codec: Codec)
    requires Lawful(codec)
    ensures var rows := [Row("", map[]), Row("a", map[])];
            var fetch := Fetch(codec, rows, 1);
            && fetch(None).items == [rows[0]] && fetch(None).info.hasNextPage
            && fetch(fetch(None).info.endCursor).items == [rows[0]]
            && forall pages :: !Complete(fetch, pages)
  {
    var rows := [Row("", map[]), Row("a", map[])];
    FetchServes(codec, rows, 1);
    assert ServesAfter(rows, 1, Fetch(codec, rows, 1), CursorOf(codec), 0);
    assert PageStart(1, 1) == 1 && EmptyEnd(rows, 1, 0);
    WalkEndsIff(codec, rows, 1);
  }

  /** With ids that are never empty, as uuids are, no walk is longer than max(1, ceil(n / limit)) pages and page k holds
      the rows from k * limit on. */
  lemma WalkIsBounded(codec: Codec, rows: seq<Row>, limit: nat, pages: seq<Page>, k: nat)
    requires Lawful(codec) && Distinct(rows) && limit > 0 && Follows(Fetch(codec, rows, limit), pages)
    requires (forall row :: row in rows ==> row.id != "") && k < |pages|
    ensures |pages| <= PageCount(|rows|, limit)
    ensures PageFrom(rows, limit, PageStart(limit, k), pages[k], CursorOf(codec)) && PageStart(limit, k) == k * limit
  {
    var fetch, last := Fetch(codec, rows, limit), |pages| - 1;
    FetchServes(codec, rows, limit);
    forall i: nat ensures !EmptyEnd(rows, limit, i) {
      assert PageStart(limit, i + 1) < |rows| ==> rows[PageStart(limit, i + 1) - 1] in rows;
    }
    NthPage(rows, limit, fetch, CursorOf(codec), pages, k);
    NthPage(rows, limit, fetch, CursorOf(codec), pages, last);
    PageCountIs(|rows|, limit, last);
    PageStartIs(limit, k);
  }
}
