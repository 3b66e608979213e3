// The list request itself: token and page-size checks, the boundary lookup, the
// ordered and limited query, and the next token.
module TaskListing {
  import opened Prelude
  import opened TaskPages

  datatype Token = Token(version: int, rowId: int, stamp: int, normal: bool)

  predicate ValidToken(t: Token) { t.version == PAGE_CURSOR_VERSION && t.rowId > 0 && t.normal }

  datatype Request = Request(filter: Filter, token: Option<Token>, pageSize: Option<int>)

  datatype Listing =
    | Listing(page: Page, next: Option<Token>, pageSize: nat, total: nat)
    | InvalidParams
    | InternalError

  function PageSize(req: Request): int {
    if req.pageSize.Some? then req.pageSize.value else DEFAULT_PAGE_SIZE
  }

  function CursorOf(req: Request): Option<Cursor> {
    if req.token.Some? then Some(Cursor(req.token.value.rowId, req.token.value.stamp)) else None
  }

  /** A request the store answers: a well-formed token whose boundary row is still
      there and visible to the caller, and a page size within bounds. */
  predicate Acceptable(table: Table, req: Request) {
    && MIN_PAGE_SIZE <= PageSize(req) <= MAX_PAGE_SIZE
    && (req.token.Some? ==>
          && ValidToken(req.token.value)
          && req.token.value.rowId in table
          && Owned(req.filter, table[req.token.value.rowId]))
  }

  function SelectedIds(table: Table, f: Filter, cursor: Option<Cursor>): set<int> {
    set id | id in table && Selected(table, f, cursor, id)
  }

  /** What makes an answer impossible: one of the rows fetched does not decode, or the row
      the next token would name has a timestamp no token may hold. */
  predicate Unanswerable(table: Table, size: nat, rows: seq<int>)
    requires size > 0 && forall x :: 0 <= x < |rows| ==> rows[x] in table
  {
    (exists x :: 0 <= x < |rows| && !table[rows[x]].decodes) || (|rows| > size && !table[rows[size - 1]].normal)
  }

  /** What a request asks for, column by column: the owner's own tasks that are not
      quarantined, in the context and state given, no older than the time given. */
  predicate Asked(f: Filter, row: Row) {
    && (match f.owner
        case None => true
        case Some(owner) => row.sender == Some(owner) && !row.quarantined)
    && (f.contextId.None? || f.contextId == Some(row.contextId))
    && (f.state.None? || f.state == Some(row.state))
    && (f.after.None? || f.after.value <= row.stamp)
  }

  function AskedIds(table: Table, f: Filter): set<int> { set id | id in table && Asked(f, table[id]) }

  lemma MatchingIsAsked(table: Table, f: Filter)
    ensures Matching(table, f) == AskedIds(table, f)
    ensures forall row :: Matches(f, row) <==> Asked(f, row)
  {
    forall id | id in table ensures Matches(f, table[id]) <==> Asked(f, table[id]) {}
  }

  /** A request is acceptable exactly if its size, when given, is 1 to 100, and its token,
      when given, is of version 3 and names a row that the owner asked for may see. */
  lemma AcceptableIff(table: Table, req: Request)
    ensures Acceptable(table, req) <==>
            && (req.pageSize.Some? ==> 1 <= req.pageSize.value <= 100)
            && (req.token.Some? ==>
                  var t := req.token.value;
                  && t.version == 3 && t.rowId > 0 && t.normal && t.rowId in table
                  && (req.filter.owner.Some? ==> table[t.rowId].sender == req.filter.owner && !table[t.rowId].quarantined))
  {
  }

  method Pick<T(==)>(ids: set<T>) returns (id: T)
    requires ids != {}
    ensures id in ids
  {
    id :| id in ids;
  }

  method Top(table: Table, ids: set<int>) returns (top: int)
    requires ids != {} && ids <= table.Keys && UniqueIds(table)
    ensures top in ids && forall id :: id in ids && id != top ==> Above(KeyOf(table[top]), KeyOf(table[id]))
  {
    top := Pick(ids);
    var todo := ids - {top};
    while todo != {}
      invariant todo <= ids && top in ids - todo
      invariant forall id :: id in ids - todo && id != top ==> Above(KeyOf(table[top]), KeyOf(table[id]))
      decreases todo
    {
      var id := Pick(todo);
      AboveTotal(KeyOf(table[top]), KeyOf(table[id]));
      if Above(KeyOf(table[id]), KeyOf(table[top])) {
        forall other | other in ids - todo && other != top ensures Above(KeyOf(table[id]), KeyOf(table[other])) {
          AboveTransitive(KeyOf(table[id]), KeyOf(table[top]), KeyOf(table[other]));
        }
        top := id;
      }
      todo := todo - {id};
    }
  }

  /** The greatest of the rows in descending order, all of them or `n`. */
  predicate IsFetch(table: Table, ids: set<int>, n: nat, rows: seq<int>) {
    && ids <= table.Keys
    && Descending(table, rows) && |rows| <= n && (forall x :: 0 <= x < |rows| ==> rows[x] in ids)
    && (|rows| < n ==> forall id :: id in ids ==> id in rows)
    && (forall id :: id in ids && id !in rows ==>
          forall x :: 0 <= x < |rows| ==> Above(KeyOf(table[rows[x]]), KeyOf(table[id])))
  }

  /** `ORDER BY status_timestamp DESC, task_id DESC LIMIT n`. */
  method Fetch(table: Table, ids: set<int>, n: nat) returns (rows: seq<int>)
    requires ids <= table.Keys && UniqueIds(table)
    ensures IsFetch(table, ids, n, rows)
  {
    rows := [];
    var rest := ids;
    while rest != {} && |rows| < n
      invariant rest <= ids && |rows| <= n && Descending(table, rows)
      invariant forall x :: 0 <= x < |rows| ==> rows[x] in ids
      invariant forall id :: id in ids ==> id in rest || id in rows
      invariant forall x, id :: 0 <= x < |rows| && id in rest ==> Above(KeyOf(table[rows[x]]), KeyOf(table[id]))
      decreases rest
    {
      var top := Top(table, rest);
      rows := rows + [top];
      rest := rest - {top};
    }
  }

  lemma PageFetched(table: Table, f: Filter, cursor: Option<Cursor>, size: nat, ids: set<int>, rows: seq<int>, page: Page)
    requires size > 0 && (cursor.Some? ==> cursor.value.rowId in table)
    requires ids == SelectedIds(table, f, cursor) && IsFetch(table, ids, size + 1, rows)
    requires page == if |rows| > size then Page(rows[..size], true) else Page(rows, false)
    ensures IsPage(table, f, cursor, size, page)
  {
    forall id | Selected(table, f, cursor, id) && id !in page.rows
      ensures page.more && Above(KeyOf(table[page.rows[|page.rows| - 1]]), KeyOf(table[id]))
    {
      assert id in ids;
      if id in rows {
        var x :| 0 <= x < |rows| && rows[x] == id;
        assert forall y :: 0 <= y < |page.rows| ==> page.rows[y] == rows[y];
        assert x == size;
      }
    }
    if page.more {
      var id := rows[size];
      forall x | 0 <= x < size ensures page.rows[x] != id {
        AboveTotal(KeyOf(table[id]), KeyOf(table[id]));
        assert Above(KeyOf(table[rows[x]]), KeyOf(table[rows[size]]));
      }
      assert Selected(table, f, cursor, id) && id !in page.rows;
    }
  }

  /** Decodes the fetched rows in turn and gives up at the first that does not. */
  method AllDecode(table: Table, rows: seq<int>) returns (ok: bool)
    requires forall x :: 0 <= x < |rows| ==> rows[x] in table
    ensures ok <==> forall x :: 0 <= x < |rows| ==> table[rows[x]].decodes
  {
    for x := 0 to |rows|
      invariant forall y :: 0 <= y < x ==> table[rows[y]].decodes
    {
      if !table[rows[x]].decodes {
        return false;
      }
    }
    return true;
  }

  lemma PageIsAsked(table: Table, f: Filter, cursor: Option<Cursor>, size: nat, page: Page)
    requires IsPage(table, f, cursor, size, page)
    ensures forall x :: 0 <= x < |page.rows| ==> page.rows[x] in table && Asked(f, table[page.rows[x]])
  {
    forall x | 0 <= x < |page.rows| ensures page.rows[x] in table && Asked(f, table[page.rows[x]]) {
      assert Selected(table, f, cursor, page.rows[x]);
    }
  }

  /** Failing is right exactly for what an acceptable request fetches. */
  ghost predicate FailsExactly(table: Table, req: Request, failed: bool)
    requires Acceptable(table, req)
  {
    exists rows ::
      && IsFetch(table, SelectedIds(table, req.filter, CursorOf(req)), PageSize(req) + 1, rows)
      && (failed <==> Unanswerable(table, PageSize(req), rows))
  }

  /** The page the token asks for, all of it readable, the full count, and a token for the
      next page exactly if there is one. */
  ghost predicate Answers(table: Table, req: Request, r: Listing)
    requires r.Listing? && PageSize(req) >= 0
  {
    && IsPage(table, req.filter, CursorOf(req), PageSize(req), r.page)
    && (forall x :: 0 <= x < |r.page.rows| ==>
          r.page.rows[x] in table && table[r.page.rows[x]].decodes && Asked(req.filter, table[r.page.rows[x]]))
    && r.pageSize == (if req.pageSize.Some? then req.pageSize.value else 50)
    && r.total == |AskedIds(table, req.filter)|
    && (r.next.Some? <==> r.page.more)
    && (r.page.more ==>
          && HasLast(table, r.page) && ValidToken(r.next.value)
          && TokenAfter(table, r.page) == Some(Cursor(r.next.value.rowId, r.next.value.stamp)))
  }

  /** A list request.  An acceptable one is answered with exactly the page its token asks
      for, the token of the next page and the full count, unless a row it would have to
      show or name cannot be. */
  method ListTasks(table: Table, req: Request) returns (r: Listing)
    requires UniqueIds(table) && forall id :: id in table ==> id > 0
    ensures r.InvalidParams? <==> !Acceptable(table, req)
    ensures Acceptable(table, req) ==> FailsExactly(table, req, r.InternalError?)
    ensures r.Listing? ==> Answers(table, req, r)
  {
    hide IsPage, Selected, Descending, Matches, Asked;
    if req.token.Some? && !ValidToken(req.token.value) {
      return InvalidParams;
    }
    var size := PageSize(req);
    if !(MIN_PAGE_SIZE <= size <= MAX_PAGE_SIZE) {
      return InvalidParams;
    }
    if req.token.Some? {
      var rowId := req.token.value.rowId;
      if rowId !in table || !Owned(req.filter, table[rowId]) {
        return InvalidParams;
      }
    }
    var cursor := CursorOf(req);
    var total := |Matching(table, req.filter)|;
    var ids := SelectedIds(table, req.filter, cursor);
    var rows := Fetch(table, ids, size + 1);
    var ok := AllDecode(table, rows);
    if !ok {
      assert Unanswerable(table, size, rows);
      return InternalError;
    }
    var more := |rows| > size;
    var page := Page(if more then rows[..size] else rows, more);
    PageFetched(table, req.filter, cursor, size, ids, rows, page);
    var next := None;
    if more {
      var last := page.rows[|page.rows| - 1];
      var token := Token(PAGE_CURSOR_VERSION, last, table[last].stamp, table[last].normal);
      if !ValidToken(token) {
        assert Unanswerable(table, size, rows);
        return InternalError;
      }
      next := Some(token);
    }
    assert !Unanswerable(table, size, rows);
    MatchingIsAsked(table, req.filter);
    PageIsAsked(table, req.filter, cursor, size, page);
    r := Listing(page, next, size, total);
  }

  // ----- Following the tokens -----------------------------------------------

  /** A token as an unchanging table hands it out: the timestamp is still its row's. */
  predicate Current(table: Table, cursor: Option<Cursor>) {
    cursor.Some? ==> cursor.value.rowId in table && table[cursor.value.rowId].stamp == cursor.value.stamp
  }

  /** Each page leaves strictly fewer rows to come. */
  lemma TokenShrinks(table: Table, f: Filter, cursor: Option<Cursor>, size: nat, page: Page)
    requires Current(table, cursor) && IsPage(table, f, cursor, size, page) && page.rows != []
    ensures HasLast(table, page) && SelectedIds(table, f, TokenAfter(table, page)) < SelectedIds(table, f, cursor)
  {
    var last, next := LastRow(page), TokenAfter(table, page);
    assert Selected(table, f, cursor, last);
    AboveTotal(KeyOf(table[last]), KeyOf(table[last]));
    forall id | Selected(table, f, next, id) ensures Selected(table, f, cursor, id) {
      if cursor.Some? {
        AboveTransitive(Boundary(table, cursor.value), KeyOf(table[last]), KeyOf(table[id]));
        AboveTotal(KeyOf(table[id]), KeyOf(table[id]));
      }
    }
    assert last in SelectedIds(table, f, cursor) && last !in SelectedIds(table, f, next);
  }

  /** Pages fetched so far, each with the token of the one before, all promising more. */
  ghost predicate Begun(table: Table, f: Filter, size: nat, pages: seq<Page>) {
    && (pages != [] ==> IsPage(table, f, None, size, pages[0]))
    && (forall i :: 0 <= i < |pages| ==> pages[i].more && HasLast(table, pages[i]))
    && (forall i :: 0 < i < |pages| ==> Continues(table, pages[i - 1], table, pages[i], f, size))
  }

  function CursorAfter(table: Table, pages: seq<Page>): Option<Cursor>
    requires pages != [] ==> HasLast(table, pages[|pages| - 1])
  {
    if pages == [] then None else TokenAfter(table, pages[|pages| - 1])
  }

  lemma BegunThenLast(table: Table, f: Filter, size: nat, pages: seq<Page>, page: Page)
    requires size > 0 && Begun(table, f, size, pages) && IsPage(table, f, CursorAfter(table, pages), size, page)
    ensures !page.more ==> Walk(seq(|pages| + 1, _ => table), pages + [page], f, size)
    ensures page.more ==> Begun(table, f, size, pages + [page])
  {
    hide IsPage, Selected, Descending;
    var all := pages + [page];
    if pages != [] { assert Continues(table, pages[|pages| - 1], table, page, f, size); }
    assert page.more ==> HasLast(table, page) by { FullIsLast(table, f, CursorAfter(table, pages), size, page); }
    forall i | 0 < i < |all| ensures Continues(table, all[i - 1], table, all[i], f, size) {
      if i < |pages| { assert Continues(table, pages[i - 1], table, pages[i], f, size); }
    }
  }

  lemma FullIsLast(table: Table, f: Filter, cursor: Option<Cursor>, size: nat, page: Page)
    requires size > 0 && IsPage(table, f, cursor, size, page)
    ensures page.more ==> HasLast(table, page)
  {
  }

  predicate Showable(row: Row) { row.decodes && row.normal }

  /** Asking again with each token until there is none: on an unchanging table this ends
      with a complete walk, unless some matching row cannot be shown or named. */
  method ListAll(table: Table, f: Filter, size: int) returns (answer: Option<seq<Page>>)
    requires UniqueIds(table) && (forall id :: id in table ==> id > 0) && MIN_PAGE_SIZE <= size <= MAX_PAGE_SIZE
    ensures answer.Some? ==> Walk(seq(|answer.value|, _ => table), answer.value, f, size)
    ensures answer.None? ==> exists id :: id in AskedIds(table, f) && !Showable(table[id])
    ensures answer.Some? ==>
              && Descending(table, Concat(answer.value))
              && (forall id :: id in Concat(answer.value) <==> id in AskedIds(table, f))
  {
    hide Answers, FailsExactly, Acceptable, IsPage, Descending, Walk, Begun, SelectedIds, Matching, AskedIds, Matches, Asked;
    MatchingIsAsked(table, f);
    var pages: seq<Page> := [];
    var token: Option<Token> := None;
    BeginsEmpty(table, f, size);
    while true
      invariant Ready(table, f, size, pages, token)
      decreases Left(table, f, size, pages, token)
    {
      var req := Request(f, token, Some(size));
      var r := ListTasks(table, req);
      if r.InternalError? {
        UnshowableMatches(table, req);
        return None;
      }
      AnswerContinues(table, f, size, pages, token, r);
      if !r.page.more {
        pages := pages + [r.page];
        QuiescentWalk(seq(|pages|, _ => table), pages, f, size, table);
        return Some(pages);
      }
      token := r.next;
      pages := pages + [r.page];
    }
  }

  /** The loop's state: the next request is acceptable and carries the last page's token. */
  ghost predicate Ready(table: Table, f: Filter, size: int, pages: seq<Page>, token: Option<Token>) {
    && 0 < size && Begun(table, f, size, pages)
    && CursorOf(Request(f, token, Some(size))) == CursorAfter(table, pages)
    && Acceptable(table, Request(f, token, Some(size)))
  }

  ghost function Left(table: Table, f: Filter, size: int, pages: seq<Page>, token: Option<Token>): set<int>
    requires Ready(table, f, size, pages, token)
  {
    SelectedIds(table, f, CursorAfter(table, pages))
  }

  lemma BeginsEmpty(table: Table, f: Filter, size: int)
    requires MIN_PAGE_SIZE <= size <= MAX_PAGE_SIZE
    ensures Ready(table, f, size, [], None)
  {
  }

  lemma AnswerContinues(table: Table, f: Filter, size: int, pages: seq<Page>, token: Option<Token>, r: Listing)
    requires Ready(table, f, size, pages, token) && r.Listing? && Answers(table, Request(f, token, Some(size)), r)
    ensures !r.page.more ==> Walk(seq(|pages| + 1, _ => table), pages + [r.page], f, size)
    ensures r.page.more ==> Ready(table, f, size, pages + [r.page], r.next)
    ensures r.page.more ==>
              Left(table, f, size, pages + [r.page], r.next) < Left(table, f, size, pages, token)
  {
    hide IsPage, Walk, SelectedIds, Matching;
    BegunThenLast(table, f, size, pages, r.page);
    if r.page.more {
      TokenShrinks(table, f, CursorAfter(table, pages), size, r.page);
      LastIsOwned(table, f, CursorAfter(table, pages), size, r.page);
      assert CursorAfter(table, pages + [r.page]) == TokenAfter(table, r.page);
    }
  }

  lemma LastIsOwned(table: Table, f: Filter, cursor: Option<Cursor>, size: nat, page: Page)
    requires IsPage(table, f, cursor, size, page) && page.rows != []
    ensures HasLast(table, page) && Owned(f, table[LastRow(page)])
  {
    assert Selected(table, f, cursor, LastRow(page));
  }

  lemma UnshowableMatches(table: Table, req: Request)
    requires Acceptable(table, req) && FailsExactly(table, req, true)
    ensures exists id :: id in Matching(table, req.filter) && !Showable(table[id])
  {
    var rows :| IsFetch(table, SelectedIds(table, req.filter, CursorOf(req)), PageSize(req) + 1, rows)
                && Unanswerable(table, PageSize(req), rows);
    var x :| 0 <= x < |rows| && !Showable(table[rows[x]]);
    assert rows[x] in SelectedIds(table, req.filter, CursorOf(req));
    assert rows[x] in Matching(table, req.filter);
  }
}
