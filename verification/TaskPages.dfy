// Keyset pagination over the task view while its rows keep changing: each page is
// the next rows in descending order of timestamp and task id, below the boundary
// row of the page before.  A timestamp is the rank of its text.
module TaskPages {
  import opened Prelude

  const DEFAULT_PAGE_SIZE: int := 50
  const MIN_PAGE_SIZE: int := 1
  const MAX_PAGE_SIZE: int := 100
  const PAGE_CURSOR_VERSION: int := 3

  // A row of the view joined with the sender and quarantine flag of its ledger row.
  // `normal` says whether the timestamp text is empty or in the one form tokens may hold,
  // `decodes` whether the JSON column parses.
  datatype Row = Row(
    taskId: string, stamp: int, normal: bool, contextId: string, state: string, sender: Option<string>,
    quarantined: bool, decodes: bool)

  /** Rows by rowid; the task id is the table's primary key. */
  type Table = map<int, Row>

  predicate UniqueIds(table: Table) {
    forall a, b :: a in table && b in table && table[a].taskId == table[b].taskId ==> a == b
  }

  datatype Filter = Filter(owner: Option<string>, contextId: Option<string>, state: Option<string>, after: Option<int>)

  predicate Owned(f: Filter, row: Row) {
    f.owner.Some? ==> row.sender == f.owner && !row.quarantined
  }

  predicate Matches(f: Filter, row: Row) {
    && Owned(f, row)
    && (f.contextId.Some? ==> row.contextId == f.contextId.value)
    && (f.state.Some? ==> row.state == f.state.value)
    && (f.after.Some? ==> row.stamp >= f.after.value)
  }

  // ----- The listing order --------------------------------------------------

  datatype Key = Key(stamp: int, taskId: string)

  function KeyOf(row: Row): Key { Key(row.stamp, row.taskId) }

  /** SQLite's text order. */
  predicate TextLess(s: string, t: string) {
    if t == "" then false
    else if s == "" then true
    else s[0] < t[0] || (s[0] == t[0] && TextLess(s[1..], t[1..]))
  }

  /** `Above(a, b)`: `a` is listed before `b`. */
  predicate Above(a: Key, b: Key) {
    a.stamp > b.stamp || (a.stamp == b.stamp && TextLess(b.taskId, a.taskId))
  }

  lemma {:induction false} TextTotal(s: string, t: string)
    ensures !TextLess(s, s)
    ensures s != t ==> TextLess(s, t) || TextLess(t, s)
    ensures !(TextLess(s, t) && TextLess(t, s))
  {
    if s != "" && t != "" {
      TextTotal(s[1..], t[1..]);
      assert s == [s[0]] + s[1..] && t == [t[0]] + t[1..];
    } else if s != "" {
      TextTotal(s[1..], "");
    }
  }

  lemma {:induction false} TextTransitive(s: string, t: string, u: string)
    requires TextLess(s, t) && TextLess(t, u)
    ensures TextLess(s, u)
  {
    if s != "" && s[0] == t[0] == u[0] { TextTransitive(s[1..], t[1..], u[1..]); }
  }

  lemma AboveTotal(a: Key, b: Key)
    ensures !Above(a, a)
    ensures a != b ==> Above(a, b) || Above(b, a)
    ensures !(Above(a, b) && Above(b, a))
  {
    TextTotal(a.taskId, b.taskId);
  }

  lemma AboveTransitive(a: Key, b: Key, c: Key)
    requires Above(a, b) && Above(b, c)
    ensures Above(a, c)
  {
    if a.stamp == b.stamp == c.stamp { TextTransitive(c.taskId, b.taskId, a.taskId); }
  }

  // ----- One page -----------------------------------------------------------

  datatype Cursor = Cursor(rowId: int, stamp: int)

  datatype Page = Page(rows: seq<int>, more: bool)

  /** The key the cursor stands for: its timestamp and the task now in its row. */
  function Boundary(table: Table, c: Cursor): Key
    requires c.rowId in table
  {
    Key(c.stamp, table[c.rowId].taskId)
  }

  predicate Selected(table: Table, f: Filter, cursor: Option<Cursor>, id: int) {
    && id in table
    && Matches(f, table[id])
    && (cursor.Some? ==>
          && cursor.value.rowId in table
          && Above(Boundary(table, cursor.value), KeyOf(table[id]))
          && id != cursor.value.rowId)
  }

  predicate Descending(table: Table, rows: seq<int>) {
    && (forall i :: 0 <= i < |rows| ==> rows[i] in table)
    && (forall i, j :: 0 <= i < j < |rows| ==> Above(KeyOf(table[rows[i]]), KeyOf(table[rows[j]])))
  }

  /** The first `size` selected rows in listing order, and whether any remain. */
  ghost predicate IsPage(table: Table, f: Filter, cursor: Option<Cursor>, size: nat, page: Page) {
    && (cursor.Some? ==> cursor.value.rowId in table)
    && Descending(table, page.rows)
    && (forall i :: 0 <= i < |page.rows| ==> Selected(table, f, cursor, page.rows[i]))
    && (if page.more then |page.rows| == size else |page.rows| <= size)
    && (forall id :: Selected(table, f, cursor, id) && id !in page.rows ==>
          page.more && page.rows != [] && Above(KeyOf(table[page.rows[|page.rows| - 1]]), KeyOf(table[id])))
    && (page.more ==> exists id :: Selected(table, f, cursor, id) && id !in page.rows)
  }

  // ----- A walk over changing tables ----------------------------------------

  /** The token handed out with page `i` and presented with the next request. */
  function TokenAfter(table: Table, page: Page): Option<Cursor>
    requires page.rows != [] && page.rows[|page.rows| - 1] in table
  {
    var last := page.rows[|page.rows| - 1];
    Some(Cursor(last, table[last].stamp))
  }

  /** Page `i` was read from `tables[i]` with the token of page `i - 1`.  A token names its
      boundary row by rowid: some row is still there, which may have moved and may even be
      another task's, since a deleted row's rowid is free to be used again. */
  ghost predicate Walk(tables: seq<Table>, pages: seq<Page>, f: Filter, size: nat) {
    && |tables| == |pages| > 0 && size > 0
    && IsPage(tables[0], f, None, size, pages[0])
    && (forall i :: 0 <= i < |pages| - 1 ==> pages[i].more)
    && !pages[|pages| - 1].more
    && (forall i :: 0 < i < |pages| ==> Continues(tables[i - 1], pages[i - 1], tables[i], pages[i], f, size))
  }

  ghost predicate Continues(before: Table, previous: Page, table: Table, page: Page, f: Filter, size: nat) {
    && HasLast(before, previous)
    && LastRow(previous) in table
    && IsPage(table, f, TokenAfter(before, previous), size, page)
  }

  predicate HasLast(table: Table, page: Page) { page.rows != [] && page.rows[|page.rows| - 1] in table }

  function LastRow(page: Page): int
    requires page.rows != []
  {
    page.rows[|page.rows| - 1]
  }

  function LastKey(table: Table, page: Page): Key
    requires HasLast(table, page)
  {
    KeyOf(table[LastRow(page)])
  }

  /** The key the next request stops above: the token's timestamp with the id now in its row. */
  function NextKey(before: Table, previous: Page, table: Table): Key
    requires HasLast(before, previous) && LastRow(previous) in table
  {
    Boundary(table, TokenAfter(before, previous).value)
  }

  lemma WalkShape(tables: seq<Table>, pages: seq<Page>, f: Filter, size: nat, i: nat)
    requires Walk(tables, pages, f, size) && i < |pages|
    ensures |tables| == |pages|
    ensures Descending(tables[i], pages[i].rows)
    ensures i < |pages| - 1 ==> HasLast(tables[i], pages[i]) && LastRow(pages[i]) in tables[i + 1]
    ensures 0 < i ==> Continues(tables[i - 1], pages[i - 1], tables[i], pages[i], f, size)
  {
    if 0 < i { assert Continues(tables[i - 1], pages[i - 1], tables[i], pages[i], f, size); }
    if i < |pages| - 1 { assert Continues(tables[i], pages[i], tables[i + 1], pages[i + 1], f, size); }
  }

  /** Everything on a continuing page lies below the boundary as it is now. */
  lemma PageBelow(before: Table, previous: Page, table: Table, page: Page, f: Filter, size: nat, i: nat)
    requires Continues(before, previous, table, page, f, size) && i < |page.rows|
    ensures Above(NextKey(before, previous, table), KeyOf(table[page.rows[i]]))
  {
    assert Selected(table, f, TokenAfter(before, previous), page.rows[i]);
  }

  /** The boundary row itself is never listed again by the next request, wherever it moved. */
  lemma BoundaryNotRelisted(before: Table, previous: Page, table: Table, page: Page, f: Filter, size: nat)
    requires Continues(before, previous, table, page, f, size)
    ensures LastRow(previous) !in page.rows
  {
    forall i | 0 <= i < |page.rows| ensures page.rows[i] != LastRow(previous) {
      assert Selected(table, f, TokenAfter(before, previous), page.rows[i]);
    }
  }

  // ----- What holds of every walk -------------------------------------------

  /** Timestamps never go up along a walk, whatever changed between its pages. */
  lemma {:induction false} StampsDescend(tables: seq<Table>, pages: seq<Page>, f: Filter, size: nat, i: nat, j: nat, l: nat)
    requires Walk(tables, pages, f, size) && i < j < |pages| && l < |pages[j].rows|
    ensures HasLast(tables[i], pages[i]) && pages[j].rows[l] in tables[j]
    ensures LastKey(tables[i], pages[i]).stamp >= tables[j][pages[j].rows[l]].stamp
    decreases j
  {
    hide Walk; hide Continues;
    WalkShape(tables, pages, f, size, i);
    WalkShape(tables, pages, f, size, j);
    WalkShape(tables, pages, f, size, j - 1);
    PageBelow(tables[j - 1], pages[j - 1], tables[j], pages[j], f, size, l);
    if i < j - 1 { StampsDescend(tables, pages, f, size, i, j - 1, |pages[j - 1].rows| - 1); }
  }

  predicate Untouched(tables: seq<Table>, f: Filter, id: int, row: Row) {
    Matches(f, row) && forall i :: 0 <= i < |tables| ==> id in tables[i] && tables[i][id] == row
  }

  predicate OnPage(pages: seq<Page>, id: int, i: int) { 0 <= i < |pages| && id in pages[i].rows }

  /** The page left the row to come. */
  predicate LeftToCome(table: Table, page: Page, row: Row) {
    HasLast(table, page) && Above(LastKey(table, page), KeyOf(row))
  }

  /** The boundary as it is now has the row on the same side as when its page was read. */
  predicate SameSide(before: Table, previous: Page, table: Table, row: Row)
    requires HasLast(before, previous) && LastRow(previous) in table
  {
    Above(NextKey(before, previous, table), KeyOf(row)) <==> Above(LastKey(before, previous), KeyOf(row))
  }

  /** One request: an untouched matching row is still to come exactly if the page before
      left it to come, if and only if the boundary has stayed on the same side of it. */
  lemma StillToComeIff(before: Table, previous: Page, table: Table, f: Filter, id: int, row: Row)
    requires HasLast(before, previous) && LastRow(previous) in table
    requires Untouched([before, table], f, id, row)
    ensures (Selected(table, f, TokenAfter(before, previous), id) <==> LeftToCome(before, previous, row)) <==>
            SameSide(before, previous, table, row)
  {
    assert [before, table][0] == before && [before, table][1] == table;
    assert id in before && id in table && before[id] == row && table[id] == row;
    if id == LastRow(previous) { AboveTotal(KeyOf(row), KeyOf(row)); }
  }

  predicate TurnKeepsSide(before: Table, previous: Page, table: Table, row: Row) {
    HasLast(before, previous) && LastRow(previous) in table && SameSide(before, previous, table, row)
  }

  /** No boundary changes sides of the row. */
  ghost predicate SidesKept(tables: seq<Table>, pages: seq<Page>, row: Row) {
    |tables| == |pages| &&
    forall i :: 0 <= i < |pages| - 1 ==> TurnKeepsSide(tables[i], pages[i], tables[i + 1], row)
  }

  /** A row that is still to come is listed on this page or is still to come after it. */
  lemma ListedOrBelow(tables: seq<Table>, pages: seq<Page>, f: Filter, size: nat, id: int, row: Row, i: nat)
    requires Walk(tables, pages, f, size) && Untouched(tables, f, id, row) && SidesKept(tables, pages, row)
    requires i < |pages| && (i > 0 ==> LeftToCome(tables[i - 1], pages[i - 1], row))
    ensures id in pages[i].rows || (i < |pages| - 1 && LeftToCome(tables[i], pages[i], row))
  {
    WalkShape(tables, pages, f, size, i);
    var cursor := if i == 0 then None else TokenAfter(tables[i - 1], pages[i - 1]);
    assert IsPage(tables[i], f, cursor, size, pages[i]);
    if i > 0 {
      assert TurnKeepsSide(tables[i - 1], pages[i - 1], tables[i], row);
      if id == cursor.value.rowId { AboveTotal(KeyOf(row), KeyOf(row)); }
    }
    assert Selected(tables[i], f, cursor, id);
  }

  lemma {:induction false} ListedFrom(tables: seq<Table>, pages: seq<Page>, f: Filter, size: nat, id: int, row: Row, i: nat)
    returns (at: nat)
    requires Walk(tables, pages, f, size) && Untouched(tables, f, id, row) && SidesKept(tables, pages, row)
    requires i < |pages| && (i > 0 ==> LeftToCome(tables[i - 1], pages[i - 1], row))
    ensures i <= at && OnPage(pages, id, at)
    decreases |pages| - i
  {
    ListedOrBelow(tables, pages, f, size, id, row, i);
    if id in pages[i].rows {
      at := i;
    } else {
      at := ListedFrom(tables, pages, f, size, id, row, i + 1);
    }
  }

  /** A row not below one boundary is not below the next. */
  lemma StaysAbove(before: Table, previous: Page, table: Table, page: Page, f: Filter, size: nat, row: Row)
    requires Continues(before, previous, table, page, f, size) && TurnKeepsSide(before, previous, table, row)
    requires HasLast(table, page) && !Above(LastKey(before, previous), KeyOf(row))
    ensures !Above(LastKey(table, page), KeyOf(row))
  {
    hide Continues; hide Above;
    PageBelow(before, previous, table, page, f, size, |page.rows| - 1);
    if Above(LastKey(table, page), KeyOf(row)) {
      AboveTransitive(NextKey(before, previous, table), LastKey(table, page), KeyOf(row));
    }
  }

  /** Once a row is listed, no later boundary has it below. */
  lemma {:induction false} NotBelowAfter(tables: seq<Table>, pages: seq<Page>, f: Filter, size: nat, id: int, row: Row, i: nat, j: nat)
    requires Walk(tables, pages, f, size) && Untouched(tables, f, id, row) && SidesKept(tables, pages, row)
    requires i <= j < |pages| - 1 && id in pages[i].rows
    ensures HasLast(tables[j], pages[j]) && !Above(LastKey(tables[j], pages[j]), KeyOf(row))
    decreases j
  {
    hide Walk; hide Continues; hide Above; hide TurnKeepsSide;
    WalkShape(tables, pages, f, size, j);
    if i == j {
      LastIsLowest(tables[i], pages[i], id);
    } else {
      NotBelowAfter(tables, pages, f, size, id, row, i, j - 1);
      assert TurnKeepsSide(tables[j - 1], pages[j - 1], tables[j], row);
      StaysAbove(tables[j - 1], pages[j - 1], tables[j], pages[j], f, size, row);
    }
  }

  lemma LastIsLowest(table: Table, page: Page, id: int)
    requires Descending(table, page.rows) && id in page.rows
    ensures HasLast(table, page) && id in table && !Above(LastKey(table, page), KeyOf(table[id]))
  {
    var k :| 0 <= k < |page.rows| && page.rows[k] == id;
    AboveTotal(LastKey(table, page), KeyOf(table[id]));
    AboveTotal(KeyOf(table[id]), KeyOf(table[id]));
  }

  /** A matching row not modified during the walk is listed exactly once, if no boundary
      changes sides of it between two pages. */
  lemma ListedOnce(tables: seq<Table>, pages: seq<Page>, f: Filter, size: nat, id: int, row: Row)
    requires Walk(tables, pages, f, size) && Untouched(tables, f, id, row) && SidesKept(tables, pages, row)
    ensures exists i :: OnPage(pages, id, i) && forall j :: OnPage(pages, id, j) ==> i == j
  {
    var at := ListedFrom(tables, pages, f, size, id, row, 0);
    forall j | OnPage(pages, id, j) ensures at == j {
      if at < j { ListedAgain(tables, pages, f, size, id, row, at, j); }
      if j < at { ListedAgain(tables, pages, f, size, id, row, j, at); }
    }
  }

  lemma ListedAgain(tables: seq<Table>, pages: seq<Page>, f: Filter, size: nat, id: int, row: Row, i: nat, j: nat)
    requires Walk(tables, pages, f, size) && Untouched(tables, f, id, row) && SidesKept(tables, pages, row)
    requires i < j < |pages| && id in pages[i].rows
    ensures id !in pages[j].rows
  {
    hide Walk; hide Above; hide Continues;
    NotBelowAfter(tables, pages, f, size, id, row, i, j - 1);
    WalkShape(tables, pages, f, size, j);
    assert TurnKeepsSide(tables[j - 1], pages[j - 1], tables[j], row);
    forall k | 0 <= k < |pages[j].rows| ensures pages[j].rows[k] != id {
      PageBelow(tables[j - 1], pages[j - 1], tables[j], pages[j], f, size, k);
    }
  }

  lemma PageHasNoRepeats(tables: seq<Table>, pages: seq<Page>, f: Filter, size: nat, i: nat, k: nat, l: nat)
    requires Walk(tables, pages, f, size) && i < |pages| && k < l < |pages[i].rows|
    ensures pages[i].rows[k] != pages[i].rows[l]
  {
    WalkShape(tables, pages, f, size, i);
    AboveTotal(KeyOf(tables[i][pages[i].rows[k]]), KeyOf(tables[i][pages[i].rows[k]]));
  }

  /** The timestamp of no token handed out during the walk is the row's. */
  ghost predicate StampApart(tables: seq<Table>, pages: seq<Page>, row: Row) {
    |tables| == |pages| &&
    forall i :: 0 <= i < |pages| - 1 && HasLast(tables[i], pages[i]) ==> LastKey(tables[i], pages[i]).stamp != row.stamp
  }

  /** Over every walk, boundary rows taken by other tasks included, an untouched matching
      row is listed exactly once if its timestamp is not that of a token. */
  lemma ApartListedOnce(tables: seq<Table>, pages: seq<Page>, f: Filter, size: nat, id: int, row: Row)
    requires Walk(tables, pages, f, size) && Untouched(tables, f, id, row) && StampApart(tables, pages, row)
    ensures exists i :: OnPage(pages, id, i) && forall j :: OnPage(pages, id, j) ==> i == j
  {
    forall i | 0 <= i < |pages| - 1 ensures TurnKeepsSide(tables[i], pages[i], tables[i + 1], row) {
      WalkShape(tables, pages, f, size, i);
    }
    ListedOnce(tables, pages, f, size, id, row);
  }

  // ----- When boundary rows keep their task ---------------------------------

  /** The task in the row the token names is still the one it was when the page was read. */
  predicate TurnKeepsTask(before: Table, previous: Page, table: Table) {
    HasLast(before, previous) && LastRow(previous) in table ==>
      table[LastRow(previous)].taskId == before[LastRow(previous)].taskId
  }

  ghost predicate BoundariesKept(tables: seq<Table>, pages: seq<Page>) {
    |tables| == |pages| && forall i :: 0 <= i < |pages| - 1 ==> TurnKeepsTask(tables[i], pages[i], tables[i + 1])
  }

  lemma KeptBoundary(tables: seq<Table>, pages: seq<Page>, f: Filter, size: nat, i: nat)
    requires Walk(tables, pages, f, size) && BoundariesKept(tables, pages) && i < |pages| - 1
    ensures HasLast(tables[i], pages[i]) && LastRow(pages[i]) in tables[i + 1]
    ensures NextKey(tables[i], pages[i], tables[i + 1]) == LastKey(tables[i], pages[i])
  {
    WalkShape(tables, pages, f, size, i);
    assert TurnKeepsTask(tables[i], pages[i], tables[i + 1]);
  }

  /** Whatever is listed on a later page lies below the last row of an earlier one. */
  lemma {:induction false} LaterBelow(tables: seq<Table>, pages: seq<Page>, f: Filter, size: nat, i: nat, j: nat, k: nat)
    requires Walk(tables, pages, f, size) && BoundariesKept(tables, pages) && i < j < |pages| && k < |pages[j].rows|
    ensures HasLast(tables[i], pages[i]) && pages[j].rows[k] in tables[j]
    ensures Above(LastKey(tables[i], pages[i]), KeyOf(tables[j][pages[j].rows[k]]))
    decreases j
  {
    hide Walk; hide Continues; hide Above; hide BoundariesKept;
    WalkShape(tables, pages, f, size, i);
    WalkShape(tables, pages, f, size, j);
    WalkShape(tables, pages, f, size, j - 1);
    KeptBoundary(tables, pages, f, size, j - 1);
    PageBelow(tables[j - 1], pages[j - 1], tables[j], pages[j], f, size, k);
    if i < j - 1 {
      LaterBelow(tables, pages, f, size, i, j - 1, |pages[j - 1].rows| - 1);
      AboveTransitive(LastKey(tables[i], pages[i]), LastKey(tables[j - 1], pages[j - 1]),
                      KeyOf(tables[j][pages[j].rows[k]]));
    }
  }

  /** As long as boundary rows keep their task the whole walk lists keys in strictly
      descending order, whatever else changes between its pages. */
  lemma WalkDescends(tables: seq<Table>, pages: seq<Page>, f: Filter, size: nat, i: nat, k: nat, j: nat, l: nat)
    requires Walk(tables, pages, f, size) && BoundariesKept(tables, pages)
    requires i < |pages| && k < |pages[i].rows| && j < |pages| && l < |pages[j].rows|
    requires i < j || (i == j && k < l)
    ensures pages[i].rows[k] in tables[i] && pages[j].rows[l] in tables[j]
    ensures Above(KeyOf(tables[i][pages[i].rows[k]]), KeyOf(tables[j][pages[j].rows[l]]))
  {
    hide BoundariesKept;
    WalkShape(tables, pages, f, size, i);
    if i < j {
      LaterBelow(tables, pages, f, size, i, j, l);
      if k < |pages[i].rows| - 1 {
        AboveTransitive(KeyOf(tables[i][pages[i].rows[k]]), LastKey(tables[i], pages[i]),
                        KeyOf(tables[j][pages[j].rows[l]]));
      }
    }
  }

  lemma KeptSides(tables: seq<Table>, pages: seq<Page>, f: Filter, size: nat, row: Row)
    requires Walk(tables, pages, f, size) && BoundariesKept(tables, pages)
    ensures SidesKept(tables, pages, row)
  {
    forall i | 0 <= i < |pages| - 1 ensures TurnKeepsSide(tables[i], pages[i], tables[i + 1], row) {
      KeptBoundary(tables, pages, f, size, i);
    }
  }

  /** As long as boundary rows keep their task, a matching row not modified during the walk
      is listed exactly once, even when other rows, the boundary row included, move or
      appear between pages. */
  lemma UntouchedListedOnce(tables: seq<Table>, pages: seq<Page>, f: Filter, size: nat, id: int, row: Row)
    requires Walk(tables, pages, f, size) && Untouched(tables, f, id, row) && BoundariesKept(tables, pages)
    ensures exists i :: OnPage(pages, id, i) && forall j :: OnPage(pages, id, j) ==> i == j
    ensures forall i, k, l :: 0 <= i < |pages| && 0 <= k < l < |pages[i].rows| ==> pages[i].rows[k] != pages[i].rows[l]
  {
    forall i, k, l | 0 <= i < |pages| && 0 <= k < l < |pages[i].rows| ensures pages[i].rows[k] != pages[i].rows[l] {
      PageHasNoRepeats(tables, pages, f, size, i, k, l);
    }
    KeptSides(tables, pages, f, size, row);
    ListedOnce(tables, pages, f, size, id, row);
  }

  // ----- When a boundary row is taken by another task -----------------------

  const ANY: Filter := Filter(None, None, None, None)

  function Plain(taskId: string, stamp: int): Row { Row(taskId, stamp, true, "c", "s", None, false, true) }

  /** A row is lost: the boundary task "m" is deleted and "0" takes its rowid, and the next
      request stops above "0" at the old timestamp, so the tied row "a" is never listed. */
  lemma ReusedRowLosesTask() returns (tables: seq<Table>, pages: seq<Page>)
    ensures Walk(tables, pages, ANY, 1) && Untouched(tables, ANY, 1, Plain("a", 5))
    ensures forall i :: !OnPage(pages, 1, i)
  {
    var first := map[1 := Plain("a", 5), 2 := Plain("m", 5)];
    var second := map[1 := Plain("a", 5), 2 := Plain("0", 9)];
    tables := [first, second];
    pages := [Page([2], true), Page([], false)];
    assert TextLess("a", "m") && TextLess("0", "a");
    TextTotal("0", "a");
    assert Selected(first, ANY, None, 1) && 1 !in pages[0].rows;
    assert IsPage(first, ANY, None, 1, pages[0]);
    assert IsPage(second, ANY, Some(Cursor(2, 5)), 1, pages[1]);
    assert Continues(first, pages[0], second, pages[1], ANY, 1);
  }

  /** A row is repeated: the boundary task "b" is deleted and "z" takes its rowid, so the
      next request starts over above the tied row "c". */
  lemma ReusedRowRepeatsTask() returns (tables: seq<Table>, pages: seq<Page>)
    ensures Walk(tables, pages, ANY, 1) && Untouched(tables, ANY, 1, Plain("c", 5))
    ensures OnPage(pages, 1, 0) && OnPage(pages, 1, 2)
  {
    var first := map[1 := Plain("c", 5), 2 := Plain("a", 5), 3 := Plain("b", 5)];
    var second := map[1 := Plain("c", 5), 2 := Plain("a", 5), 3 := Plain("z", 9)];
    tables := [first, first, second, second];
    pages := [Page([1], true), Page([3], true), Page([1], true), Page([2], false)];
    FirstRepeatPages();
    LastRepeatPages();
    hide Continues; hide IsPage;
  }

  lemma FirstRepeatPages()
    ensures var first := map[1 := Plain("c", 5), 2 := Plain("a", 5), 3 := Plain("b", 5)];
            IsPage(first, ANY, None, 1, Page([1], true)) &&
            Continues(first, Page([1], true), first, Page([3], true), ANY, 1)
  {
    var first := map[1 := Plain("c", 5), 2 := Plain("a", 5), 3 := Plain("b", 5)];
    assert TextLess("a", "b") && TextLess("b", "c") && TextLess("a", "c");
    TextTotal("c", "c");
    assert Selected(first, ANY, None, 2) && Selected(first, ANY, Some(Cursor(1, 5)), 2);
  }

  lemma LastRepeatPages()
    ensures var first, second := map[1 := Plain("c", 5), 2 := Plain("a", 5), 3 := Plain("b", 5)],
                                 map[1 := Plain("c", 5), 2 := Plain("a", 5), 3 := Plain("z", 9)];
            Continues(first, Page([3], true), second, Page([1], true), ANY, 1) &&
            Continues(second, Page([1], true), second, Page([2], false), ANY, 1)
  {
    var second := map[1 := Plain("c", 5), 2 := Plain("a", 5), 3 := Plain("z", 9)];
    assert TextLess("a", "c") && TextLess("c", "z") && TextLess("a", "z");
    assert Selected(second, ANY, Some(Cursor(3, 5)), 2);
  }

  // ----- A walk over a quiescent table --------------------------------------

  function Concat(pages: seq<Page>): seq<int> {
    if pages == [] then [] else Concat(pages[..|pages| - 1]) + pages[|pages| - 1].rows
  }

  lemma {:induction false} ConcatSource(pages: seq<Page>, x: nat) returns (i: nat, k: nat)
    requires x < |Concat(pages)|
    ensures i < |pages| && k < |pages[i].rows| && Concat(pages)[x] == pages[i].rows[k]
  {
    var init := pages[..|pages| - 1];
    if x < |Concat(init)| {
      i, k := ConcatSource(init, x);
    } else {
      i, k := |pages| - 1, x - |Concat(init)|;
    }
  }

  lemma {:induction false} ConcatHolds(pages: seq<Page>, id: int, i: nat)
    requires OnPage(pages, id, i)
    ensures id in Concat(pages)
  {
    if i < |pages| - 1 { ConcatHolds(pages[..|pages| - 1], id, i); }
  }

  predicate Quiescent(tables: seq<Table>, table: Table) {
    forall i :: 0 <= i < |tables| ==> tables[i] == table
  }

  lemma JoinDescends(table: Table, a: seq<int>, b: seq<int>)
    requires Descending(table, a) && Descending(table, b)
    requires forall x, l :: 0 <= x < |a| && 0 <= l < |b| ==> Above(KeyOf(table[a[x]]), KeyOf(table[b[l]]))
    ensures Descending(table, a + b)
  {
    hide Above;
  }

  lemma QuiescentKeeps(tables: seq<Table>, pages: seq<Page>, table: Table)
    requires |tables| == |pages| && Quiescent(tables, table)
    ensures BoundariesKept(tables, pages)
  {
  }

  lemma {:induction false} PrefixDescends(tables: seq<Table>, pages: seq<Page>, f: Filter, size: nat, table: Table, m: nat)
    requires Walk(tables, pages, f, size) && Quiescent(tables, table) && m <= |pages|
    ensures Descending(table, Concat(pages[..m]))
  {
    hide Walk; hide Above;
    if m > 0 {
      PrefixDescends(tables, pages, f, size, table, m - 1);
      assert pages[..m][..m - 1] == pages[..m - 1];
      WalkShape(tables, pages, f, size, m - 1);
      var init, rows := Concat(pages[..m - 1]), pages[m - 1].rows;
      QuiescentKeeps(tables, pages, table);
      forall x, l | 0 <= x < |init| && 0 <= l < |rows| ensures Above(KeyOf(table[init[x]]), KeyOf(table[rows[l]])) {
        var i, k := ConcatSource(pages[..m - 1], x);
        WalkDescends(tables, pages, f, size, i, k, m - 1, l);
      }
      JoinDescends(table, init, rows);
    }
  }

  lemma {:induction false} PrefixLength(pages: seq<Page>, size: nat, m: nat)
    requires m <= |pages| && forall i :: 0 <= i < m ==> |pages[i].rows| == size
    ensures |Concat(pages[..m])| == m * size
  {
    if m > 0 {
      PrefixLength(pages, size, m - 1);
      assert pages[..m][..m - 1] == pages[..m - 1];
    }
  }

  lemma PageMatches(tables: seq<Table>, pages: seq<Page>, f: Filter, size: nat, i: nat, k: nat)
    requires Walk(tables, pages, f, size) && i < |pages| && k < |pages[i].rows|
    ensures pages[i].rows[k] in tables[i] && Matches(f, tables[i][pages[i].rows[k]])
  {
    WalkShape(tables, pages, f, size, i);
    var cursor := if i == 0 then None else TokenAfter(tables[i - 1], pages[i - 1]);
    assert IsPage(tables[i], f, cursor, size, pages[i]);
    assert Selected(tables[i], f, cursor, pages[i].rows[k]);
  }

  lemma FullPages(tables: seq<Table>, pages: seq<Page>, f: Filter, size: nat, i: nat)
    requires Walk(tables, pages, f, size) && i < |pages|
    ensures if i < |pages| - 1 then |pages[i].rows| == size else |pages[i].rows| <= size
  {
    WalkShape(tables, pages, f, size, i);
    var cursor := if i == 0 then None else TokenAfter(tables[i - 1], pages[i - 1]);
    assert IsPage(tables[i], f, cursor, size, pages[i]);
  }

  /** On an unchanging table a page that promises more is followed by a non-empty one. */
  lemma MoreIsKept(tables: seq<Table>, pages: seq<Page>, f: Filter, size: nat, table: Table, i: nat)
    requires Walk(tables, pages, f, size) && Quiescent(tables, table) && i + 1 < |pages|
    ensures pages[i + 1].rows != []
  {
    WalkShape(tables, pages, f, size, i);
    WalkShape(tables, pages, f, size, i + 1);
    var cursor := if i == 0 then None else TokenAfter(tables[i - 1], pages[i - 1]);
    assert IsPage(table, f, cursor, size, pages[i]);
    var id :| Selected(table, f, cursor, id) && id !in pages[i].rows;
    assert Selected(table, f, TokenAfter(table, pages[i]), id);
  }

  function Matching(table: Table, f: Filter): set<int> {
    set id | id in table && Matches(f, table[id])
  }

  function Rows(rows: seq<int>): set<int> { set id | id in rows }

  lemma {:induction false} DescendingSize(table: Table, rows: seq<int>)
    requires Descending(table, rows)
    ensures |Rows(rows)| == |rows|
  {
    if rows != [] {
      var init, last := rows[..|rows| - 1], rows[|rows| - 1];
      DescendingSize(table, init);
      forall x | 0 <= x < |init| ensures init[x] != last {
        AboveTotal(KeyOf(table[last]), KeyOf(table[last]));
        assert Above(KeyOf(table[rows[x]]), KeyOf(table[last]));
      }
      assert Rows(rows) == Rows(init) + {last};
    }
  }

  /** With nothing changing, the pages concatenate to the sorted list of all matching
      rows, in max(1, ceil(n / size)) pages. */
  lemma QuiescentWalk(tables: seq<Table>, pages: seq<Page>, f: Filter, size: nat, table: Table)
    requires Walk(tables, pages, f, size) && Quiescent(tables, table)
    ensures Descending(table, Concat(pages))
    ensures forall id :: id in Concat(pages) <==> id in Matching(table, f)
    ensures var n := |Matching(table, f)|;
            |Concat(pages)| == n && n <= |pages| * size && (|pages| > 1 ==> (|pages| - 1) * size < n)
  {
    assert pages[..|pages|] == pages;
    PrefixDescends(tables, pages, f, size, table, |pages|);
    ListsMatching(tables, pages, f, size, table);
    DescendingSize(table, Concat(pages));
    forall id ensures id in Rows(Concat(pages)) <==> id in Matching(table, f) {
      assert id in Concat(pages) <==> id in Matching(table, f);
    }
    assert Rows(Concat(pages)) == Matching(table, f);
    WalkLength(tables, pages, f, size, table);
  }

  lemma ListsMatching(tables: seq<Table>, pages: seq<Page>, f: Filter, size: nat, table: Table)
    requires Walk(tables, pages, f, size) && Quiescent(tables, table)
    ensures forall id :: id in Concat(pages) <==> id in Matching(table, f)
  {
    forall id | id in Concat(pages) ensures id in Matching(table, f) {
      var x :| 0 <= x < |Concat(pages)| && Concat(pages)[x] == id;
      var i, k := ConcatSource(pages, x);
      PageMatches(tables, pages, f, size, i, k);
    }
    QuiescentKeeps(tables, pages, table);
    forall id | id in Matching(table, f) ensures id in Concat(pages) {
      KeptSides(tables, pages, f, size, table[id]);
      var at := ListedFrom(tables, pages, f, size, id, table[id], 0);
      ConcatHolds(pages, id, at);
    }
  }

  lemma PageArithmetic(n: nat, size: nat, rest: nat, total: nat)
    requires n > 0 && total == (n - 1) * size + rest && rest <= size && (n > 1 ==> rest > 0)
    ensures total <= n * size && (n > 1 ==> (n - 1) * size < total)
  {
    assert n * size == (n - 1) * size + size;
  }

  lemma WalkLength(tables: seq<Table>, pages: seq<Page>, f: Filter, size: nat, table: Table)
    requires Walk(tables, pages, f, size) && Quiescent(tables, table)
    ensures |Concat(pages)| <= |pages| * size && (|pages| > 1 ==> (|pages| - 1) * size < |Concat(pages)|)
  {
    var n := |pages|;
    assert n > 0;
    hide Walk;
    forall i | 0 <= i < n - 1 ensures |pages[i].rows| == size { FullPages(tables, pages, f, size, i); }
    FullPages(tables, pages, f, size, n - 1);
    PrefixLength(pages, size, n - 1);
    if n > 1 { MoreIsKept(tables, pages, f, size, table, n - 2); }
    PageArithmetic(n, size, |pages[n - 1].rows|, |Concat(pages)|);
  }
}
