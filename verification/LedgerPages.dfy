/**
 Loading the ledger page by page (frontend/src/App.jsx, `loadTransactionLedgerItems`).

 The server is a function of the request number and the offset, so it may answer differently at each
 request; `None` is a request that fails. A row without an id has the empty id.
 */
module LedgerPages {
  import opened Numbers
  import opened Outcomes

  const PAGE_LIMIT: nat := 1000
  const MAX_PAGES: nat := 60

  datatype Row = Row(id: string, text: string)

  type Server = (nat, nat) -> Option<seq<Row>>

  datatype Loaded = Loaded(rows: Option<seq<Row>>, requests: nat)

  predicate Seen(rows: seq<Row>, id: string) {
    exists i :: 0 <= i < |rows| && rows[i].id == id
  }

  predicate Repeats(rows: seq<Row>, row: Row) {
    row.id != "" && Seen(rows, row.id)
  }

  /** The rows of a page appended, except those whose id is there already. */
  function AppendNew(all: seq<Row>, page: seq<Row>): (r: seq<Row>)
    ensures |all| <= |r|
    decreases |page|
  {
    if page == [] then all
    else AppendNew(if Repeats(all, page[0]) then all else all + [page[0]], page[1..])
  }

  datatype Limits = Limits(page: nat, pages: nat)

  const LEDGER_LIMITS := Limits(PAGE_LIMIT, MAX_PAGES)

  /** The requests from number `k` on. */
  function Load(limits: Limits, server: Server, k: nat, offset: nat, all: seq<Row>): (r: Loaded)
    requires k <= limits.pages
    ensures k <= r.requests <= limits.pages
    decreases limits.pages - k
  {
    if k == limits.pages then Loaded(Some(all), k)
    else match server(k, offset)
      case None => Loaded(None, k + 1)
      case Some(page) =>
        var next := AppendNew(all, page);
        if |page| < limits.page || |next| == |all| then Loaded(Some(next), k + 1)
        else Load(limits, server, k + 1, offset + |page|, next)
  }

  method AppendPage(all: seq<Row>, page: seq<Row>, seenIds: set<string>)
    returns (allRows: seq<Row>, seen: set<string>, appendedCount: nat)
    requires forall id :: id in seenIds <==> id != "" && Seen(all, id)
    ensures allRows == AppendNew(all, page) && appendedCount == |allRows| - |all|
    ensures forall id :: id in seen <==> id != "" && Seen(allRows, id)
  {
    allRows, seen, appendedCount := all, seenIds, 0;
    for i := 0 to |page|
      invariant AppendNew(all, page) == AppendNew(allRows, page[i..])
      invariant |allRows| == |all| + appendedCount
      invariant forall id :: id in seen <==> id != "" && Seen(allRows, id)
    {
      var row := page[i];
      assert page[i..][0] == row && page[i..][1..] == page[i + 1..];
      if row.id != "" && row.id in seen {
        continue;
      }
      SeenAppend(allRows, row);
      if row.id != "" {
        seen := seen + {row.id};
      }
      allRows := allRows + [row];
      appendedCount := appendedCount + 1;
    }
  }

  lemma SeenAppend(rows: seq<Row>, row: Row)
    ensures forall id :: Seen(rows + [row], id) <==> Seen(rows, id) || id == row.id
  {
    forall id ensures Seen(rows + [row], id) <==> Seen(rows, id) || id == row.id {
      assert (rows + [row])[|rows|] == row;
      if Seen(rows, id) {
        var i :| 0 <= i < |rows| && rows[i].id == id;
        assert (rows + [row])[i].id == id;
      }
    }
  }

  method LoadTransactionLedgerItems(server: Server) returns (r: Loaded)
    ensures r == Load(LEDGER_LIMITS, server, 0, 0, [])
  {
    r := LoadPages(LEDGER_LIMITS, server);
  }

  method LoadPages(limits: Limits, server: Server) returns (r: Loaded)
    ensures r == Load(limits, server, 0, 0, [])
  {
    var allRows: seq<Row>, seenIds: set<string>, offset: nat := [], {}, 0;
    for k := 0 to limits.pages
      invariant Load(limits, server, 0, 0, []) == Load(limits, server, k, offset, allRows)
      invariant forall id :: id in seenIds <==> id != "" && Seen(allRows, id)
    {
      var answer := server(k, offset);
      if answer.None? {
        return Loaded(None, k + 1);
      }
      var page := answer.value;
      var appendedCount: nat;
      allRows, seenIds, appendedCount := AppendPage(allRows, page, seenIds);
      if |page| < limits.page || appendedCount == 0 {
        return Loaded(Some(allRows), k + 1);
      }
      offset := offset + |page|;
    }
    r := Loaded(Some(allRows), limits.pages);
  }

  // ---------------------------------------------------------------------------
  // Any server
  // ---------------------------------------------------------------------------

  ghost predicate NoIdTwice(rows: seq<Row>) {
    forall i, j :: 0 <= i < j < |rows| && rows[i].id != "" ==> rows[i].id != rows[j].id
  }

  lemma {:induction false} AppendKeepsIds(all: seq<Row>, page: seq<Row>)
    requires NoIdTwice(all)
    ensures NoIdTwice(AppendNew(all, page))
    decreases |page|
  {
    if page != [] {
      var next := if Repeats(all, page[0]) then all else all + [page[0]];
      assert NoIdTwice(next) by {
        forall i | 0 <= i < |all| && !Repeats(all, page[0]) && all[i].id != "" ensures all[i].id != page[0].id {
          assert all[i].id == page[0].id ==> Seen(all, page[0].id);
        }
      }
      AppendKeepsIds(next, page[1..]);
    }
  }

  lemma {:induction false} LoadKeepsIds(limits: Limits, server: Server, k: nat, offset: nat, all: seq<Row>)
    requires k <= limits.pages && NoIdTwice(all)
    ensures var r := Load(limits, server, k, offset, all).rows; r.Some? ==> NoIdTwice(r.value)
    decreases limits.pages - k
  {
    if k < limits.pages && server(k, offset).Some? {
      var page := server(k, offset).value;
      AppendKeepsIds(all, page);
      if |page| >= limits.page {
        LoadKeepsIds(limits, server, k + 1, offset + |page|, AppendNew(all, page));
      }
    }
  }

  /** Whatever the server does, also when its list changes between two pages, at most 60 requests are
      made and no nonempty id comes back twice. */
  lemma AnyServerNoRepeats(server: Server)
    ensures var r := Load(LEDGER_LIMITS, server, 0, 0, []);
      r.requests <= 60 && (r.rows.Some? ==> NoIdTwice(r.rows.value))
  {
    LoadKeepsIds(LEDGER_LIMITS, server, 0, 0, []);
  }

  // What was loaded, told by the answers.

  /** The rows without those whose nonempty id came before. */
  function FirstRows(rows: seq<Row>): seq<Row> {
    if rows == [] then []
    else
      var front, last := rows[..|rows| - 1], rows[|rows| - 1];
      FirstRows(front) + if last.id != "" && Seen(front, last.id) then [] else [last]
  }

  function Concat(pages: seq<seq<Row>>): seq<Row> {
    if pages == [] then [] else pages[0] + Concat(pages[1..])
  }

  lemma {:induction false} FirstRowsSeen(rows: seq<Row>, id: string)
    requires id != ""
    ensures Seen(FirstRows(rows), id) <==> Seen(rows, id)
  {
    if rows != [] {
      var front, last := rows[..|rows| - 1], rows[|rows| - 1];
      FirstRowsSeen(front, id);
      assert rows == front + [last] && FirstRows(front) + [] == FirstRows(front);
      SeenAppend(front, last);
      SeenAppend(FirstRows(front), last);
    }
  }

  /** Appending a page to the first rows gives the first rows of all. */
  lemma {:induction false} AppendNewIsFirstRows(before: seq<Row>, page: seq<Row>)
    ensures AppendNew(FirstRows(before), page) == FirstRows(before + page)
    decreases |page|
  {
    if page == [] {
      assert before + page == before;
    } else {
      var more := before + [page[0]];
      assert more[..|more| - 1] == before && FirstRows(before) + [] == FirstRows(before);
      if page[0].id != "" {
        FirstRowsSeen(before, page[0].id);
      }
      AppendNewIsFirstRows(more, page[1..]);
      assert more + page[1..] == before + page;
    }
  }

  /** The pages are the server's answers from request k on, each at the offset of all rows before it; every page but the
      last was full and brought a new row. */
  ghost predicate Answers(limits: Limits, server: Server, k: nat, before: seq<Row>, pages: seq<seq<Row>>)
    decreases |pages|
  {
    pages != [] ==>
      && server(k, |before|) == Some(pages[0])
      && (|pages| > 1 ==> Goes(limits, before, pages[0]))
      && Answers(limits, server, k + 1, before + pages[0], pages[1..])
  }

  /** The page is full and brings a row whose id is empty or new. */
  ghost predicate Goes(limits: Limits, before: seq<Row>, page: seq<Row>) {
    |page| >= limits.page && |FirstRows(before + page)| > |FirstRows(before)|
  }

  /** How loading ended: at a request that failed, or with the first rows of all pages, after a short page, one that
      brought nothing new, or the last page allowed. */
  ghost predicate Ends(limits: Limits, server: Server, k: nat, before: seq<Row>, pages: seq<seq<Row>>, r: Loaded) {
    if r.rows.None? then
      && r.requests == k + |pages| + 1 <= limits.pages && server(k + |pages|, |before + Concat(pages)|) == None
      && (pages != [] ==> Goes(limits, before + Concat(pages[..|pages| - 1]), pages[|pages| - 1]))
    else
      && r.requests == k + |pages| && r.rows.value == FirstRows(before + Concat(pages))
      && (if pages == [] then k == limits.pages
          else k + |pages| == limits.pages || !Goes(limits, before + Concat(pages[..|pages| - 1]), pages[|pages| - 1]))
  }

  lemma ConcatCons(before: seq<Row>, page: seq<Row>, pages: seq<seq<Row>>)
    ensures before + Concat([page] + pages) == before + page + Concat(pages)
  {
    assert ([page] + pages)[1..] == pages;
  }

  lemma EndsBefore(limits: Limits, server: Server, k: nat, before: seq<Row>, page: seq<Row>, pages: seq<seq<Row>>,
                   r: Loaded)
    requires Ends(limits, server, k + 1, before + page, pages, r) && Goes(limits, before, page)
    ensures Ends(limits, server, k, before, [page] + pages, r)
  {
    var all := [page] + pages;
    ConcatCons(before, page, pages);
    if pages == [] {
      assert all[..0] == [] && before + [] == before;
    } else {
      assert all[..|all| - 1] == [page] + pages[..|pages| - 1];
      ConcatCons(before, page, pages[..|pages| - 1]);
    }
  }

  lemma {:induction false} LoadTrace(limits: Limits, server: Server, k: nat, before: seq<Row>)
    returns (pages: seq<seq<Row>>)
    requires k <= limits.pages
    ensures Answers(limits, server, k, before, pages)
    ensures Ends(limits, server, k, before, pages, Load(limits, server, k, |before|, FirstRows(before)))
    decreases limits.pages - k
  {
    if k == limits.pages || server(k, |before|).None? {
      pages := [];
      assert before + [] == before;
    } else {
      var page := server(k, |before|).value;
      AppendNewIsFirstRows(before, page);
      if Goes(limits, before, page) {
        var rest := LoadTrace(limits, server, k + 1, before + page);
        pages := [page] + rest;
        assert pages[1..] == rest;
        EndsBefore(limits, server, k, before, page, rest, Load(limits, server, k, |before|, FirstRows(before)));
      } else {
        pages := [page];
        OnePage(limits, server, k, before, page);
      }
    }
  }

  lemma OnePage(limits: Limits, server: Server, k: nat, before: seq<Row>, page: seq<Row>)
    requires k < limits.pages && server(k, |before|) == Some(page) && !Goes(limits, before, page)
    ensures Answers(limits, server, k, before, [page])
    ensures Ends(limits, server, k, before, [page], Load(limits, server, k, |before|, FirstRows(before)))
  {
    AppendNewIsFirstRows(before, page);
    assert [page][1..] == [] && [page][..0] == [];
    assert Concat([page]) == page && before + [] == before;
  }

  /** Whatever the server does, the ledger that is loaded is told by the answers: the rows of all pages in order,
      without those whose id came before. */
  lemma AnyServerLoaded(server: Server) returns (pages: seq<seq<Row>>)
    ensures Answers(LEDGER_LIMITS, server, 0, [], pages)
    ensures Ends(LEDGER_LIMITS, server, 0, [], pages, Load(LEDGER_LIMITS, server, 0, 0, []))
  {
    pages := LoadTrace(LEDGER_LIMITS, server, 0, []);
  }

  // ---------------------------------------------------------------------------
  // A stable list
  // ---------------------------------------------------------------------------

  /** The server of a list that does not change. */
  function Stable(limits: Limits, rows: seq<Row>): Server {
    (k: nat, offset: nat) => Some(rows[Min(offset, |rows|)..Min(offset + limits.page, |rows|)])
  }

  ghost predicate AllDifferent(rows: seq<Row>) {
    (forall i :: 0 <= i < |rows| ==> rows[i].id != "") && NoIdTwice(rows)
  }

  lemma {:induction false} NewRowsAllAppended(all: seq<Row>, page: seq<Row>)
    requires AllDifferent(all + page)
    ensures AppendNew(all, page) == all + page
    decreases |page|
  {
    if page != [] {
      assert (all + page)[|all|] == page[0];
      forall i | 0 <= i < |all| ensures all[i].id != page[0].id {
        assert (all + page)[i] == all[i];
      }
      assert all + [page[0]] + page[1..] == all + page;
      NewRowsAllAppended(all + [page[0]], page[1..]);
    } else {
      assert all + page == all;
    }
  }

  /** One page of a stable list, from position `offset` on. */
  lemma StablePage(limits: Limits, rows: seq<Row>, k: nat, offset: nat)
    requires AllDifferent(rows) && offset <= |rows|
    ensures var end := Min(offset + limits.page, |rows|);
      && Stable(limits, rows)(k, offset) == Some(rows[offset..end])
      && AppendNew(rows[..offset], rows[offset..end]) == rows[..end]
  {
    PageAppended(rows, offset, Min(offset + limits.page, |rows|));
  }

  lemma PageAppended(rows: seq<Row>, offset: nat, end: nat)
    requires AllDifferent(rows) && offset <= end <= |rows|
    ensures AppendNew(rows[..offset], rows[offset..end]) == rows[..end]
  {
    assert rows[..offset] + rows[offset..end] == rows[..end];
    PrefixDiffers(rows, end);
    NewRowsAllAppended(rows[..offset], rows[offset..end]);
  }

  lemma PrefixDiffers(rows: seq<Row>, end: nat)
    requires AllDifferent(rows) && end <= |rows|
    ensures AllDifferent(rows[..end])
  {
  }

  /** How many of `rows` rows are loaded when `pages` pages are allowed: a short page ends the loading. */
  function Reached(page: nat, pages: nat, rows: nat): (r: nat)
    ensures r <= rows
  {
    if pages == 0 then 0 else if rows < page then rows else page + Reached(page, pages - 1, rows - page)
  }

  /** And how many requests that takes. */
  function Requests(page: nat, pages: nat, rows: nat): nat {
    if pages == 0 then 0 else if rows < page then 1 else 1 + Requests(page, pages - 1, rows - page)
  }

  /** One request for a full page of `rows`, or for the short page that ends them. */
  ghost predicate Steps(limits: Limits, server: Server, rows: seq<Row>, k: nat, offset: nat)
    requires k < limits.pages && offset <= |rows|
  {
    Load(limits, server, k, offset, rows[..offset])
      == if |rows| - offset < limits.page then Loaded(Some(rows), k + 1)
         else Load(limits, server, k + 1, offset + limits.page, rows[..offset + limits.page])
  }

  lemma StableSteps(limits: Limits, rows: seq<Row>, k: nat, offset: nat)
    requires AllDifferent(rows) && limits.page > 0 && k < limits.pages && offset <= |rows|
    ensures Steps(limits, Stable(limits, rows), rows, k, offset)
  {
    StablePage(limits, rows, k, offset);
    PageSteps(limits, Stable(limits, rows), rows, k, offset);
  }

  /** A server that answers with the next rows, which are all new, makes one such step. */
  lemma PageSteps(limits: Limits, server: Server, rows: seq<Row>, k: nat, offset: nat)
    requires limits.page > 0 && k < limits.pages && offset <= |rows|
    requires var end := Min(offset + limits.page, |rows|);
      server(k, offset) == Some(rows[offset..end]) && AppendNew(rows[..offset], rows[offset..end]) == rows[..end]
    ensures Steps(limits, server, rows, k, offset)
  {
    assert rows[..|rows|] == rows;
  }

  /** From position `offset` on, the pages that are left load the rest of the list, as far as they reach. */
  lemma {:induction false} PagesLoad(limits: Limits, server: Server, rows: seq<Row>, k: nat, offset: nat)
    requires k <= limits.pages && offset <= |rows| && limits.page > 0
    requires forall i: nat, o: nat :: i < limits.pages && o <= |rows| ==> Steps(limits, server, rows, i, o)
    ensures var left, rest := limits.pages - k, |rows| - offset;
      Load(limits, server, k, offset, rows[..offset])
        == Loaded(Some(rows[..offset + Reached(limits.page, left, rest)]), k + Requests(limits.page, left, rest))
    decreases limits.pages - k
  {
    if k < limits.pages {
      assert Steps(limits, server, rows, k, offset);
      if |rows| - offset >= limits.page {
        PagesLoad(limits, server, rows, k + 1, offset + limits.page);
      } else {
        assert rows[..|rows|] == rows;
      }
    }
  }

  lemma {:induction false} LedgerReached(page: nat, pages: nat, rows: nat)
    requires page == 1000
    ensures Reached(page, pages, rows) == Min(rows, 1000 * pages)
    ensures Requests(page, pages, rows) == Min(pages, rows / 1000 + 1)
  {
    if pages > 0 && rows >= page {
      LedgerReached(page, pages - 1, rows - page);
    }
  }

  lemma StableLoad(limits: Limits, rows: seq<Row>)
    requires AllDifferent(rows) && limits.page == 1000
    ensures Load(limits, Stable(limits, rows), 0, 0, [])
      == Loaded(Some(rows[..Min(|rows|, 1000 * limits.pages)]), Min(limits.pages, |rows| / 1000 + 1))
  {
    assert rows[..0] == [];
    forall i: nat, o: nat | i < limits.pages && o <= |rows| ensures Steps(limits, Stable(limits, rows), rows, i, o) {
      StableSteps(limits, rows, i, o);
    }
    PagesLoad(limits, Stable(limits, rows), rows, 0, 0);
    LedgerReached(limits.page, limits.pages, |rows|);
  }

  /** On a stable list of n rows with different nonempty ids the result is the first min(n, 60000)
      rows in order, after min(60, n / 1000 + 1) requests. */
  lemma StableListLoaded(rows: seq<Row>)
    requires AllDifferent(rows)
    ensures Load(LEDGER_LIMITS, Stable(LEDGER_LIMITS, rows), 0, 0, [])
      == Loaded(Some(rows[..Min(|rows|, 60000)]), Min(60, |rows| / 1000 + 1))
  {
    StableLoad(LEDGER_LIMITS, rows);
  }
}
