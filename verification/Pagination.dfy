/**
 * Keyset pages and what following `next_cursor` visits. A walk is given the table as each of its requests
 * finds it, so rows may come and go between requests.
 */
module Pagination {
  import opened Base
  import opened Keyset

  datatype Page = Page(data: seq<Row>, next: Option<Cursor>)

  /** `paginate`: the extra row only proves there is more. */
  function PageOf(fetched: seq<Row>, limit: nat): Page
    requires limit >= 1
  {
    var page := Take(fetched, limit);
    Page(page, if |fetched| > limit then Some(CursorOf(page[|page| - 1])) else None)
  }

  /** One request: the boundary, the order, `take: limit + 1`, the page. */
  function List(desc: bool, table: seq<Row>, cursor: Option<Cursor>, limit: nat): Page
    requires limit >= 1
  {
    PageOf(Take(Select(desc, table, cursor), limit + 1), limit)
  }

  function Walk(desc: bool, tables: seq<seq<Row>>, cursor: Option<Cursor>, limit: nat): seq<Page>
    requires limit >= 1
  {
    if tables == [] then []
    else
      var page := List(desc, tables[0], cursor, limit);
      if page.next == None then [page] else [page] + Walk(desc, tables[1..], page.next, limit)
  }

  function Visited(pages: seq<Page>): seq<Row> {
    if pages == [] then [] else pages[0].data + Visited(pages[1..])
  }

  ghost predicate Finished(pages: seq<Page>) {
    pages != [] && if |pages| == 1 then pages[0].next == None else Finished(pages[1..])
  }

  function Repeat(rows: seq<Row>, k: nat): seq<seq<Row>> {
    seq(k, _ => rows)
  }

  function Pages(n: nat, limit: nat): nat
    requires limit >= 1
  {
    if n <= limit then 1 else 1 + Pages(n - limit, limit)
  }

  /** Pages(n, limit) is max(1, ceil(n / limit)). */
  lemma {:induction false} PagesIsCeiling(n: nat, limit: nat)
    requires limit >= 1
    ensures n >= 1 ==> (Pages(n, limit) - 1) * limit < n <= Pages(n, limit) * limit && Pages(n, limit) <= n
  {
    if n > limit {
      PagesIsCeiling(n - limit, limit);
      var p := Pages(n - limit, limit);
      assert (p + 1 - 1) * limit == (p - 1) * limit + limit && (p + 1) * limit == p * limit + limit;
    }
  }

  // ------------------------------------------------------- a fixed table --

  /**
   * The cursor of row j is right about row k. Newest first: a row listed after row j that shares its millisecond must
   * lie at the very start of that millisecond and have the smaller id. Oldest first: a row of its millisecond listed up
   * to and including row j must lie at the start and not have the larger id.
   */
  predicate Agrees(desc: bool, rows: seq<Row>, j: nat, k: nat)
    requires j < |rows| && k < |rows|
  {
    Ms(rows[k].at) == Ms(rows[j].at) ==>
      if desc then j < k ==> Whole(rows[k]) && rows[k].id < rows[j].id
      else k <= j ==> Whole(rows[k]) && rows[k].id <= rows[j].id
  }

  /** The cursor of row j can be gone by. */
  ghost predicate TrueAt(desc: bool, rows: seq<Row>, j: nat)
    requires j < |rows|
  {
    forall k {:trigger Agrees(desc, rows, j, k)} :: 0 <= k < |rows| ==> Agrees(desc, rows, j, k)
  }

  lemma AgreesIff(desc: bool, rows: seq<Row>, j: nat, k: nat)
    requires Listed(desc, rows) && j < |rows| && k < |rows|
    ensures Agrees(desc, rows, j, k) <==> (Past(desc, CursorOf(rows[j]), rows[k]) <==> j < k)
  {
    if k < j {
      assert Before(desc, rows[k], rows[j]);
    } else if j < k {
      assert Before(desc, rows[j], rows[k]);
    }
  }

  lemma TrueAtIff(desc: bool, rows: seq<Row>, j: nat)
    requires Listed(desc, rows) && j < |rows|
    ensures TrueAt(desc, rows, j)
            <==> forall k :: 0 <= k < |rows| ==> (Past(desc, CursorOf(rows[j]), rows[k]) <==> j < k)
  {
    forall k | 0 <= k < |rows|
      ensures Agrees(desc, rows, j, k) <==> (Past(desc, CursorOf(rows[j]), rows[k]) <==> j < k)
    {
      AgreesIff(desc, rows, j, k);
    }
  }

  /** Every cursor but the last row's can be gone by. */
  ghost predicate Faithful(desc: bool, rows: seq<Row>) {
    FaithfulFrom(desc, rows, 1)
  }

  /** The cursors of the rows that can end a page of `limit` rows and are not the last. */
  ghost predicate FaithfulFrom(desc: bool, rows: seq<Row>, limit: nat) {
    forall j {:trigger TrueAt(desc, rows, j)} :: 0 <= j && limit <= j + 1 < |rows| ==> TrueAt(desc, rows, j)
  }

  lemma WholeIsFaithful(desc: bool, rows: seq<Row>)
    requires Listed(desc, rows) && forall j :: 0 <= j < |rows| ==> Whole(rows[j])
    ensures Faithful(desc, rows)
  {
    forall j | 0 <= j < |rows| ensures TrueAt(desc, rows, j) {
      forall k | 0 <= k < |rows| ensures Agrees(desc, rows, j, k) {
        AgreesIff(desc, rows, j, k);
        if k < j {
          assert Before(desc, rows[k], rows[j]);
        } else if j < k {
          assert Before(desc, rows[j], rows[k]);
        }
      }
    }
  }

  lemma AfterBoundary(desc: bool, rows: seq<Row>, j: nat)
    requires Listed(desc, rows) && j < |rows| && TrueAt(desc, rows, j)
    ensures Select(desc, rows, Some(CursorOf(rows[j]))) == rows[j + 1..]
  {
    TrueAtIff(desc, rows, j);
    SelectIsSuffix(desc, rows, Some(CursorOf(rows[j])), j + 1);
  }

  /** The cursor of a walk that has visited the first `start` rows. */
  function At(rows: seq<Row>, start: nat): Option<Cursor>
    requires start <= |rows|
  {
    if start == 0 then None else Some(CursorOf(rows[start - 1]))
  }

  lemma PageOfTake(s: seq<Row>, limit: nat)
    requires limit >= 1
    ensures PageOf(Take(s, limit + 1), limit)
            == if |s| <= limit then Page(s, None) else Page(s[..limit], Some(CursorOf(s[limit - 1])))
  {
    if |s| > limit {
      assert Take(Take(s, limit + 1), limit) == s[..limit];
    }
  }

  /** The page after the first `start` rows is the next `limit` rows, and its cursor stands after them. */
  ghost predicate PageRight(desc: bool, rows: seq<Row>, start: nat, limit: nat)
    requires limit >= 1 && start <= |rows|
  {
    List(desc, rows, At(rows, start), limit)
    == if |rows| - start <= limit then Page(rows[start..], None)
       else Page(rows[start..start + limit], At(rows, start + limit))
  }

  lemma SelectAt(desc: bool, rows: seq<Row>, start: nat)
    requires Listed(desc, rows) && start <= |rows| && (start > 0 ==> TrueAt(desc, rows, start - 1))
    ensures Select(desc, rows, At(rows, start)) == rows[start..]
  {
    if start == 0 {
      SelectIsSuffix(desc, rows, None, 0);
    } else {
      AfterBoundary(desc, rows, start - 1);
    }
  }

  lemma TailPage(rows: seq<Row>, start: nat, limit: nat)
    requires limit >= 1 && start <= |rows|
    ensures PageOf(Take(rows[start..], limit + 1), limit)
         == if |rows| - start <= limit then Page(rows[start..], None)
            else Page(rows[start..start + limit], At(rows, start + limit))
  {
    PageOfTake(rows[start..], limit);
    if |rows| - start > limit {
      assert rows[start..][..limit] == rows[start..start + limit];
      assert rows[start..][limit - 1] == rows[start + limit - 1];
    }
  }

  lemma PageAt(desc: bool, rows: seq<Row>, start: nat, limit: nat)
    requires Listed(desc, rows) && limit >= 1 && start <= |rows| && (start > 0 ==> TrueAt(desc, rows, start - 1))
    ensures PageRight(desc, rows, start, limit)
  {
    SelectAt(desc, rows, start);
    TailPage(rows, start, limit);
  }

  /** A walk is its first page and the walk from that page's cursor on. */
  lemma WalkCons(desc: bool, tables: seq<seq<Row>>, c: Option<Cursor>, limit: nat)
    requires limit >= 1 && tables != []
    ensures var page := List(desc, tables[0], c, limit);
            var pages := Walk(desc, tables, c, limit);
            if page.next == None then |pages| == 1 && Finished(pages) && Visited(pages) == page.data
            else
              var rest := Walk(desc, tables[1..], page.next, limit);
              && Visited(pages) == page.data + Visited(rest)
              && |pages| == 1 + |rest| && (Finished(rest) <==> Finished(pages))
  {
    var page := List(desc, tables[0], c, limit);
    if page.next == None {
      assert Visited([page]) == page.data + Visited([]);
    } else {
      var rest := Walk(desc, tables[1..], page.next, limit);
      assert ([page] + rest)[1..] == rest;
    }
  }

  lemma WalkStep(desc: bool, rows: seq<Row>, c: Option<Cursor>, limit: nat, k: nat)
    requires limit >= 1 && k >= 1
    ensures var page := List(desc, rows, c, limit);
            var pages := Walk(desc, Repeat(rows, k), c, limit);
            if page.next == None then |pages| == 1 && Finished(pages) && Visited(pages) == page.data
            else
              var rest := Walk(desc, Repeat(rows, k - 1), page.next, limit);
              && Visited(pages) == page.data + Visited(rest)
              && |pages| == 1 + |rest| && (Finished(rest) <==> Finished(pages))
  {
    assert Repeat(rows, k)[1..] == Repeat(rows, k - 1);
    WalkCons(desc, Repeat(rows, k), c, limit);
  }

  lemma Rejoin(rows: seq<Row>, i: nat, j: nat)
    requires i <= j <= |rows|
    ensures rows[i..j] + rows[j..] == rows[i..]
  {
  }

  ghost predicate RightFigures(rows: seq<Row>, start: nat, limit: nat, visited: seq<Row>, pages: nat, finished: bool)
    requires limit >= 1 && start <= |rows|
  {
    visited == rows[start..] && pages == Pages(|rows| - start, limit) && finished
  }

  ghost predicate Right(rows: seq<Row>, start: nat, limit: nat, pages: seq<Page>)
    requires limit >= 1 && start <= |rows|
  {
    RightFigures(rows, start, limit, Visited(pages), |pages|, Finished(pages))
  }

  lemma RightStep(rows: seq<Row>, start: nat, limit: nat, visited: seq<Row>, pages: nat, finished: bool)
    requires limit >= 1 && start + limit < |rows| && RightFigures(rows, start + limit, limit, visited, pages, finished)
    ensures RightFigures(rows, start, limit, rows[start..start + limit] + visited, 1 + pages, finished)
  {
    Rejoin(rows, start, start + limit);
  }

  /** The cursors of the pages from position `start` on can be gone by. */
  ghost predicate TrueFrom(desc: bool, rows: seq<Row>, start: nat, limit: nat)
    requires limit >= 1
    decreases |rows| - start
  {
    start + limit < |rows| ==> TrueAt(desc, rows, start + limit - 1) && TrueFrom(desc, rows, start + limit, limit)
  }

  lemma LastPage(desc: bool, rows: seq<Row>, start: nat, limit: nat, k: nat)
    requires limit >= 1 && k >= 1 && |rows| - limit <= start <= |rows| && PageRight(desc, rows, start, limit)
    ensures Right(rows, start, limit, Walk(desc, Repeat(rows, k), At(rows, start), limit))
  {
    WalkStep(desc, rows, At(rows, start), limit, k);
  }

  lemma MorePages(desc: bool, rows: seq<Row>, start: nat, limit: nat, k: nat)
    requires limit >= 1 && k >= 1 && start + limit < |rows| && PageRight(desc, rows, start, limit)
    requires Right(rows, start + limit, limit, Walk(desc, Repeat(rows, k - 1), At(rows, start + limit), limit))
    ensures Right(rows, start, limit, Walk(desc, Repeat(rows, k), At(rows, start), limit))
  {
    WalkStep(desc, rows, At(rows, start), limit, k);
    var rest := Walk(desc, Repeat(rows, k - 1), At(rows, start + limit), limit);
    RightStep(rows, start, limit, Visited(rest), |rest|, Finished(rest));
  }

  /** The cursor at position `start` can be gone by. */
  ghost predicate Begins(desc: bool, rows: seq<Row>, start: nat) {
    start <= |rows| && (start > 0 ==> TrueAt(desc, rows, start - 1))
  }

  lemma WalkEnds(desc: bool, rows: seq<Row>, start: nat, limit: nat, k: nat)
    requires Listed(desc, rows) && limit >= 1 && k >= 1 && Begins(desc, rows, start) && |rows| - start <= limit
    ensures Right(rows, start, limit, Walk(desc, Repeat(rows, k), At(rows, start), limit))
  {
    PageAt(desc, rows, start, limit);
    LastPage(desc, rows, start, limit, k);
  }

  lemma WalkGoesOn(desc: bool, rows: seq<Row>, start: nat, limit: nat, k: nat)
    requires Listed(desc, rows) && limit >= 1 && k >= 1 && Begins(desc, rows, start) && start + limit < |rows|
    requires Right(rows, start + limit, limit, Walk(desc, Repeat(rows, k - 1), At(rows, start + limit), limit))
    ensures Right(rows, start, limit, Walk(desc, Repeat(rows, k), At(rows, start), limit))
  {
    PageAt(desc, rows, start, limit);
    MorePages(desc, rows, start, limit, k);
  }

  lemma {:induction false} WalkFrom(desc: bool, rows: seq<Row>, start: nat, limit: nat, k: nat)
    requires Listed(desc, rows) && limit >= 1 && Begins(desc, rows, start)
    requires TrueFrom(desc, rows, start, limit) && k >= Pages(|rows| - start, limit)
    ensures Right(rows, start, limit, Walk(desc, Repeat(rows, k), At(rows, start), limit))
    decreases |rows| - start
  {
    if |rows| - start <= limit {
      WalkEnds(desc, rows, start, limit, k);
    } else {
      WalkFrom(desc, rows, start + limit, limit, k - 1);
      WalkGoesOn(desc, rows, start, limit, k);
    }
  }

  lemma {:induction false} FaithfulIsTrue(desc: bool, rows: seq<Row>, start: nat, limit: nat)
    requires limit >= 1 && Faithful(desc, rows)
    ensures TrueFrom(desc, rows, start, limit)
    decreases |rows| - start
  {
    if start + limit < |rows| {
      assert TrueAt(desc, rows, start + limit - 1);
      FaithfulIsTrue(desc, rows, start + limit, limit);
    }
  }

  /** On a fixed table the walk visits each row exactly once, in order, in max(1, ceil(n / limit)) pages. */
  lemma WalkVisitsAll(desc: bool, rows: seq<Row>, limit: nat, k: nat)
    requires Listed(desc, rows) && limit >= 1 && TrueFrom(desc, rows, 0, limit) && k >= Pages(|rows|, limit)
    ensures var pages := Walk(desc, Repeat(rows, k), None, limit);
            Visited(pages) == rows && |pages| == Pages(|rows|, limit) && Finished(pages)
  {
    WalkFrom(desc, rows, 0, limit, k);
  }

  /** Where a cursor cannot be gone by, it is not followed by the next row. */
  lemma FalseBoundary(desc: bool, rows: seq<Row>, j: nat)
    requires Listed(desc, rows) && j + 1 < |rows| && !TrueAt(desc, rows, j)
    ensures var s := Select(desc, rows, Some(CursorOf(rows[j])));
            s == [] || s[0] != rows[j + 1]
  {
    var c := Some(CursorOf(rows[j]));
    var k: nat :| k < |rows| && !Agrees(desc, rows, j, k);
    if desc {
      assert Before(desc, rows[j], rows[j + 1]) && (j + 1 < k ==> Before(desc, rows[j + 1], rows[k]));
      SelectMembers(desc, rows, c, rows[j + 1]);
    } else {
      SelectMembers(desc, rows, c, rows[k]);
      SelectListed(desc, rows, c);
      FirstIsFirst(desc, Select(desc, rows, c), rows[k]);
      assert Before(desc, rows[k], rows[j + 1]);
    }
  }

  lemma FirstIsFirst(desc: bool, s: seq<Row>, r: Row)
    requires Listed(desc, s) && r in s
    ensures s != [] && (s[0] == r || Before(desc, s[0], r))
  {
    var p :| 0 <= p < |s| && s[p] == r;
    assert p > 0 ==> Before(desc, s[0], s[p]);
  }

  /** A walk starts with the first row its first request selects. */
  lemma WalkStarts(desc: bool, rows: seq<Row>, c: Option<Cursor>, limit: nat, k: nat)
    requires limit >= 1 && Visited(Walk(desc, Repeat(rows, k), c, limit)) != []
    ensures var s := Select(desc, rows, c);
            s != [] && Visited(Walk(desc, Repeat(rows, k), c, limit))[0] == s[0]
  {
    WalkStep(desc, rows, c, limit, k);
    var s, page := Select(desc, rows, c), List(desc, rows, c, limit);
    PageOfTake(s, limit);
    assert s != [] ==> page.data != [] && page.data[0] == s[0];
    assert s == [] ==> page == Page([], None);
  }

  /** The walk from position `start` visits all rows from there on. */
  ghost predicate OnTrack(desc: bool, rows: seq<Row>, start: nat, limit: nat, k: nat)
    requires limit >= 1
  {
    Begins(desc, rows, start) && Visited(Walk(desc, Repeat(rows, k), At(rows, start), limit)) == rows[start..]
  }

  lemma CursorIsTrue(desc: bool, rows: seq<Row>, n: nat, limit: nat, k: nat)
    requires Listed(desc, rows) && limit >= 1 && 0 < n < |rows|
    requires Visited(Walk(desc, Repeat(rows, k), At(rows, n), limit)) == rows[n..]
    ensures OnTrack(desc, rows, n, limit, k)
  {
    WalkStarts(desc, rows, At(rows, n), limit, k);
    if !TrueAt(desc, rows, n - 1) {
      FalseBoundary(desc, rows, n - 1);
    }
  }

  lemma RestOfTrack(desc: bool, rows: seq<Row>, start: nat, limit: nat, k: nat)
    requires Listed(desc, rows) && limit >= 1 && OnTrack(desc, rows, start, limit, k) && start + limit < |rows|
    ensures k >= 1
    ensures Visited(Walk(desc, Repeat(rows, k - 1), At(rows, start + limit), limit)) == rows[start + limit..]
  {
    assert PageRight(desc, rows, start, limit) by {
      PageAt(desc, rows, start, limit);
    }
    RestVisits(desc, rows, start, limit, k);
  }

  lemma NextOnTrack(desc: bool, rows: seq<Row>, start: nat, limit: nat, k: nat)
    requires Listed(desc, rows) && limit >= 1 && OnTrack(desc, rows, start, limit, k) && start + limit < |rows|
    ensures k >= 1 && OnTrack(desc, rows, start + limit, limit, k - 1)
  {
    assert k >= 1 && Visited(Walk(desc, Repeat(rows, k - 1), At(rows, start + limit), limit))
        == rows[start + limit..] by {
      RestOfTrack(desc, rows, start, limit, k);
    }
    assert OnTrack(desc, rows, start + limit, limit, k - 1) by {
      CursorIsTrue(desc, rows, start + limit, limit, k - 1);
    }
  }

  /** A walk that visits all rows from `start` on follows true cursors. */
  lemma {:induction false} WalkIsTrue(desc: bool, rows: seq<Row>, start: nat, limit: nat, k: nat)
    requires Listed(desc, rows) && limit >= 1 && OnTrack(desc, rows, start, limit, k)
    ensures TrueFrom(desc, rows, start, limit)
    decreases |rows| - start
  {
    if start + limit < |rows| {
      assert k >= 1 && OnTrack(desc, rows, start + limit, limit, k - 1) by {
        NextOnTrack(desc, rows, start, limit, k);
      }
      assert TrueFrom(desc, rows, start + limit, limit) by {
        WalkIsTrue(desc, rows, start + limit, limit, k - 1);
      }
    }
  }

  lemma NoWalk(desc: bool, rows: seq<Row>, c: Option<Cursor>, limit: nat, k: nat)
    requires limit >= 1
    ensures Visited(Walk(desc, Repeat(rows, k), c, limit)) != [] ==> k >= 1
  {
  }

  lemma RestVisits(desc: bool, rows: seq<Row>, start: nat, limit: nat, k: nat)
    requires limit >= 1 && start + limit < |rows| && PageRight(desc, rows, start, limit)
    requires Visited(Walk(desc, Repeat(rows, k), At(rows, start), limit)) == rows[start..]
    ensures k >= 1
    ensures Visited(Walk(desc, Repeat(rows, k - 1), At(rows, start + limit), limit)) == rows[start + limit..]
  {
    NoWalk(desc, rows, At(rows, start), limit, k);
    WalkStep(desc, rows, At(rows, start), limit, k);
    var rest := Visited(Walk(desc, Repeat(rows, k - 1), At(rows, start + limit), limit));
    assert rows[start..start + limit] + rest == rows[start..];
    assert rest == (rows[start..start + limit] + rest)[limit..];
    assert rows[start..][limit..] == rows[start + limit..];
  }

  /** Exactly when following the cursors is right for one page size: the rows that end its pages have true cursors. */
  lemma WalkIsRightIffTrue(desc: bool, rows: seq<Row>, limit: nat)
    requires Listed(desc, rows) && limit >= 1
    ensures Visited(Walk(desc, Repeat(rows, |rows|), None, limit)) == rows <==> TrueFrom(desc, rows, 0, limit)
  {
    if rows == [] {
      assert Repeat(rows, 0) == [];
    } else {
      PagesIsCeiling(|rows|, limit);
      if TrueFrom(desc, rows, 0, limit) {
        WalkVisitsAll(desc, rows, limit, |rows|);
      }
      if Visited(Walk(desc, Repeat(rows, |rows|), None, limit)) == rows {
        WalkIsTrue(desc, rows, 0, limit, |rows|);
      }
    }
  }

  /** The rows that end the pages of a walk are every `limit`-th. */
  lemma {:induction false} TrueFromIff(desc: bool, rows: seq<Row>, p: nat, limit: nat)
    requires limit >= 1
    ensures TrueFrom(desc, rows, p * limit, limit)
            <==> forall q: nat {:trigger q * limit} :: p < q && q * limit < |rows| ==> TrueAt(desc, rows, q * limit - 1)
    decreases |rows| - p * limit
  {
    assert (p + 1) * limit == p * limit + limit;
    if (p + 1) * limit < |rows| {
      TrueFromIff(desc, rows, p + 1, limit);
      forall q: nat | p < q && q * limit < |rows| ensures q == p + 1 || p + 1 < q {
      }
    } else {
      forall q: nat | p < q ensures q * limit >= |rows| {
        MulGrows(p + 1, q, limit);
      }
    }
  }

  lemma MulGrows(p: nat, q: nat, limit: nat)
    requires p <= q
    ensures p * limit <= q * limit
  {
  }

  /** Exactly when following the cursors is right for every page size. */
  lemma WalksAreRightIffFaithful(desc: bool, rows: seq<Row>)
    requires Listed(desc, rows)
    ensures (forall limit: nat :: limit >= 1 ==> Visited(Walk(desc, Repeat(rows, |rows|), None, limit)) == rows)
            <==> Faithful(desc, rows)
  {
    if Faithful(desc, rows) {
      forall limit: nat | limit >= 1 ensures Visited(Walk(desc, Repeat(rows, |rows|), None, limit)) == rows {
        FaithfulIsTrue(desc, rows, 0, limit);
        WalkIsRightIffTrue(desc, rows, limit);
      }
    } else {
      WalkIsRightIffTrue(desc, rows, 1);
      assert Visited(Walk(desc, Repeat(rows, |rows|), None, 1)) != rows by {
        if TrueFrom(desc, rows, 0, 1) {
          TrueOneByOne(desc, rows, 0);
        }
      }
    }
  }

  lemma {:induction false} TrueOneByOne(desc: bool, rows: seq<Row>, start: nat)
    requires TrueFrom(desc, rows, start, 1)
    ensures forall j {:trigger TrueAt(desc, rows, j)} :: start <= j && j + 1 < |rows| ==> TrueAt(desc, rows, j)
    decreases |rows| - start
  {
    if start + 1 < |rows| {
      TrueOneByOne(desc, rows, start + 1);
    }
  }

  // ---------------------------------------------------- a changing table --

  /** The tables that the requests find, each listed, hold rows of `all` only. */
  ghost predicate Drawn(desc: bool, all: seq<Row>, tables: seq<seq<Row>>) {
    forall t :: 0 <= t < |tables| ==> DrawnFrom(desc, all, tables[t])
  }

  ghost predicate DrawnFrom(desc: bool, all: seq<Row>, table: seq<Row>) {
    Listed(desc, table) && forall r :: r in table ==> r in all
  }

  /** A cursor of a row that another one follows, and that can end a page. */
  ghost predicate Sound(all: seq<Row>, limit: nat, c: Option<Cursor>) {
    c == None || exists j :: 0 <= j && limit <= j + 1 < |all| && c.value == CursorOf(all[j])
  }

  /** Row a of `all` is not the last, and the boundary of its cursor is the listing order. */
  ghost predicate Exact(desc: bool, all: seq<Row>, limit: nat, a: Row) {
    && (forall r :: r in all ==> (Past(desc, CursorOf(a), r) <==> Before(desc, a, r)))
    && Sound(all, limit, Some(CursorOf(a)))
  }

  lemma TrueIsExact(desc: bool, all: seq<Row>, limit: nat, j: nat)
    requires Listed(desc, all) && FaithfulFrom(desc, all, limit) && limit <= j + 1 < |all|
    ensures Exact(desc, all, limit, all[j])
  {
    assert TrueAt(desc, all, j);
    TrueAtIff(desc, all, j);
    forall r | r in all ensures Past(desc, CursorOf(all[j]), r) <==> Before(desc, all[j], r) {
      var k :| 0 <= k < |all| && all[k] == r;
      if j < k {
        assert Before(desc, all[j], all[k]);
      } else if k < j {
        assert Before(desc, all[k], all[j]);
      }
    }
  }

  lemma InOrder(desc: bool, all: seq<Row>, i: nat, j: nat)
    requires Listed(desc, all) && i < |all| && j < |all|
    ensures Before(desc, all[i], all[j]) <==> i < j
  {
    if i < j {
      assert Before(desc, all[i], all[j]);
    } else if j < i {
      assert Before(desc, all[j], all[i]);
    }
  }

  /** The last of n rows of `all`, in order, is the n-th of `all` or a later one. */
  lemma {:induction false} LastAtLeast(desc: bool, all: seq<Row>, rows: seq<Row>) returns (j: nat)
    requires Listed(desc, all) && Listed(desc, rows) && rows != [] && forall r :: r in rows ==> r in all
    ensures |rows| <= j + 1 <= |all| && all[j] == rows[|rows| - 1]
    decreases |rows|
  {
    var last := rows[|rows| - 1];
    assert last in rows;
    j :| 0 <= j < |all| && all[j] == last;
    if |rows| > 1 {
      var i := LastAtLeast(desc, all, rows[..|rows| - 1]);
      assert Before(desc, rows[|rows| - 2], last);
      InOrder(desc, all, i, j);
    }
  }

  /** A full page of rows of `all`, of which another row follows the last. */
  lemma FullPageIsExact(desc: bool, all: seq<Row>, limit: nat, rows: seq<Row>, b: Row)
    requires Listed(desc, all) && FaithfulFrom(desc, all, limit) && Listed(desc, rows) && |rows| == limit >= 1
    requires b in all && (forall r :: r in rows ==> r in all) && Before(desc, rows[limit - 1], b)
    ensures Exact(desc, all, limit, rows[limit - 1])
  {
    var j := LastAtLeast(desc, all, rows);
    var n :| 0 <= n < |all| && all[n] == b;
    assert n < j ==> Before(desc, all[n], all[j]);
    TrueIsExact(desc, all, limit, j);
  }

  ghost predicate PastAll(desc: bool, all: seq<Row>, c: Option<Cursor>, rows: seq<Row>) {
    forall r :: r in rows ==> r in all && (c == None || Past(desc, c.value, r))
  }

  lemma Selected(desc: bool, all: seq<Row>, table: seq<Row>, c: Option<Cursor>)
    requires DrawnFrom(desc, all, table)
    ensures Listed(desc, Select(desc, table, c)) && PastAll(desc, all, c, Select(desc, table, c))
  {
    SelectListed(desc, table, c);
    forall r | r in Select(desc, table, c) ensures r in all && (c == None || Past(desc, c.value, r)) {
      SelectMembers(desc, table, c, r);
    }
  }

  /** A page that is not the last one has a cursor that can be gone by. */
  lemma PageFacts(desc: bool, all: seq<Row>, table: seq<Row>, c: Option<Cursor>, limit: nat)
    requires Listed(desc, all) && FaithfulFrom(desc, all, limit) && DrawnFrom(desc, all, table) && limit >= 1
    ensures var page := List(desc, table, c, limit);
            && Listed(desc, page.data) && PastAll(desc, all, c, page.data)
            && (page.next.Some? ==> GoesOn(desc, all, limit, page))
  {
    var s := Select(desc, table, c);
    Selected(desc, all, table, c);
    PageOfTake(s, limit);
    if |s| > limit {
      assert s[limit] in s && s[..limit][limit - 1] == s[limit - 1] && Before(desc, s[limit - 1], s[limit]);
      FullPageIsExact(desc, all, limit, s[..limit], s[limit]);
    }
  }

  ghost predicate GoesOn(desc: bool, all: seq<Row>, limit: nat, page: Page) {
    && page.data != [] && Exact(desc, all, limit, page.data[|page.data| - 1])
    && page.next == Some(CursorOf(page.data[|page.data| - 1]))
  }

  lemma InFront(s: seq<Row>, limit: nat, k: nat)
    requires k < |s|
    ensures k < limit ==> s[k] in Take(s, limit)
  {
    if k < limit {
      assert Take(s, limit)[k] == s[k];
    }
  }

  /** A row the page leaves out lies past the page's cursor. */
  lemma LeftForLater(desc: bool, all: seq<Row>, table: seq<Row>, c: Option<Cursor>, limit: nat, r: Row)
    requires Listed(desc, all) && FaithfulFrom(desc, all, limit) && DrawnFrom(desc, all, table) && limit >= 1
    requires r in table && (c == None || Past(desc, c.value, r)) && r !in List(desc, table, c, limit).data
    ensures var page := List(desc, table, c, limit);
            page.next.Some? && Past(desc, page.next.value, r)
  {
    var s := Select(desc, table, c);
    SelectMembers(desc, table, c, r);
    Selected(desc, all, table, c);
    PageOfTake(s, limit);
    var k :| 0 <= k < |s| && s[k] == r;
    InFront(s, limit, k);
    assert Before(desc, s[limit - 1], s[k]);
    PageFacts(desc, all, table, c, limit);
  }

  /** A page in front of rows that all lie past its cursor. */
  lemma PageInFront(desc: bool, all: seq<Row>, limit: nat, page: Page, more: seq<Row>, c: Option<Cursor>)
    requires Listed(desc, all) && FaithfulFrom(desc, all, limit) && Sound(all, limit, c) &&
             GoesOn(desc, all, limit, page)
    requires Listed(desc, page.data) && PastAll(desc, all, c, page.data)
    requires Listed(desc, more) && PastAll(desc, all, page.next, more)
    ensures Listed(desc, page.data + more) && PastAll(desc, all, c, page.data + more)
  {
    var data := page.data;
    var last := data[|data| - 1];
    forall j, k | 0 <= j < |data| && 0 <= k < |more| ensures Before(desc, data[j], more[k]) {
      assert more[k] in more && Before(desc, last, more[k]);
      assert j < |data| - 1 ==> Before(desc, data[j], last);
    }
    if c.Some? {
      var j :| 0 <= j && limit <= j + 1 < |all| && c.value == CursorOf(all[j]);
      TrueIsExact(desc, all, limit, j);
      assert last in data && Before(desc, all[j], last);
      forall r | r in more ensures Past(desc, c.value, r) {
        assert Before(desc, last, r) && Before(desc, all[j], r);
      }
    }
  }

  /** No row is visited twice, and rows come in order, whatever happens to the table between requests. */
  lemma {:induction false} NothingTwice(desc: bool, all: seq<Row>, tables: seq<seq<Row>>, c: Option<Cursor>, limit: nat)
    requires Listed(desc, all) && FaithfulFrom(desc, all, limit) && limit >= 1
    requires Drawn(desc, all, tables) && Sound(all, limit, c)
    ensures var rows := Visited(Walk(desc, tables, c, limit));
            Listed(desc, rows) && PastAll(desc, all, c, rows)
    decreases |tables|
  {
    if tables != [] {
      var page := List(desc, tables[0], c, limit);
      PageFacts(desc, all, tables[0], c, limit);
      WalkCons(desc, tables, c, limit);
      if page.next.Some? {
        NothingTwice(desc, all, tables[1..], page.next, limit);
        PageInFront(desc, all, limit, page, Visited(Walk(desc, tables[1..], page.next, limit)), c);
      }
    }
  }

  lemma ListedOnce(desc: bool, rows: seq<Row>, r: Row)
    requires Listed(desc, rows)
    ensures forall j, k :: 0 <= j < |rows| && 0 <= k < |rows| && rows[j] == r && rows[k] == r ==> j == k
  {
    assert forall j, k :: 0 <= j < k < |rows| ==> Before(desc, rows[j], rows[k]);
  }

  ghost predicate Throughout(tables: seq<seq<Row>>, r: Row) {
    forall t :: 0 <= t < |tables| ==> r in tables[t]
  }

  lemma {:induction false} IsVisited(desc: bool, all: seq<Row>, tables: seq<seq<Row>>, c: Option<Cursor>, limit: nat,
                                     r: Row)
    requires Listed(desc, all) && FaithfulFrom(desc, all, limit) && Drawn(desc, all, tables) && limit >= 1
    requires Throughout(tables, r) && (c == None || Past(desc, c.value, r))
    requires Finished(Walk(desc, tables, c, limit))
    ensures r in Visited(Walk(desc, tables, c, limit))
    decreases |tables|
  {
    var page := List(desc, tables[0], c, limit);
    WalkCons(desc, tables, c, limit);
    if r !in page.data {
      LeftForLater(desc, all, tables[0], c, limit, r);
      IsVisited(desc, all, tables[1..], page.next, limit, r);
    }
  }

  /** A row present in every table the walk reads is visited, and once only, if the walk runs to its end. */
  lemma PresentThroughout(desc: bool, all: seq<Row>, tables: seq<seq<Row>>, c: Option<Cursor>, limit: nat, r: Row)
    requires Listed(desc, all) && FaithfulFrom(desc, all, limit) && limit >= 1
    requires Drawn(desc, all, tables) && Sound(all, limit, c)
    requires Throughout(tables, r) && (c == None || Past(desc, c.value, r))
    requires Finished(Walk(desc, tables, c, limit))
    ensures var rows := Visited(Walk(desc, tables, c, limit));
            (exists k :: 0 <= k < |rows| && rows[k] == r)
            && forall j, k :: 0 <= j < |rows| && 0 <= k < |rows| && rows[j] == r && rows[k] == r ==> j == k
  {
    NothingTwice(desc, all, tables, c, limit);
    IsVisited(desc, all, tables, c, limit, r);
    ListedOnce(desc, Visited(Walk(desc, tables, c, limit)), r);
  }

  /** In order, none twice, and complete once finished. */
  ghost predicate WalkRight(desc: bool, tables: seq<seq<Row>>, limit: nat)
    requires limit >= 1
  {
    var pages := Walk(desc, tables, None, limit);
    Listed(desc, Visited(pages)) && (Finished(pages) ==> forall r :: Throughout(tables, r) ==> r in Visited(pages))
  }

  /** Exactly when every walk by pages of `limit` rows is right, whatever rows of `all` its requests find. */
  lemma ChangingWalksAreRightIffFaithfulFrom(desc: bool, all: seq<Row>, limit: nat)
    requires Listed(desc, all) && limit >= 1
    ensures (forall tables :: Drawn(desc, all, tables) ==> WalkRight(desc, tables, limit))
            <==> FaithfulFrom(desc, all, limit)
  {
    if FaithfulFrom(desc, all, limit) {
      forall tables | Drawn(desc, all, tables) ensures WalkRight(desc, tables, limit) {
        NothingTwice(desc, all, tables, None, limit);
        var pages := Walk(desc, tables, None, limit);
        if Finished(pages) {
          forall r | Throughout(tables, r) ensures r in Visited(pages) {
            IsVisited(desc, all, tables, None, limit, r);
          }
        }
      }
    } else {
      var j :| 0 <= j && limit <= j + 1 < |all| && !TrueAt(desc, all, j);
      var tables := WrongWalk(desc, all, limit, j);
    }
  }

  /** And for every page size. */
  lemma ChangingWalksAreRightIffFaithful(desc: bool, all: seq<Row>)
    requires Listed(desc, all)
    ensures (forall tables, limit: nat :: Drawn(desc, all, tables) && limit >= 1 ==> WalkRight(desc, tables, limit))
            <==> Faithful(desc, all)
  {
    ChangingWalksAreRightIffFaithfulFrom(desc, all, 1);
    if Faithful(desc, all) {
      forall tables, limit: nat | Drawn(desc, all, tables) && limit >= 1 ensures WalkRight(desc, tables, limit) {
        assert FaithfulFrom(desc, all, limit);
        ChangingWalksAreRightIffFaithfulFrom(desc, all, limit);
      }
    }
  }

  lemma MissedWalk(all: seq<Row>, limit: nat, j: nat, k: nat) returns (tables: seq<seq<Row>>)
    requires Listed(true, all) && 1 <= limit <= j + 1 < |all| && k < |all| && !Agrees(true, all, j, k)
    ensures Drawn(true, all, tables) && !WalkRight(true, tables, limit)
  {
    AgreesIff(true, all, j, k);
    var page := all[j + 1 - limit..j + 1];
    tables := [page + [all[k]], page + [all[k]]];
    PartListed(true, all, j + 1 - limit, j, k);
    RowIsMissed(page, all[k]);
  }

  lemma ReturningWalk(all: seq<Row>, limit: nat, j: nat, k: nat) returns (tables: seq<seq<Row>>)
    requires Listed(false, all) && 1 <= limit <= j + 1 < |all| && k < |all| && !Agrees(false, all, j, k)
    ensures Drawn(false, all, tables) && !WalkRight(false, tables, limit)
  {
    AgreesIff(false, all, j, k);
    var page := all[j + 1 - limit..j + 1];
    tables := [page + [all[j + 1]], [all[k]]];
    PartListed(false, all, j + 1 - limit, j, j + 1);
    assert k < j ==> Before(false, all[k], all[j]);
    RowComesBack(page, all[j + 1], all[k]);
  }

  /** The walk of two requests that goes wrong at row j: newest first a row is missed, oldest first one comes back. */
  lemma WrongWalk(desc: bool, all: seq<Row>, limit: nat, j: nat) returns (tables: seq<seq<Row>>)
    requires Listed(desc, all) && 1 <= limit <= j + 1 < |all| && !TrueAt(desc, all, j)
    ensures Drawn(desc, all, tables) && !WalkRight(desc, tables, limit)
  {
    var k: nat :| k < |all| && !Agrees(desc, all, j, k);
    if desc {
      tables := MissedWalk(all, limit, j, k);
    } else {
      tables := ReturningWalk(all, limit, j, k);
    }
  }

  lemma PartListed(desc: bool, all: seq<Row>, i: nat, j: nat, k: nat)
    requires Listed(desc, all) && i <= j < k < |all|
    ensures DrawnFrom(desc, all, all[i..j + 1] + [all[k]])
  {
    var t := all[i..j + 1] + [all[k]];
    forall x, y | 0 <= x < y < |t| ensures Before(desc, t[x], t[y]) {
      assert t[x] == all[i + x] && t[y] == if y == |t| - 1 then all[k] else all[i + y];
    }
  }

  lemma FirstPage(desc: bool, page: seq<Row>, b: Row)
    requires page != []
    ensures List(desc, page + [b], None, |page|) == Page(page, Some(CursorOf(page[|page| - 1])))
  {
    var t := page + [b];
    SelectIsSuffix(desc, t, None, 0);
    PageOfTake(t, |page|);
    assert t[..|page|] == page;
  }

  lemma RowIsMissed(page: seq<Row>, b: Row)
    requires page != [] && Listed(true, page + [b]) && !Past(true, CursorOf(page[|page| - 1]), b)
    ensures !WalkRight(true, [page + [b], page + [b]], |page|)
  {
    var t, limit := page + [b], |page|;
    var tables, c := [t, t], Some(CursorOf(page[limit - 1]));
    FirstPage(true, page, b);
    WalkCons(true, tables, None, limit);
    assert tables[1..] == [t];
    forall k | 0 <= k < |t| ensures !Past(true, c.value, t[k]) {
      assert t[limit - 1] == page[limit - 1] && (k < limit - 1 ==> Before(true, t[k], t[limit - 1]));
    }
    SelectIsSuffix(true, t, c, |t|);
    assert List(true, t, c, limit) == Page([], None);
    WalkCons(true, [t], c, limit);
    assert Throughout(tables, b);
    assert b !in page by {
      forall k | 0 <= k < |page| ensures page[k] != b {
        assert Before(true, t[k], t[limit]);
      }
    }
  }

  lemma RowComesBack(page: seq<Row>, b: Row, r: Row)
    requires page != [] && Past(false, CursorOf(page[|page| - 1]), r) && !Before(false, page[|page| - 1], r)
    ensures !WalkRight(false, [page + [b], [r]], |page|)
  {
    var limit := |page|;
    var tables, c := [page + [b], [r]], Some(CursorOf(page[limit - 1]));
    FirstPage(false, page, b);
    WalkCons(false, tables, None, limit);
    assert tables[1..] == [[r]];
    SelectIsSuffix(false, [r], c, 0);
    assert List(false, [r], c, limit) == Page([r], None);
    WalkCons(false, [[r]], c, limit);
    var rows := Visited(Walk(false, tables, None, limit));
    assert rows == page + [r];
    assert rows[limit - 1] == page[limit - 1] && rows[limit] == r;
  }
}
