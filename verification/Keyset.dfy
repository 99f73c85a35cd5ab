/**
 * Keyset order on (created_at, id), and the cursor that JavaScript keeps of a row. The columns hold
 * microseconds; a `Date`, and so a cursor, holds whole milliseconds.
 */
module Keyset {
  import opened Base

  /** The two key columns; `at` counts microseconds. */
  datatype Row = Row(at: int, id: Id)

  /** `ms` is in microseconds too, but always a whole millisecond. */
  datatype Cursor = Cursor(ms: int, id: Id)

  function Ms(t: int): int {
    t - t % 1000
  }

  function CursorOf(r: Row): Cursor {
    Cursor(Ms(r.at), r.id)
  }

  predicate Whole(r: Row) {
    r.at % 1000 == 0
  }

  /** `a` comes before `b` in the listing. */
  predicate Before(desc: bool, a: Row, b: Row) {
    if desc then a.at > b.at || (a.at == b.at && a.id > b.id)
    else a.at < b.at || (a.at == b.at && a.id < b.id)
  }

  /** The keyset boundary of the query. */
  predicate Past(desc: bool, c: Cursor, r: Row) {
    if desc then r.at < c.ms || (r.at == c.ms && r.id < c.id)
    else r.at > c.ms || (r.at == c.ms && r.id > c.id)
  }

  ghost predicate Listed(desc: bool, rows: seq<Row>) {
    forall j, k {:trigger Before(desc, rows[j], rows[k])} :: 0 <= j < k < |rows| ==> Before(desc, rows[j], rows[k])
  }

  function Select(desc: bool, rows: seq<Row>, c: Option<Cursor>): seq<Row> {
    if rows == [] then []
    else
      var rest := Select(desc, rows[1..], c);
      if c == None || Past(desc, c.value, rows[0]) then [rows[0]] + rest else rest
  }

  function Take<T>(s: seq<T>, n: nat): seq<T> {
    if n < |s| then s[..n] else s
  }

  lemma {:induction false} SelectIsSuffix(desc: bool, rows: seq<Row>, c: Option<Cursor>, j: nat)
    requires j <= |rows|
    requires forall k :: 0 <= k < |rows| ==> (k < j <==> c.Some? && !Past(desc, c.value, rows[k]))
    ensures Select(desc, rows, c) == rows[j..]
  {
    if rows != [] {
      SelectIsSuffix(desc, rows[1..], c, if j == 0 then 0 else j - 1);
    }
  }

  lemma {:induction false} SelectMembers(desc: bool, rows: seq<Row>, c: Option<Cursor>, r: Row)
    ensures r in Select(desc, rows, c) <==> r in rows && (c == None || Past(desc, c.value, r))
  {
    if rows != [] {
      SelectMembers(desc, rows[1..], c, r);
      assert rows == [rows[0]] + rows[1..];
    }
  }

  lemma {:induction false} SelectListed(desc: bool, rows: seq<Row>, c: Option<Cursor>)
    requires Listed(desc, rows)
    ensures Listed(desc, Select(desc, rows, c))
  {
    if rows != [] {
      var rest := Select(desc, rows[1..], c);
      SelectListed(desc, rows[1..], c);
      forall k | 0 <= k < |rest| ensures Before(desc, rows[0], rest[k]) {
        SelectMembers(desc, rows[1..], c, rest[k]);
      }
    }
  }
}
