/** What the event stream never sends: rows that appear late, and rows behind a crowded millisecond. */
module EventGaps {
  import opened Base
  import opened Keyset
  import opened EventTail
  import opened EventRuns

  // ------------------------------------------------------------- late rows --

  ghost predicate WholeCursor(c: StreamCursor) {
    match c
    case Instant(ms) => ms % 1000 == 0
    case Anchor(at) => at.ms % 1000 == 0
  }

  /** No row in scope past the cursor would, read last, put the cursor before row l. */
  ghost predicate Shut(scope: Scope, log: seq<Event>, c: StreamCursor, l: nat)
    requires l < |log|
  {
    forall i {:trigger After(c, log[i].key)} :: 0 <= i < |log| && InScope(scope, log[i]) && After(c, log[i].key) ==>
      !After(Own(log[i]), log[l].key)
  }

  /** A row that came past the cursor only through the poll lies at the start of its millisecond. */
  lemma StillShut(c: StreamCursor, read: Row, late: Row, r: Row, before: bool, after: bool)
    requires WholeCursor(c) && After(c, read) && !After(c, r) && !After(c, late)
    requires !After(Anchor(CursorOf(read)), late) && After(Anchor(CursorOf(read)), r)
    requires if before then Before(false, late, r) else if after then Before(false, r, late) else r == late
    ensures !After(Anchor(CursorOf(r)), late)
  {
  }

  /** Once a poll has read up to row i, row l stays as shut out as it was. */
  lemma ShutAfter(scope: Scope, log: seq<Event>, c: StreamCursor, l: nat, i: nat)
    requires Ordered(log) && l < |log| && i < |log| && WholeCursor(c) && InScope(scope, log[i]) && After(c, log[i].key)
    requires Shut(scope, log, c, l) && !After(c, log[l].key)
    ensures Shut(scope, log, Own(log[i]), l) && !After(Own(log[i]), log[l].key) && WholeCursor(Own(log[i]))
  {
    assert !After(Own(log[i]), log[l].key);
    forall k | 0 <= k < |log| && InScope(scope, log[k]) && After(Own(log[i]), log[k].key)
      ensures !After(Own(log[k]), log[l].key)
    {
      if !After(c, log[k].key) {
        if l < k {
          assert Before(false, log[l].key, log[k].key);
        } else if k < l {
          assert Before(false, log[k].key, log[l].key);
        }
        StillShut(c, log[i].key, log[l].key, log[k].key, l < k, k < l);
      }
    }
  }

  /** Row l is behind the connection's cursor and has not been sent; no row of `all`, the log to come, changes that. */
  ghost predicate Late(scope: Scope, s: State, all: seq<Event>, l: nat) {
    && Ordered(all) && s.log <= all && l < |s.log| && s.log[l] !in s.received
    && s.cursor.Some? && WholeCursor(s.cursor.value) && !After(s.cursor.value, s.log[l].key)
    && Shut(scope, all, s.cursor.value, l)
  }

  lemma RowsReadAreAfter(scope: Scope, log: seq<Event>, c: StreamCursor, batch: nat, e: Event)
    requires e in ReadTail(scope, log, c, batch)
    ensures e in log && After(c, e.key) && InScope(scope, e)
  {
    assert e in Scoped(scope, Later(c, log));
    ScopedMembers(scope, Later(c, log), e);
    LaterMembers(c, log, e);
  }

  lemma LatePoll(scope: Scope, s: State, all: seq<Event>, l: nat, batch: nat)
    requires Late(scope, s, all, l)
    ensures Late(scope, Apply(scope, s, Poll(batch)), all, l)
  {
    var c := s.cursor.value;
    var rows := ReadTail(scope, s.log, c, batch);
    PublicMembers(rows, s.log[l]);
    if s.log[l] in rows {
      RowsReadAreAfter(scope, s.log, c, batch, s.log[l]);
    }
    if rows != [] {
      RowsReadAreAfter(scope, s.log, c, batch, rows[|rows| - 1]);
      var i :| 0 <= i < |s.log| && s.log[i] == rows[|rows| - 1];
      ShutAfter(scope, all, c, l, i);
    }
  }

  /** What happens while one connection lasts. */
  predicate Connected(ops: seq<Op>) {
    forall i :: 0 <= i < |ops| ==> ops[i].Poll? || ops[i].Append?
  }

  lemma {:induction false} LogGrows(scope: Scope, s: State, ops: seq<Op>)
    ensures s.log <= Run(scope, s, ops).log
    decreases |ops|
  {
    if ops != [] {
      LogGrows(scope, Done(scope, s, ops[0]), ops[1..]);
    }
  }

  /**
   * A row that lies behind the cursor, having been committed late, say, is not sent by any later poll of the
   * connection, provided that no row in scope past the cursor, read last, would put the cursor before it.
   */
  lemma {:induction false} LateRowStaysBehind(scope: Scope, s: State, l: nat, ops: seq<Op>)
    requires Late(scope, s, Run(scope, s, ops).log, l) && Connected(ops)
    ensures Late(scope, Run(scope, s, ops), Run(scope, s, ops).log, l)
    decreases |ops|
  {
    if ops != [] {
      var t := Done(scope, s, ops[0]);
      LogGrows(scope, t, ops[1..]);
      if ops[0].Poll? {
        LatePoll(scope, s, Run(scope, s, ops).log, l, ops[0].batch);
      }
      LateRowStaysBehind(scope, t, l, ops[1..]);
    }
  }

  /** The proviso is exact. */
  lemma LateRowIsNeverSentIff(scope: Scope, s: State, l: nat)
    requires Ordered(s.log) && l < |s.log| && Goes(scope, s.log[l]) && s.log[l] !in s.received
    requires s.cursor.Some? && WholeCursor(s.cursor.value) && !After(s.cursor.value, s.log[l].key)
    ensures (forall ops :: Connected(ops) && Reading(ops) ==> s.log[l] !in Run(scope, s, ops).received)
            <==> Shut(scope, s.log, s.cursor.value, l)
  {
    var c := s.cursor.value;
    if Shut(scope, s.log, c, l) {
      forall ops | Connected(ops) && Reading(ops) ensures s.log[l] !in Run(scope, s, ops).received {
        ReadingKeepsLog(scope, s, ops);
        LateRowStaysBehind(scope, s, l, ops);
      }
    } else {
      var i :| 0 <= i < |s.log| && InScope(scope, s.log[i]) && After(c, s.log[i].key) &&
          After(Own(s.log[i]), s.log[l].key);
      StandIs(c, s.log);
      var ops, tail := TwoPolls(scope, s, Stand(c, s.log), l, i);
      assert Connected(ops) && Reading(ops);
    }
  }

  // ------------------------------------------------- a crowded millisecond --

  /** From row x up to y: `batch` rows in scope or more, all within one millisecond and none at its very start. */
  ghost predicate Crowded(scope: Scope, log: seq<Event>, x: nat, y: nat, batch: nat) {
    && x < y <= |log| && InScope(scope, log[x]) && batch <= |Scoped(scope, log[x..y])|
    && forall k :: x <= k < y && InScope(scope, log[k]) ==> !Whole(log[k].key) && MsOf(log[k]) == MsOf(log[x])
  }

  /** The cursor is before row x, and nothing from row y on has been received. */
  ghost predicate Blocked(scope: Scope, s: State, x: nat, y: nat) {
    && Ordered(s.log) && x < y <= |s.log|
    && (s.cursor.Some? ==> After(s.cursor.value, s.log[x].key))
    && forall e :: e in s.received ==> InScope(scope, e) && e in s.log[..y]
  }

  /** The cursor of any row in scope before y is before row x. */
  lemma CrowdPullsBack(scope: Scope, log: seq<Event>, x: nat, y: nat, batch: nat, i: nat)
    requires Ordered(log) && Crowded(scope, log, x, y, batch) && i < y && InScope(scope, log[i])
    ensures After(Own(log[i]), log[x].key)
  {
    PastOwnIff(log, x, i);
  }

  lemma ScopedHolds(scope: Scope, log: seq<Event>, p: nat, x: nat, y: nat, n: nat)
    requires p <= x <= y <= n <= |log|
    ensures |Scoped(scope, log[x..y])| <= |Scoped(scope, log[p..n])|
  {
    var a, b, c := log[p..x], log[x..y], log[y..n];
    assert log[p..n] == a + b + c;
    ScopedAppend(scope, a + b, c);
    ScopedAppend(scope, a, b);
  }

  lemma Longer(scope: Scope, log: seq<Event>, p: nat, x: nat, y: nat, n: nat)
    requires p <= x <= y < n <= |log| && InScope(scope, log[n - 1])
    ensures |Scoped(scope, log[x..y])| < |Scoped(scope, log[p..n])|
  {
    ScopedHolds(scope, log, p, x, y, n - 1);
    LastScoped(scope, log, p, n - 1);
  }

  /** A poll from before row x ends before row y. */
  lemma PollEndsBefore(scope: Scope, log: seq<Event>, x: nat, y: nat, batch: nat, p: nat, rows: seq<Event>, n: nat)
    requires Crowded(scope, log, x, y, batch) && p <= x && ReadUpTo(scope, log, p, rows, n) && |rows| <= batch
    ensures n <= y
  {
    if n > y {
      Longer(scope, log, p, x, y, n);
    }
  }

  lemma ReadBelow(scope: Scope, log: seq<Event>, p: nat, n: nat, y: nat)
    requires p <= n <= y <= |log|
    ensures forall e :: e in Scoped(scope, log[p..n]) ==> InScope(scope, e) && e in log[..y]
  {
    forall e | e in Scoped(scope, log[p..n]) ensures InScope(scope, e) && e in log[..y] {
      ScopedMembers(scope, log[p..n], e);
      assert log[p..n] == log[..y][p..n];
    }
  }

  lemma BlockedPoll(scope: Scope, log: seq<Event>, c: StreamCursor, x: nat, y: nat, most: nat, batch: nat)
    requires Ordered(log) && Crowded(scope, log, x, y, most) && batch <= most && After(c, log[x].key)
    ensures var rows := ReadTail(scope, log, c, batch);
            && After(Advance(c, rows), log[x].key)
            && forall e :: e in rows ==> InScope(scope, e) && e in log[..y]
  {
    var p := Stand(c, log);
    StandIs(c, log);
    var n := PollReads(scope, log, c, p, batch);
    var rows := ReadTail(scope, log, c, batch);
    assert n <= y by {
      PollEndsBefore(scope, log, x, y, most, p, rows, n);
    }
    assert After(Advance(c, rows), log[x].key) by {
      if rows != [] {
        CrowdPullsBack(scope, log, x, y, most, n - 1);
      }
    }
    ReadBelow(scope, log, p, n, y);
  }

  lemma TakeMembers(rows: seq<Event>, n: nat, e: Event)
    requires e in Take(Public(rows), n)
    ensures e in rows
  {
    PublicMembers(rows, e);
  }

  /** Polls of at most `most` rows. */
  predicate AtMost(op: Op, most: nat) {
    (op.Poll? || op.PollThenDrop?) ==> op.batch <= most
  }

  lemma CrowdGrows(scope: Scope, log: seq<Event>, e: Event, x: nat, y: nat, most: nat)
    requires Crowded(scope, log, x, y, most)
    ensures Crowded(scope, log + [e], x, y, most)
  {
    assert (log + [e])[x..y] == log[x..y];
  }

  lemma BlockedStep(scope: Scope, s: State, x: nat, y: nat, most: nat, op: Op)
    requires Blocked(scope, s, x, y) && Crowded(scope, s.log, x, y, most)
    requires Enabled(s, op) && !Restarts(s, op) && AtMost(op, most)
    ensures Blocked(scope, Apply(scope, s, op), x, y) && Crowded(scope, Apply(scope, s, op).log, x, y, most)
  {
    match op
    case Append(e) =>
      CrowdGrows(scope, s.log, e, x, y, most);
      assert (s.log + [e])[..y] == s.log[..y];
    case Poll(batch) =>
      BlockedPoll(scope, s.log, s.cursor.value, x, y, most, batch);
      forall e { PublicMembers(ReadTail(scope, s.log, s.cursor.value, batch), e); }
    case PollThenDrop(batch, kept) =>
      BlockedPoll(scope, s.log, s.cursor.value, x, y, most, batch);
      var rows := ReadTail(scope, s.log, s.cursor.value, batch);
      forall e | e in Take(Public(rows), kept) ensures e in rows { TakeMembers(rows, kept, e); }
    case Drop =>
    case Connect(now, window) =>
      var e := s.received[|s.received| - 1];
      assert e in s.received;
      var i :| 0 <= i < y && s.log[..y][i] == e;
      CrowdPullsBack(scope, s.log, x, y, most, i);
  }

  /**
   * A gap: when `most` rows in scope or more lie within one millisecond, none at its start, and the polls read at most
   * `most` rows, nothing behind them is received in any run that does not start over.
   */
  lemma {:induction false} NothingPassesACrowd(scope: Scope, s: State, x: nat, y: nat, most: nat, ops: seq<Op>)
    requires Blocked(scope, s, x, y) && Crowded(scope, s.log, x, y, most) && NeverRestarts(scope, s, ops)
    requires forall i :: 0 <= i < |ops| ==> AtMost(ops[i], most)
    ensures Blocked(scope, Run(scope, s, ops), x, y)
    decreases |ops|
  {
    if ops != [] {
      if Enabled(s, ops[0]) {
        BlockedStep(scope, s, x, y, most, ops[0]);
      }
      NothingPassesACrowd(scope, Done(scope, s, ops[0]), x, y, most, ops[1..]);
    }
  }

  /** The same from the first connect on. */
  lemma CrowdIsAGap(scope: Scope, log: seq<Event>, now: int, x: nat, y: nat, most: nat, ops: seq<Op>)
    requires Ordered(log) && Crowded(scope, log, x, y, most) && Ms(now) < log[x].key.at
    requires (forall i :: 0 <= i < |ops| ==> AtMost(ops[i], most)) && NeverRestarts(scope, Opened(log, now), ops)
    ensures forall e :: e in Run(scope, Opened(log, now), ops).received ==> e in log[..y]
  {
    NothingPassesACrowd(scope, Opened(log, now), x, y, most, ops);
    LogGrows(scope, Opened(log, now), ops);
    assert Run(scope, Opened(log, now), ops).log[..y] == log[..y];
  }

  // ------------------------------------------------------------ a stuck run --

  const BOOK := BookScope(0, 0)

  function Progress(at: int, id: Id): Event {
    Event(Row(at, id), BookArea, 0, Some(0), None)
  }

  const STUCK := [Progress(1001, 1), Progress(1001, 2), Progress(1002, 3)]

  ghost function Times(n: nat, rows: seq<Event>): seq<Event> {
    if n == 0 then [] else rows + Times(n - 1, rows)
  }

  ghost function PollsOf(n: nat, batch: nat): seq<Op> {
    if n == 0 then [] else [Poll(batch)] + PollsOf(n - 1, batch)
  }

  lemma AllScoped(rows: seq<Event>)
    requires forall e :: e in rows ==> InScope(BOOK, e) && IsPublic(e)
    ensures Scoped(BOOK, rows) == rows && Public(rows) == rows
  {
    if rows != [] {
      AllScoped(rows[1..]);
    }
  }

  lemma StuckPoll(c: StreamCursor)
    requires c == Instant(0) || c == Own(STUCK[1])
    ensures Sends(BOOK, STUCK, c, 2, STUCK[..2], Own(STUCK[1]))
  {
    if c == Instant(0) {
      StandsBefore(c);
    } else {
      OwnIsBefore();
      StandsBefore(c);
    }
    LaterIsSuffix(c, STUCK, 0);
    assert Later(c, STUCK) == STUCK;
    AllScoped(STUCK);
    assert Take(STUCK, 2) == STUCK[..2];
    AllScoped(STUCK[..2]);
    assert STUCK[..2][1] == STUCK[1];
  }

  lemma OwnIsBefore()
    ensures Own(STUCK[1]) == Anchor(Cursor(1000, 2))
  {
  }

  lemma StandsBefore(c: StreamCursor)
    requires c == Instant(0) || c == Anchor(Cursor(1000, 2))
    ensures StandsAt(c, STUCK, 0)
  {
    assert STUCK[0].key == Row(1001, 1) && STUCK[1].key == Row(1001, 2) && STUCK[2].key == Row(1002, 3);
  }

  lemma RunOne(scope: Scope, s: State, op: Op, rest: seq<Op>, t: State)
    requires Done(scope, s, op) == t
    ensures Run(scope, s, [op] + rest) == Run(scope, t, rest)
  {
    assert ([op] + rest)[1..] == rest;
  }

  /** The poll from cursor c sends `rows` and leaves the cursor at `next`. */
  ghost predicate Sends(scope: Scope, log: seq<Event>, c: StreamCursor, batch: nat, rows: seq<Event>,
                        next: StreamCursor) {
    ReadTail(scope, log, c, batch) == rows && Public(rows) == rows && Advance(c, rows) == next
  }

  /** Polls that send the same rows from where they leave the cursor go on so for ever. */
  lemma {:induction false} GoesRound(scope: Scope, s: State, batch: nat, rows: seq<Event>, next: StreamCursor, n: nat)
    requires s.cursor.Some? && Sends(scope, s.log, s.cursor.value, batch, rows, next) &&
             Sends(scope, s.log, next, batch, rows, next)
    ensures Run(scope, s, PollsOf(n, batch)).received == s.received + Times(n, rows)
    decreases n
  {
    if n == 0 {
      assert s.received + [] == s.received;
    } else {
      var t := State(s.log, Some(next), s.received + rows);
      RunOne(scope, s, Poll(batch), PollsOf(n - 1, batch), t);
      GoesRound(scope, t, batch, rows, next, n - 1);
      Associate(s.received, rows, Times(n - 1, rows));
    }
  }

  /**
   * Three rows within a millisecond and polls of two: every poll sends the same two rows, and the third is never
   * sent.
   */
  lemma StuckRun(s: State, n: nat)
    requires s.log == STUCK && (s.cursor == Some(Instant(0)) || s.cursor == Some(Own(STUCK[1])))
    ensures Run(BOOK, s, PollsOf(n, 2)).received == s.received + Times(n, STUCK[..2])
  {
    StuckPoll(s.cursor.value);
    StuckPoll(Own(STUCK[1]));
    GoesRound(BOOK, s, 2, STUCK[..2], Own(STUCK[1]), n);
  }
}
