/**
 * The query behind the server-sent events: a tail over the outbox table, its cursors, and what of the log a client is
 * sent. A cursor keeps milliseconds, the log microseconds, so a row can lie past the cursor made of it.
 */
module EventTail {
  import opened Base
  import opened Keyset

  /** The part of the event type before its first dot; the public stream carries these nine areas and no other. */
  datatype Area = BookArea | CharacterArea | VoiceArea | DirectorArea | TtsArea | AudioArea | ChapterArea
                | AudiobookArea | JobArea | OtherArea(name: string)

  datatype Event = Event(key: Row, area: Area, tenant: Id, book: Option<Id>, job: Option<Id>)

  datatype Scope = BookScope(tenant: Id, book: Id) | JobScope(tenant: Id, job: Id)

  predicate IsPublic(e: Event) {
    !e.area.OtherArea?
  }

  /** The query's own filter: the tenant, then the book or the job. */
  predicate InScope(scope: Scope, e: Event) {
    match scope
    case BookScope(t, b) => e.tenant == t && e.book == Some(b)
    case JobScope(t, j) => e.tenant == t && e.job == Some(j)
  }

  /** A bare instant until an event anchors it. */
  datatype StreamCursor = Instant(ms: int) | Anchor(at: Cursor)

  predicate After(c: StreamCursor, r: Row) {
    match c
    case Instant(ms) => r.at > ms
    case Anchor(at) => Past(false, at, r)
  }

  function Kept(keep: bool, e: Event): seq<Event> {
    if keep then [e] else []
  }

  function Scoped(scope: Scope, log: seq<Event>): seq<Event> {
    if log == [] then []
    else Kept(InScope(scope, log[0]), log[0]) + Scoped(scope, log[1..])
  }

  function Public(rows: seq<Event>): seq<Event> {
    if rows == [] then []
    else Kept(IsPublic(rows[0]), rows[0]) + Public(rows[1..])
  }

  function Later(c: StreamCursor, log: seq<Event>): seq<Event> {
    if log == [] then []
    else (if After(c, log[0].key) then [log[0]] else []) + Later(c, log[1..])
  }

  /** `readTail`. */
  function ReadTail(scope: Scope, log: seq<Event>, c: StreamCursor, batch: nat): seq<Event> {
    Take(Scoped(scope, Later(c, log)), batch)
  }

  function Advance(c: StreamCursor, rows: seq<Event>): StreamCursor {
    if rows == [] then c else Anchor(CursorOf(rows[|rows| - 1].key))
  }

  ghost predicate Ordered(log: seq<Event>) {
    forall j, k {:trigger Before(false, log[j].key, log[k].key)} ::
      0 <= j < k < |log| ==> Before(false, log[j].key, log[k].key)
  }

  // ------------------------------------------------------------- filters --

  lemma {:induction false} ScopedAppend(scope: Scope, a: seq<Event>, b: seq<Event>)
    ensures Scoped(scope, a + b) == Scoped(scope, a) + Scoped(scope, b)
  {
    if a == [] {
      assert a + b == b;
    } else {
      assert (a + b)[0] == a[0] && (a + b)[1..] == a[1..] + b;
      ScopedAppend(scope, a[1..], b);
      Associate(Kept(InScope(scope, a[0]), a[0]), Scoped(scope, a[1..]), Scoped(scope, b));
    }
  }

  lemma {:induction false} PublicAppend(a: seq<Event>, b: seq<Event>)
    ensures Public(a + b) == Public(a) + Public(b)
  {
    if a == [] {
      assert a + b == b;
    } else {
      assert (a + b)[0] == a[0] && (a + b)[1..] == a[1..] + b;
      PublicAppend(a[1..], b);
      Associate(Kept(IsPublic(a[0]), a[0]), Public(a[1..]), Public(b));
    }
  }

  lemma {:induction false} LaterIsSuffix(c: StreamCursor, log: seq<Event>, n: nat)
    requires n <= |log| && StandsAt(c, log, n)
    ensures Later(c, log) == log[n..]
  {
    if log != [] {
      LaterIsSuffix(c, log[1..], if n == 0 then 0 else n - 1);
    }
  }

  lemma ScopedPrefix(scope: Scope, log: seq<Event>, i: nat)
    requires i < |log|
    ensures Scoped(scope, log[..i + 1]) == Kept(InScope(scope, log[0]), log[0]) + Scoped(scope, log[1..][..i])
  {
    assert log[..i + 1][0] == log[0] && log[..i + 1][1..] == log[1..][..i];
  }

  /** The first `batch` rows of the filtered list come from the first j rows, of which the last is one of them. */
  ghost predicate TakenFrom(scope: Scope, log: seq<Event>, rows: seq<Event>, j: nat) {
    && j <= |log| && Scoped(scope, log[..j]) == rows
    && (rows != [] ==> j > 0 && rows[|rows| - 1] == log[j - 1])
    && (rows == [] ==> j == 0)
  }

  lemma TakenHit(scope: Scope, log: seq<Event>, rows: seq<Event>, i: nat)
    requires log != [] && InScope(scope, log[0]) && TakenFrom(scope, log[1..], rows, i)
    ensures TakenFrom(scope, log, [log[0]] + rows, i + 1)
  {
    ScopedPrefix(scope, log, i);
  }

  lemma TakenMiss(scope: Scope, log: seq<Event>, rows: seq<Event>, i: nat)
    requires log != [] && !InScope(scope, log[0]) && TakenFrom(scope, log[1..], rows, i)
    ensures TakenFrom(scope, log, rows, if i == 0 then 0 else i + 1)
  {
    if i > 0 {
      ScopedPrefix(scope, log, i);
      assert [] + rows == rows;
    } else {
      assert log[..0] == [] && log[1..][..0] == [];
    }
  }

  lemma TakeMore(e: Event, rest: seq<Event>, batch: nat)
    requires batch > 0
    ensures Take([e] + rest, batch) == [e] + Take(rest, batch - 1)
    ensures Take([] + rest, batch) == Take(rest, batch)
  {
    assert [] + rest == rest;
  }

  lemma TakeNone(scope: Scope, log: seq<Event>)
    ensures TakenFrom(scope, log, [], 0)
  {
    assert log[..0] == [];
  }

  lemma {:induction false} TakeScoped(scope: Scope, log: seq<Event>, batch: nat) returns (j: nat)
    ensures TakenFrom(scope, log, Take(Scoped(scope, log), batch), j)
  {
    if log == [] || batch == 0 {
      TakeNone(scope, log);
      return 0;
    }
    TakeMore(log[0], Scoped(scope, log[1..]), batch);
    if InScope(scope, log[0]) {
      var i := TakeScoped(scope, log[1..], batch - 1);
      TakenHit(scope, log, Take(Scoped(scope, log[1..]), batch - 1), i);
      j := i + 1;
    } else {
      var i := TakeScoped(scope, log[1..], batch);
      TakenMiss(scope, log, Take(Scoped(scope, log[1..]), batch), i);
      j := if i == 0 then 0 else i + 1;
    }
  }

  lemma {:induction false} LaterMembers(c: StreamCursor, log: seq<Event>, e: Event)
    ensures e in Later(c, log) <==> e in log && After(c, e.key)
  {
    if log != [] {
      LaterMembers(c, log[1..], e);
      assert log == [log[0]] + log[1..];
    }
  }

  lemma {:induction false} ScopedMembers(scope: Scope, log: seq<Event>, e: Event)
    ensures e in Scoped(scope, log) <==> e in log && InScope(scope, e)
  {
    if log != [] {
      ScopedMembers(scope, log[1..], e);
      assert log == [log[0]] + log[1..];
    }
  }

  lemma {:induction false} PublicMembers(rows: seq<Event>, e: Event)
    ensures e in Public(rows) <==> e in rows && IsPublic(e)
  {
    if rows != [] {
      PublicMembers(rows[1..], e);
      assert rows == [rows[0]] + rows[1..];
    }
  }

  // -------------------------------------------------------------- cursors --

  /** The cursor made of a row. */
  function Own(e: Event): StreamCursor {
    Anchor(CursorOf(e.key))
  }

  /** Exactly the rows from position n on lie after the cursor. */
  ghost predicate StandsAt(c: StreamCursor, log: seq<Event>, n: nat) {
    forall k {:trigger After(c, log[k].key)} :: 0 <= k < |log| ==> (After(c, log[k].key) <==> n <= k)
  }

  /** Where the cursor stands in the log. */
  function Stand(c: StreamCursor, log: seq<Event>): (n: nat)
    ensures n <= |log|
  {
    if log == [] || After(c, log[0].key) then 0 else 1 + Stand(c, log[1..])
  }

  lemma {:induction false} StandIs(c: StreamCursor, log: seq<Event>)
    requires Ordered(log)
    ensures StandsAt(c, log, Stand(c, log))
  {
    if log != [] {
      if After(c, log[0].key) {
        forall k | 0 < k < |log| ensures After(c, log[k].key) {
          assert Before(false, log[0].key, log[k].key);
        }
      } else {
        StandIs(c, log[1..]);
        assert forall k :: 0 < k < |log| ==> log[k] == log[1..][k - 1];
      }
    }
  }

  lemma MsGrows(a: int, b: int)
    requires a <= b
    ensures Ms(a) <= Ms(b)
  {
  }

  function MsOf(e: Event): int {
    Ms(e.key.at)
  }

  lemma MsOrdered(log: seq<Event>, j: nat, k: nat)
    requires Ordered(log) && j <= k < |log|
    ensures MsOf(log[j]) <= MsOf(log[k])
  {
    if j < k {
      assert Before(false, log[j].key, log[k].key);
      MsGrows(log[j].key.at, log[k].key.at);
    }
  }

  /**
   * Row k, at or before row i, nevertheless lies past the cursor made of row i: both are of one millisecond, and row k
   * is not at its very start or has the larger id.
   */
  predicate Overtakes(log: seq<Event>, k: nat, i: nat)
    requires k <= i < |log|
  {
    MsOf(log[k]) == MsOf(log[i]) && !(Whole(log[k].key) && log[k].key.id <= log[i].key.id)
  }

  lemma PastOwnIff(log: seq<Event>, k: nat, i: nat)
    requires Ordered(log) && k < |log| && i < |log|
    ensures After(Own(log[i]), log[k].key) <==> i < k || Overtakes(log, k, i)
  {
    if k < i {
      assert Before(false, log[k].key, log[i].key);
    } else if i < k {
      assert Before(false, log[i].key, log[k].key);
    }
  }

  /** The cursor of a row stands right after it, or before some rows of its millisecond up to and including it. */
  lemma OwnStands(log: seq<Event>, i: nat)
    requires Ordered(log) && i < |log|
    ensures var p := Stand(Own(log[i]), log);
            && StandsAt(Own(log[i]), log, p) && p <= i + 1
            && (p == i + 1 <==> Whole(log[i].key))
            && (p <= i ==> Overtakes(log, p, i))
  {
    var p := Stand(Own(log[i]), log);
    StandIs(Own(log[i]), log);
    if i + 1 < |log| {
      PastOwnIff(log, i + 1, i);
    }
    PastOwnIff(log, i, i);
    if p <= i {
      PastOwnIff(log, p, i);
    }
  }

  // --------------------------------------------------------------- frames --

  /** What a client is sent of `log` between two positions. */
  function Frames(scope: Scope, log: seq<Event>, m: nat, n: nat): seq<Event>
    requires m <= n <= |log|
  {
    Public(Scoped(scope, log[m..n]))
  }

  predicate Goes(scope: Scope, e: Event) {
    InScope(scope, e) && IsPublic(e)
  }

  /** Their positions. */
  function Sent(scope: Scope, log: seq<Event>, m: nat, n: nat): (at: seq<nat>)
    requires m <= n <= |log|
    ensures forall i :: 0 <= i < |at| ==> m <= at[i] < n
    decreases n - m
  {
    if m == n then []
    else Sent(scope, log, m, n - 1) + if Goes(scope, log[n - 1]) then [n - 1] else []
  }

  function Pick(log: seq<Event>, at: seq<nat>): seq<Event>
    requires forall i :: 0 <= i < |at| ==> at[i] < |log|
  {
    seq(|at|, i requires 0 <= i < |at| => log[at[i]])
  }

  lemma FramesSplit(scope: Scope, log: seq<Event>, m: nat, k: nat, n: nat)
    requires m <= k <= n <= |log|
    ensures Frames(scope, log, m, n) == Frames(scope, log, m, k) + Frames(scope, log, k, n)
  {
    assert log[m..n] == log[m..k] + log[k..n];
    ScopedAppend(scope, log[m..k], log[k..n]);
    PublicAppend(Scoped(scope, log[m..k]), Scoped(scope, log[k..n]));
  }

  lemma FramesOne(scope: Scope, log: seq<Event>, k: nat)
    requires k < |log|
    ensures Frames(scope, log, k, k + 1) == Kept(Goes(scope, log[k]), log[k])
  {
    assert log[k..k + 1] == [log[k]];
    assert Scoped(scope, [log[k]]) == Kept(InScope(scope, log[k]), log[k]) + Scoped(scope, []);
    assert Public([log[k]]) == Kept(IsPublic(log[k]), log[k]) + Public([]);
  }

  lemma {:induction false} SentWithin(scope: Scope, log: seq<Event>, m: nat, n: nat)
    requires m <= n <= |log|
    ensures forall x :: x in Sent(scope, log, m, n) <==> m <= x < n && Goes(scope, log[x])
    decreases n - m
  {
    if m < n {
      SentWithin(scope, log, m, n - 1);
    }
  }

  lemma FramesLast(scope: Scope, log: seq<Event>, m: nat, n: nat)
    requires m < n <= |log|
    ensures Frames(scope, log, m, n) == Frames(scope, log, m, n - 1) + Kept(Goes(scope, log[n - 1]), log[n - 1])
  {
    FramesSplit(scope, log, m, n - 1, n);
    FramesOne(scope, log, n - 1);
  }

  lemma FramesNone(scope: Scope, log: seq<Event>, m: nat)
    requires m <= |log|
    ensures Frames(scope, log, m, m) == []
  {
    assert log[m..m] == [];
  }

  lemma {:induction false} FramesAreSent(scope: Scope, log: seq<Event>, m: nat, n: nat)
    requires m <= n <= |log|
    ensures Frames(scope, log, m, n) == Pick(log, Sent(scope, log, m, n))
    decreases n - m
  {
    FramesNone(scope, log, m);
    if m < n {
      FramesAreSent(scope, log, m, n - 1);
      FramesLast(scope, log, m, n);
    }
  }

  lemma TakeFewer(a: seq<Event>, e: Event, keep: bool, kept: nat)
    requires kept < |a + Kept(keep, e)|
    ensures Take(a + Kept(keep, e), kept) == Take(a, kept)
  {
  }

  /** Any first part of the frames between two positions is all the frames up to some position. */
  lemma {:induction false} FramesPrefix(scope: Scope, log: seq<Event>, m: nat, n: nat, kept: nat) returns (k: nat)
    requires m <= n <= |log|
    ensures m <= k <= n && Frames(scope, log, m, k) == Take(Frames(scope, log, m, n), kept)
    decreases n - m
  {
    FramesNone(scope, log, m);
    if kept >= |Frames(scope, log, m, n)| {
      return n;
    }
    FramesLast(scope, log, m, n);
    TakeFewer(Frames(scope, log, m, n - 1), log[n - 1], Goes(scope, log[n - 1]), kept);
    k := FramesPrefix(scope, log, m, n - 1, kept);
  }

  // ------------------------------------------------------------ one poll --

  /** A poll from position p reads the rows in scope of the positions p up to n. */
  ghost predicate ReadUpTo(scope: Scope, log: seq<Event>, p: nat, rows: seq<Event>, n: nat) {
    && p <= n <= |log| && rows == Scoped(scope, log[p..n])
    && if rows == [] then n == p else p < n && rows[|rows| - 1] == log[n - 1] && InScope(scope, log[n - 1])
  }

  lemma PollReads(scope: Scope, log: seq<Event>, c: StreamCursor, p: nat, batch: nat) returns (n: nat)
    requires p <= |log| && StandsAt(c, log, p)
    ensures ReadUpTo(scope, log, p, ReadTail(scope, log, c, batch), n)
    ensures |ReadTail(scope, log, c, batch)| <= batch
    ensures |ReadTail(scope, log, c, batch)| < batch ==> ReadTail(scope, log, c, batch) == Scoped(scope, log[p..])
  {
    LaterIsSuffix(c, log, p);
    var j := TakeScoped(scope, log[p..], batch);
    n := p + j;
    assert log[p..][..j] == log[p..n];
    var rows := ReadTail(scope, log, c, batch);
    if rows != [] {
      ScopedMembers(scope, log[p..n], rows[|rows| - 1]);
    }
  }

  lemma LastScoped(scope: Scope, log: seq<Event>, p: nat, i: nat)
    requires p <= i < |log| && InScope(scope, log[i])
    ensures Scoped(scope, log[p..i + 1]) == Scoped(scope, log[p..i]) + [log[i]]
  {
    assert log[p..i + 1] == log[p..i] + [log[i]];
    ScopedAppend(scope, log[p..i], [log[i]]);
    assert Scoped(scope, [log[i]]) == Kept(true, log[i]) + Scoped(scope, []);
  }

  lemma TakeFront(a: seq<Event>, b: seq<Event>)
    ensures Take(a + b, |a|) == a
  {
  }

  /** With the right batch a poll reads up to any row in scope that lies past the cursor. */
  lemma ReadThrough(scope: Scope, log: seq<Event>, c: StreamCursor, p: nat, i: nat) returns (batch: nat)
    requires StandsAt(c, log, p) && p <= i < |log| && InScope(scope, log[i])
    ensures ReadTail(scope, log, c, batch) == Scoped(scope, log[p..i + 1])
    ensures Advance(c, ReadTail(scope, log, c, batch)) == Own(log[i])
  {
    LaterIsSuffix(c, log, p);
    var rows := Scoped(scope, log[p..i + 1]);
    batch := |rows|;
    assert log[p..] == log[p..i + 1] + log[i + 1..];
    ScopedAppend(scope, log[p..i + 1], log[i + 1..]);
    TakeFront(rows, Scoped(scope, log[i + 1..]));
    LastScoped(scope, log, p, i);
  }

  /**
   * When all of `log` has been read and nothing is added, the next poll is empty exactly if the last row in scope lies
   * at a whole millisecond; otherwise that row comes after its own cursor again.
   */
  lemma IdlePollIsEmptyIffWhole(scope: Scope, log: seq<Event>, i: nat, batch: nat)
    requires Ordered(log) && i < |log| && InScope(scope, log[i]) && batch >= 1
    requires forall k :: i < k < |log| ==> !InScope(scope, log[k])
    ensures ReadTail(scope, log, Own(log[i]), batch) == [] <==> Whole(log[i].key)
  {
    var c := Own(log[i]);
    OwnStands(log, i);
    var p := Stand(c, log);
    LaterIsSuffix(c, log, p);
    if Whole(log[i].key) {
      NoneScoped(scope, log[i + 1..]);
    } else {
      assert log[p..][i - p] == log[i];
      ScopedMembers(scope, log[p..], log[i]);
    }
  }

  lemma NoneScoped(scope: Scope, rows: seq<Event>)
    requires forall e :: e in rows ==> !InScope(scope, e)
    ensures Scoped(scope, rows) == []
  {
    var s := Scoped(scope, rows);
    if s != [] {
      ScopedMembers(scope, rows, s[0]);
    }
  }
}
