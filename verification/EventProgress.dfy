/**
 * Whether the polls of one stream reach the end of a log. `rows` are the rows in scope; TailOfScoped says that a poll
 * depends on these alone.
 */
module EventProgress {
  import opened Base
  import opened Keyset
  import opened EventTail

  lemma {:induction false} ScopedLater(scope: Scope, c: StreamCursor, log: seq<Event>)
    ensures Scoped(scope, Later(c, log)) == Later(c, Scoped(scope, log))
  {
    if log != [] {
      ScopedLater(scope, c, log[1..]);
      LaterCons(scope, c, log[0], log[1..]);
    }
  }

  lemma LaterCons(scope: Scope, c: StreamCursor, e: Event, log: seq<Event>)
    requires Scoped(scope, Later(c, log)) == Later(c, Scoped(scope, log))
    ensures Scoped(scope, (if After(c, e.key) then [e] else []) + Later(c, log))
         == Later(c, Kept(InScope(scope, e), e) + Scoped(scope, log))
  {
    assert [] + Later(c, log) == Later(c, log) && [] + Scoped(scope, log) == Scoped(scope, log);
    assert ([e] + Later(c, log))[1..] == Later(c, log) && ([e] + Scoped(scope, log))[1..] == Scoped(scope, log);
  }

  lemma {:induction false} ScopedOrdered(scope: Scope, log: seq<Event>)
    requires Ordered(log)
    ensures Ordered(Scoped(scope, log))
  {
    if log != [] {
      ScopedOrdered(scope, log[1..]);
      var rest := Scoped(scope, log[1..]);
      forall k | 0 <= k < |rest| ensures Before(false, log[0].key, rest[k].key) {
        ScopedMembers(scope, log[1..], rest[k]);
        var i :| 0 <= i < |log[1..]| && log[1..][i] == rest[k];
        assert Before(false, log[0].key, log[i + 1].key);
      }
    }
  }

  /** One poll. */
  function Reads(rows: seq<Event>, c: StreamCursor, batch: nat): seq<Event> {
    Take(Later(c, rows), batch)
  }

  lemma TailOfScoped(scope: Scope, log: seq<Event>, c: StreamCursor, batch: nat)
    requires Ordered(log)
    ensures ReadTail(scope, log, c, batch) == Reads(Scoped(scope, log), c, batch) && Ordered(Scoped(scope, log))
  {
    ScopedLater(scope, c, log);
    ScopedOrdered(scope, log);
  }

  /** The cursor after k polls. */
  function Polled(rows: seq<Event>, c: StreamCursor, batch: nat, k: nat): StreamCursor
    decreases k
  {
    if k == 0 then c else Polled(rows, Advance(c, Reads(rows, c, batch)), batch, k - 1)
  }

  /** The next poll reads all that is left. */
  predicate Ends(rows: seq<Event>, c: StreamCursor, batch: nat) {
    |Later(c, rows)| <= batch
  }

  ghost predicate ReachesEnd(rows: seq<Event>, c: StreamCursor, batch: nat) {
    exists k: nat :: Ends(rows, Polled(rows, c, batch, k), batch)
  }

  /** The last row that is read by the poll after row i was the last one read. */
  function NextRead(rows: seq<Event>, batch: nat, i: nat): nat
    requires i < |rows| && batch >= 1
  {
    var p := Stand(Own(rows[i]), rows);
    (if p + batch < |rows| then p + batch else |rows|) - 1
  }

  lemma PollFrom(rows: seq<Event>, c: StreamCursor, batch: nat)
    requires Ordered(rows) && batch >= 1
    ensures var p := Stand(c, rows);
            && (Ends(rows, c, batch) <==> |rows| <= p + batch)
            && (!Ends(rows, c, batch) ==> Advance(c, Reads(rows, c, batch)) == Own(rows[p + batch - 1]))
  {
    var p := Stand(c, rows);
    StandIs(c, rows);
    LaterIsSuffix(c, rows, p);
    if p + batch < |rows| {
      assert rows[p..][..batch][batch - 1] == rows[p + batch - 1];
    }
  }

  lemma PollFromRow(rows: seq<Event>, batch: nat, i: nat)
    requires Ordered(rows) && batch >= 1 && i < |rows|
    ensures Ends(rows, Own(rows[i]), batch) ==> NextRead(rows, batch, i) == |rows| - 1
    ensures !Ends(rows, Own(rows[i]), batch) ==>
              && NextRead(rows, batch, i) < |rows| - 1 && MsOf(rows[i]) <= MsOf(rows[NextRead(rows, batch, i)])
              && Advance(Own(rows[i]), Reads(rows, Own(rows[i]), batch)) == Own(rows[NextRead(rows, batch, i)])
  {
    PollFrom(rows, Own(rows[i]), batch);
    OwnStands(rows, i);
    var p := Stand(Own(rows[i]), rows);
    if p + batch < |rows| {
      MsOrdered(rows, p, p + batch - 1);
      if p == i + 1 {
        MsOrdered(rows, i, p);
      }
    }
  }

  // ------------------------------------------------------------------ traps --

  /** Rows of one millisecond, none of them the last row, among which the polls go round. */
  ghost predicate Trap(rows: seq<Event>, batch: nat, t: set<nat>)
    requires batch >= 1
  {
    && t != {}
    && (forall i :: i in t ==> i + 1 < |rows| && NextRead(rows, batch, i) in t)
    && (forall i, j :: i in t && j in t ==> i < |rows| && j < |rows| && MsOf(rows[i]) == MsOf(rows[j]))
  }

  lemma {:induction false} TrapHolds(rows: seq<Event>, batch: nat, t: set<nat>, i: nat, k: nat)
    requires Ordered(rows) && batch >= 1 && Trap(rows, batch, t) && i in t
    ensures !Ends(rows, Polled(rows, Own(rows[i]), batch, k), batch)
    decreases k
  {
    PollFromRow(rows, batch, i);
    assert NextRead(rows, batch, i) in t;
    if k > 0 {
      TrapHolds(rows, batch, t, NextRead(rows, batch, i), k - 1);
    }
  }

  /** The last row read after k more polls. */
  function Reading(rows: seq<Event>, batch: nat, i: nat, k: nat): (j: nat)
    requires batch >= 1 && i < |rows|
    ensures j < |rows|
    decreases k
  {
    if k == 0 then i else NextRead(rows, batch, Reading(rows, batch, i, k - 1))
  }

  lemma {:induction false} PolledOn(rows: seq<Event>, c: StreamCursor, batch: nat, k: nat)
    ensures Polled(rows, c, batch, k + 1)
         == Advance(Polled(rows, c, batch, k), Reads(rows, Polled(rows, c, batch, k), batch))
    decreases k
  {
    if k > 0 {
      PolledOn(rows, Advance(c, Reads(rows, c, batch)), batch, k - 1);
    }
  }

  lemma {:induction false} ReadingPolled(rows: seq<Event>, batch: nat, i: nat, k: nat)
    requires Ordered(rows) && batch >= 1 && i + 1 < |rows| && !ReachesEnd(rows, Own(rows[i]), batch)
    ensures Reading(rows, batch, i, k) + 1 < |rows|
    ensures Polled(rows, Own(rows[i]), batch, k) == Own(rows[Reading(rows, batch, i, k)])
    ensures !Ends(rows, Own(rows[Reading(rows, batch, i, k)]), batch)
    decreases k
  {
    if k > 0 {
      ReadingPolled(rows, batch, i, k - 1);
      PolledOn(rows, Own(rows[i]), batch, k - 1);
      PollFromRow(rows, batch, Reading(rows, batch, i, k - 1));
    }
  }

  ghost predicate Visits(rows: seq<Event>, batch: nat, i: nat, j: nat)
    requires batch >= 1 && i < |rows|
  {
    exists k: nat :: Reading(rows, batch, i, k) == j
  }

  lemma {:induction false} LargestBelow(t: set<nat>, n: nat) returns (m: nat)
    requires t != {} && forall x :: x in t ==> x < n
    ensures m in t && forall x :: x in t ==> x <= m
    decreases n
  {
    if n > 0 && n - 1 in t {
      m := n - 1;
    } else {
      assert n > 0 by {
        var x :| x in t;
        assert x < n;
      }
      m := LargestBelow(t, n - 1);
    }
  }

  /** Polls that never end go round in a trap. */
  lemma StuckInATrap(rows: seq<Event>, batch: nat, i: nat) returns (t: set<nat>)
    requires Ordered(rows) && batch >= 1 && i + 1 < |rows| && !ReachesEnd(rows, Own(rows[i]), batch)
    ensures Trap(rows, batch, t)
  {
    var all := set j: nat | 0 <= j < |rows| && Visits(rows, batch, i, j);
    assert Reading(rows, batch, i, 0) == i;
    assert i in all;
    var m := LargestBelow(all, |rows|);
    t := set j | j in all && MsOf(rows[j]) == MsOf(rows[m]);
    assert m in t;
    forall j | j in t ensures j + 1 < |rows| && NextRead(rows, batch, j) in t {
      var k: nat :| Reading(rows, batch, i, k) == j;
      ReadingPolled(rows, batch, i, k);
      PollFromRow(rows, batch, j);
      var next := NextRead(rows, batch, j);
      assert Reading(rows, batch, i, k + 1) == next;
      assert next in all;
      MsOrdered(rows, next, m);
    }
  }

  /** From every cursor, bare instants included, the polls reach the end exactly if there is no trap. */
  lemma PollsReachEndIffNoTrap(rows: seq<Event>, batch: nat)
    requires Ordered(rows) && batch >= 1
    ensures (forall c :: ReachesEnd(rows, c, batch)) <==> !exists t :: Trap(rows, batch, t)
  {
    if t :| Trap(rows, batch, t) {
      var i :| i in t;
      forall k: nat ensures !Ends(rows, Polled(rows, Own(rows[i]), batch, k), batch) {
        TrapHolds(rows, batch, t, i, k);
      }
      assert !ReachesEnd(rows, Own(rows[i]), batch);
    } else {
      forall c ensures ReachesEnd(rows, c, batch) {
        NoTrapNoStop(rows, c, batch);
      }
    }
  }

  lemma NoTrapNoStop(rows: seq<Event>, c: StreamCursor, batch: nat)
    requires Ordered(rows) && batch >= 1 && !exists t :: Trap(rows, batch, t)
    ensures ReachesEnd(rows, c, batch)
  {
    PollFrom(rows, c, batch);
    assert Polled(rows, c, batch, 0) == c;
    if !Ends(rows, c, batch) {
      var i := Stand(c, rows) + batch - 1;
      if !ReachesEnd(rows, Own(rows[i]), batch) {
        var t := StuckInATrap(rows, batch, i);
      }
      LaterEnd(rows, c, batch);
    }
  }

  lemma LaterEnd(rows: seq<Event>, c: StreamCursor, batch: nat)
    requires ReachesEnd(rows, Advance(c, Reads(rows, c, batch)), batch)
    ensures ReachesEnd(rows, c, batch)
  {
    var next := Advance(c, Reads(rows, c, batch));
    var k: nat :| Ends(rows, Polled(rows, next, batch, k), batch);
    assert Polled(rows, c, batch, k + 1) == Polled(rows, next, batch, k);
  }

  // ------------------------------------------------------- whatever the ids --

  /** `batch` rows from x on, not the last ones, lie within one millisecond and end past its very start. */
  ghost predicate Tight(rows: seq<Event>, batch: nat, x: nat)
    requires batch >= 1
  {
    x + batch < |rows| && MsOf(rows[x]) == MsOf(rows[x + batch - 1]) && !Whole(rows[x + batch - 1].key)
  }

  ghost predicate Roomy(rows: seq<Event>, batch: nat)
    requires batch >= 1
  {
    forall x: nat :: !Tight(rows, batch, x)
  }

  /** The same rows with other ids. */
  ghost predicate SameInstants(rows: seq<Event>, other: seq<Event>) {
    |rows| == |other| && forall k :: 0 <= k < |rows| ==>
        other[k] == rows[k].(key := Row(rows[k].key.at, other[k].key.id))
  }

  /** With room, each poll that does not end moves the cursor on. */
  lemma RoomMovesOn(rows: seq<Event>, c: StreamCursor, batch: nat)
    requires Ordered(rows) && batch >= 1 && Roomy(rows, batch) && !Ends(rows, c, batch)
    ensures Stand(c, rows) < Stand(Advance(c, Reads(rows, c, batch)), rows)
  {
    PollFrom(rows, c, batch);
    var p := Stand(c, rows);
    var i := p + batch - 1;
    OwnStands(rows, i);
    assert !Tight(rows, batch, p);
    if !Whole(rows[i].key) && Stand(Own(rows[i]), rows) <= p {
      MsOrdered(rows, Stand(Own(rows[i]), rows), p);
      MsOrdered(rows, p, i);
    }
  }

  lemma {:induction false} RoomReachesEnd(rows: seq<Event>, c: StreamCursor, batch: nat)
    requires Ordered(rows) && batch >= 1 && Roomy(rows, batch)
    ensures ReachesEnd(rows, c, batch)
    decreases |rows| - Stand(c, rows)
  {
    if Ends(rows, c, batch) {
      assert Polled(rows, c, batch, 0) == c;
    } else {
      RoomMovesOn(rows, c, batch);
      RoomReachesEnd(rows, Advance(c, Reads(rows, c, batch)), batch);
      LaterEnd(rows, c, batch);
    }
  }

  /** The first tight place. */
  lemma {:induction false} FirstTight(rows: seq<Event>, batch: nat, x: nat) returns (y: nat)
    requires Ordered(rows) && batch >= 1 && Tight(rows, batch, x)
    ensures Tight(rows, batch, y)
    ensures y > 0 ==> Whole(rows[y].key) || MsOf(rows[y - 1]) != MsOf(rows[y]) || Whole(rows[y - 1].key)
  {
    if x > 0 && !Whole(rows[x].key) && MsOf(rows[x - 1]) == MsOf(rows[x]) && !Whole(rows[x - 1].key) {
      BetweenNotWhole(rows, x - 1, x - 1 + batch - 1, x + batch - 1);
      y := FirstTight(rows, batch, x - 1);
    } else {
      y := x;
    }
  }

  lemma BetweenNotWhole(rows: seq<Event>, a: nat, b: nat, c: nat)
    requires Ordered(rows) && a <= b <= c < |rows| && MsOf(rows[a]) == MsOf(rows[c]) && !Whole(rows[a].key)
    ensures MsOf(rows[a]) == MsOf(rows[b]) && !Whole(rows[b].key)
  {
    MsOrdered(rows, a, b);
    MsOrdered(rows, b, c);
    if a < b {
      assert Before(false, rows[a].key, rows[b].key);
    }
  }

  /** Ids under which every cursor of a fraction of u stands at x: those at u from x on have the largest ids. */
  function Renumbered(rows: seq<Event>, u: int, x: nat): (other: seq<Event>)
    ensures |other| == |rows|
  {
    seq(|rows|, k requires 0 <= k < |rows| =>
      rows[k].(key := Row(rows[k].key.at, if rows[k].key.at == u && k >= x then k + |rows| else k)))
  }

  lemma RenumberedOrdered(rows: seq<Event>, u: int, x: nat)
    requires Ordered(rows)
    ensures Ordered(Renumbered(rows, u, x)) && SameInstants(rows, Renumbered(rows, u, x))
  {
    var other := Renumbered(rows, u, x);
    forall j, k | 0 <= j < k < |other| ensures Before(false, other[j].key, other[k].key) {
      assert Before(false, rows[j].key, rows[k].key);
    }
  }

  /** Under these ids a tight place is a trap. */
  lemma TightIsATrap(rows: seq<Event>, batch: nat, x: nat) returns (other: seq<Event>)
    requires Ordered(rows) && batch >= 1 && Tight(rows, batch, x)
    requires x > 0 ==> Whole(rows[x].key) || MsOf(rows[x - 1]) != MsOf(rows[x]) || Whole(rows[x - 1].key)
    ensures Ordered(other) && SameInstants(rows, other) && Trap(other, batch, {x + batch - 1})
  {
    var u, i := MsOf(rows[x]), x + batch - 1;
    other := Renumbered(rows, u, x);
    RenumberedOrdered(rows, u, x);
    OwnStands(other, i);
    var p := Stand(Own(other[i]), other);
    assert After(Own(other[i]), other[x].key) by {
      FractionPast(rows, other, u, x, i);
    }
    if x > 0 {
      assert !After(Own(other[i]), other[x - 1].key) by {
        NotPast(rows, x, i);
      }
    }
    assert p == x;
  }

  lemma FractionPast(rows: seq<Event>, other: seq<Event>, u: int, x: nat, i: nat)
    requires Ordered(rows) && x <= i < |rows| && u == MsOf(rows[x]) == MsOf(rows[i]) && !Whole(rows[i].key)
    requires other == Renumbered(rows, u, x)
    ensures After(Own(other[i]), other[x].key)
  {
  }

  lemma NotPast(rows: seq<Event>, x: nat, i: nat)
    requires Ordered(rows) && 0 < x <= i < |rows| && MsOf(rows[x]) == MsOf(rows[i]) && !Whole(rows[i].key)
    requires Whole(rows[x].key) || MsOf(rows[x - 1]) != MsOf(rows[x]) || Whole(rows[x - 1].key)
    ensures !After(Own(Renumbered(rows, MsOf(rows[x]), x)[i]), Renumbered(rows, MsOf(rows[x]), x)[x - 1].key)
  {
    assert Before(false, rows[x - 1].key, rows[x].key);
    MsOrdered(rows, x - 1, x);
  }

  /**
   * Whatever the ids of the rows, random as they are, the polls reach the end from every cursor: exactly if the batch
   * leaves room in every millisecond.
   */
  lemma AlwaysReachesEndIffRoomy(rows: seq<Event>, batch: nat)
    requires Ordered(rows) && batch >= 1
    ensures (forall other, c :: Ordered(other) && SameInstants(rows, other) ==> ReachesEnd(other, c, batch))
            <==> Roomy(rows, batch)
  {
    if Roomy(rows, batch) {
      forall other, c | Ordered(other) && SameInstants(rows, other) ensures ReachesEnd(other, c, batch) {
        forall x: nat ensures !Tight(other, batch, x) {
          assert !Tight(rows, batch, x);
        }
        RoomReachesEnd(other, c, batch);
      }
    } else {
      var z: nat :| Tight(rows, batch, z);
      var x := FirstTight(rows, batch, z);
      var other := TightIsATrap(rows, batch, x);
      PollsReachEndIffNoTrap(other, batch);
    }
  }
}
