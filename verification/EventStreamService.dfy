/** The stream service: the counter of open streams per principal, and the poll of one stream. */
module EventStreamService {
  import opened Base
  import opened Keyset
  import opened EventTail

  /** One open response: what it has written, and where its tail stands. */
  class Stream {
    var cursor: StreamCursor
    var closed: bool
    var written: seq<Event>

    constructor (start: StreamCursor)
      ensures cursor == start && !closed && written == []
    {
      cursor, closed, written := start, false, [];
    }

    /** One tick of the poll timer. */
    method Poll(scope: Scope, log: seq<Event>, batch: nat)
      modifies this
      ensures closed == old(closed)
      ensures closed ==> written == old(written) && cursor == old(cursor)
      ensures !closed ==> var rows := ReadTail(scope, log, old(cursor), batch);
                          written == old(written) + Public(rows) && cursor == Advance(old(cursor), rows)
    {
      if closed {
        return;
      }
      var rows := ReadTail(scope, log, cursor, batch);
      var k := 0;
      while k < |rows|
        invariant 0 <= k <= |rows|
        invariant closed == old(closed) && cursor == old(cursor)
        invariant written == old(written) + Public(rows[..k])
      {
        assert rows[..k + 1] == rows[..k] + [rows[k]];
        PublicAppend(rows[..k], [rows[k]]);
        assert Public([rows[k]]) == (if IsPublic(rows[k]) then [rows[k]] else []) + Public([]);
        if IsPublic(rows[k]) {
          written := written + [rows[k]];
        }
        k := k + 1;
      }
      assert rows[..k] == rows;
      if |rows| > 0 {
        cursor := Anchor(CursorOf(rows[|rows| - 1].key));
      }
    }
  }

  class Counter {
    const maxStreams: nat
    var openStreams: map<Id, nat>           // by principal; no entry means none
    ghost var live: set<(Id, Id)>           // (principal, stream) not yet closed

    ghost function LiveOf(p: Id): set<(Id, Id)>
      reads this
    {
      set x | x in live && x.0 == p
    }

    /** The counter is exact, keeps no zero entries, and never exceeds the limit. */
    ghost predicate Valid()
      reads this
    {
      forall p :: if p in openStreams then 0 < openStreams[p] == |LiveOf(p)| <= maxStreams else LiveOf(p) == {}
    }

    constructor (maxStreams: nat)
      ensures Valid() && live == {} && this.maxStreams == maxStreams
    {
      this.maxStreams, openStreams, live := maxStreams, map[], {};
    }

    method Open(p: Id, stream: Id) returns (accepted: bool)
      requires Valid() && (p, stream) !in live
      modifies this`openStreams, this`live
      ensures Valid()
      ensures accepted <==> |old(LiveOf(p))| < maxStreams
      ensures live == if accepted then old(live) + {(p, stream)} else old(live)
    {
      var current := if p in openStreams then openStreams[p] else 0;
      if current >= maxStreams {
        return false;
      }
      openStreams := openStreams[p := current + 1];
      live := live + {(p, stream)};
      assert LiveOf(p) == old(LiveOf(p)) + {(p, stream)};
      assert forall q :: q != p ==> LiveOf(q) == old(LiveOf(q));
      return true;
    }

    /** `close` runs once per stream: its own `closed` flag turns the second call into nothing. */
    method Close(p: Id, stream: Id, closed: bool)
      requires Valid() && (closed <==> (p, stream) !in live)
      modifies this`openStreams, this`live
      ensures Valid() && live == old(live) - {(p, stream)}
    {
      if closed {
        return;
      }
      assert (p, stream) in LiveOf(p);
      var remaining := (if p in openStreams then openStreams[p] else 1) - 1;
      live := live - {(p, stream)};
      assert LiveOf(p) == old(LiveOf(p)) - {(p, stream)};
      assert forall q :: q != p ==> LiveOf(q) == old(LiveOf(q));
      if remaining <= 0 {
        openStreams := openStreams - {p};
      } else {
        openStreams := openStreams[p := remaining];
      }
    }
  }
}
