/**
 * What one client receives of the event stream over polls, lost connections and `Last-Event-ID` reconnects, while the
 * log grows at its end in (created_at, event_id) order. Polls do not overlap. The log is any ordered log.
 */
module EventRuns {
  import opened Base
  import opened Keyset
  import opened EventTail

  /** `received` counts from the last start point; `cursor` is None while disconnected. */
  datatype State = State(log: seq<Event>, cursor: Option<StreamCursor>, received: seq<Event>)

  datatype Op =
    | Append(event: Event)
    | Poll(batch: nat)
    | PollThenDrop(batch: nat, kept: nat)      // the connection fails after `kept` frames of the poll
    | Drop
    | Connect(now: int, window: int)           // sends Last-Event-ID once it has received an event

  /** The answer to `Last-Event-ID` carries on from it inside the replay window; otherwise a resync is sent. */
  predicate InWindow(e: Event, now: int, window: int) {
    MsOf(e) >= Ms(now) - window
  }

  /** The connects that start over: nothing received yet, so no Last-Event-ID is sent, or an id outside the window. */
  ghost predicate Restarts(s: State, op: Op) {
    op.Connect? && (s.received == [] || !InWindow(s.received[|s.received| - 1], op.now, op.window))
  }

  ghost predicate Enabled(s: State, op: Op) {
    match op
    case Append(e) => Ordered(s.log + [e]) && (s.cursor.Some? ==> After(s.cursor.value, e.key))
    case Poll(batch) => s.cursor.Some?
    case PollThenDrop(batch, kept) => s.cursor.Some?
    case Drop => s.cursor.Some?
    case Connect(now, window) => s.cursor == None
  }

  ghost function Apply(scope: Scope, s: State, op: Op): State
    requires Enabled(s, op)
  {
    match op
    case Append(e) => s.(log := s.log + [e])
    case Poll(batch) =>
      var rows := ReadTail(scope, s.log, s.cursor.value, batch);
      s.(received := s.received + Public(rows), cursor := Some(Advance(s.cursor.value, rows)))
    case PollThenDrop(batch, kept) =>
      var rows := ReadTail(scope, s.log, s.cursor.value, batch);
      s.(received := s.received + Take(Public(rows), kept), cursor := None)
    case Drop => s.(cursor := None)
    case Connect(now, window) =>
      if Restarts(s, op) then s.(cursor := Some(Instant(Ms(now))), received := [])
      else s.(cursor := Some(Own(s.received[|s.received| - 1])))
  }

  ghost function Done(scope: Scope, s: State, op: Op): State {
    if Enabled(s, op) then Apply(scope, s, op) else s
  }

  ghost function Run(scope: Scope, s: State, ops: seq<Op>): State
    decreases |ops|
  {
    if ops == [] then s else Run(scope, Done(scope, s, ops[0]), ops[1..])
  }

  ghost predicate NeverRestarts(scope: Scope, s: State, ops: seq<Op>)
    decreases |ops|
  {
    ops == [] || (!(Enabled(s, ops[0]) && Restarts(s, ops[0])) &&
                  NeverRestarts(scope, Done(scope, s, ops[0]), ops[1..]))
  }

  /** A connection to `log` opened at `now`. */
  function Opened(log: seq<Event>, now: int): State {
    State(log, Some(Instant(Ms(now))), [])
  }

  // ----------------------------------------------------- the frames' order --

  /** Frame k is sent again after row i, which is in scope, was the last one read. */
  predicate Doubtful(scope: Scope, log: seq<Event>, k: nat, i: nat)
    requires k <= i < |log|
  {
    Goes(scope, log[k]) && InScope(scope, log[i]) && Overtakes(log, k, i)
  }

  /** The millisecond u holds such rows. */
  ghost predicate Again(scope: Scope, log: seq<Event>, u: int) {
    exists k: nat, i: nat :: k <= i < |log| && Doubtful(scope, log, k, i) && MsOf(log[k]) == u
  }

  ghost predicate RepeatFree(scope: Scope, log: seq<Event>) {
    forall k: nat, i: nat :: k <= i < |log| ==> !Doubtful(scope, log, k, i)
  }

  ghost predicate NoneGoes(scope: Scope, log: seq<Event>, m: int, n: int) {
    forall k {:trigger Goes(scope, log[k])} :: m <= k < n && 0 <= k < |log| ==> !Goes(scope, log[k])
  }

  /**
   * What may be sent right after position q: the next frame, or one of the same millisecond at or before q, if cursors
   * cannot tell the rows of that millisecond apart.
   */
  ghost predicate Step(scope: Scope, log: seq<Event>, q: int, f: nat)
    requires f < |log| && q < |log|
  {
    && Goes(scope, log[f])
    && if q < f then NoneGoes(scope, log, q + 1, f)
       else MsOf(log[f]) == MsOf(log[q]) && Again(scope, log, MsOf(log[f]))
  }

  function End(q: int, sent: seq<nat>): int {
    if sent == [] then q else sent[|sent| - 1]
  }

  ghost predicate Within(log: seq<Event>, q: int, sent: seq<nat>) {
    q < |log| && forall i :: 0 <= i < |sent| ==> sent[i] < |log|
  }

  /** The frame sent before frame i. */
  function Previous(q: int, sent: seq<nat>, i: nat): int
    requires i < |sent|
  {
    if i == 0 then q else sent[i - 1]
  }

  ghost predicate StepAt(scope: Scope, log: seq<Event>, q: int, sent: seq<nat>, i: nat)
    requires Within(log, q, sent) && i < |sent|
  {
    Step(scope, log, Previous(q, sent, i), sent[i])
  }

  ghost predicate Path(scope: Scope, log: seq<Event>, q: int, sent: seq<nat>)
    requires Within(log, q, sent)
  {
    forall i {:trigger StepAt(scope, log, q, sent, i)} :: 0 <= i < |sent| ==> StepAt(scope, log, q, sent, i)
  }

  /** A cursor at position p, the last frame sent being q: whatever is sent next is a step from q. */
  ghost predicate Linked(scope: Scope, log: seq<Event>, q: int, p: nat)
    requires q < |log| && p <= |log|
  {
    if q < p then NoneGoes(scope, log, q + 1, p)
    else MsOf(log[p]) == MsOf(log[q]) && (NoneGoes(scope, log, p, q + 1) || Again(scope, log, MsOf(log[q])))
  }

  lemma LinkedStep(scope: Scope, log: seq<Event>, q: int, f: nat)
    requires Ordered(log) && q < |log| && f < |log| && Linked(scope, log, q, f) && Goes(scope, log[f])
    ensures Step(scope, log, q, f)
  {
  }

  lemma LinkedOn(scope: Scope, log: seq<Event>, q: int, p: nat)
    requires Ordered(log) && q < |log| && p < |log| && Linked(scope, log, q, p) && !Goes(scope, log[p])
    ensures Linked(scope, log, q, p + 1)
  {
    if p < q {
      MsOrdered(log, p, p + 1);
      MsOrdered(log, p + 1, q);
    }
  }

  lemma PathOne(scope: Scope, log: seq<Event>, q: int, sent: seq<nat>, f: nat)
    requires Within(log, q, sent) && f < |log| && Path(scope, log, q, sent) && Step(scope, log, End(q, sent), f)
    ensures Path(scope, log, q, sent + [f])
  {
    var more := sent + [f];
    forall i | 0 <= i < |more| ensures StepAt(scope, log, q, more, i) {
      assert i < |sent| ==> StepAt(scope, log, q, sent, i);
    }
  }

  lemma SentNext(scope: Scope, log: seq<Event>, m: nat, n: nat)
    requires m < n <= |log|
    ensures Sent(scope, log, m, n)
         == if Goes(scope, log[n - 1]) then Sent(scope, log, m, n - 1) + [n - 1] else Sent(scope, log, m, n - 1)
  {
    assert Sent(scope, log, m, n - 1) + [] == Sent(scope, log, m, n - 1);
  }

  /** A path from q that whatever follows from position n on can continue. */
  ghost predicate Leads(scope: Scope, log: seq<Event>, q: int, sent: seq<nat>, n: nat) {
    Within(log, q, sent) && n <= |log| && Path(scope, log, q, sent) && Linked(scope, log, End(q, sent), n)
  }

  lemma LeadsOn(scope: Scope, log: seq<Event>, q: int, sent: seq<nat>, m: nat, more: seq<nat>)
    requires Ordered(log) && m < |log| && Leads(scope, log, q, sent, m)
    requires more == if Goes(scope, log[m]) then sent + [m] else sent
    ensures Leads(scope, log, q, more, m + 1)
  {
    if Goes(scope, log[m]) {
      LinkedStep(scope, log, End(q, sent), m);
      PathOne(scope, log, q, sent, m);
    } else {
      LinkedOn(scope, log, End(q, sent), m);
    }
  }

  /** The frames of the positions p up to n, sent after q. */
  lemma {:induction false} SentLeads(scope: Scope, log: seq<Event>, q: int, p: nat, n: nat)
    requires Ordered(log) && q < |log| && p <= n <= |log| && Linked(scope, log, q, p)
    ensures Leads(scope, log, q, Sent(scope, log, p, n), n)
    decreases n - p
  {
    if p == n {
      assert Sent(scope, log, p, n) == [];
    } else {
      var m := n - 1;
      var sent, more := Sent(scope, log, p, m), Sent(scope, log, p, n);
      assert Leads(scope, log, q, sent, m) by {
        SentLeads(scope, log, q, p, m);
      }
      assert more == if Goes(scope, log[m]) then sent + [m] else sent by {
        SentNext(scope, log, p, n);
      }
      LeadsOn(scope, log, q, sent, m, more);
    }
  }

  lemma PathAppend(scope: Scope, log: seq<Event>, q: int, a: seq<nat>, b: seq<nat>)
    requires Within(log, q, a) && Within(log, q, b) && Path(scope, log, q, a) && Path(scope, log, End(q, a), b)
    ensures Within(log, q, a + b) && Path(scope, log, q, a + b) && End(q, a + b) == End(End(q, a), b)
  {
    var all := a + b;
    forall i | 0 <= i < |all| ensures StepAt(scope, log, q, all, i) {
      assert if i < |a| then StepAt(scope, log, q, a, i) else StepAt(scope, log, End(q, a), b, i - |a|);
    }
  }

  /** The cursor of the row read last, row i: the poll from p has read up to it, and q is the last frame sent. */
  lemma LinkedBack(scope: Scope, log: seq<Event>, r: int, q: int, p: nat, i: nat)
    requires Ordered(log) && r < |log| && q < |log| && p <= i < |log| && InScope(scope, log[i])
    requires Linked(scope, log, r, p) && Linked(scope, log, q, i + 1) && (q == r || q <= i)
    ensures var back := Stand(Own(log[i]), log);
            back <= i + 1 && StandsAt(Own(log[i]), log, back) && Linked(scope, log, q, back)
  {
    var back := Stand(Own(log[i]), log);
    OwnStands(log, i);
    if back <= q {
      if q <= i {
        MsBetween(log, back, q, i);
      } else if i < q {
        MsBetween(log, p, i, q);
      }
      if !NoneGoes(scope, log, back, q + 1) {
        var k :| back <= k < q + 1 && Goes(scope, log[k]);
        if k <= i {
          PastOwnIff(log, k, i);
          assert Doubtful(scope, log, k, i);
        }
      }
    }
  }

  lemma MsBetween(log: seq<Event>, a: nat, b: nat, c: nat)
    requires Ordered(log) && a <= b <= c < |log|
    ensures MsOf(log[a]) == MsOf(log[c]) ==> MsOf(log[a]) == MsOf(log[b])
  {
    MsOrdered(log, a, b);
    MsOrdered(log, b, c);
  }

  // ------------------------------------------------------------- every run --

  /** Where the client's start point lies, up to where it has every frame, and the positions of what it got. */
  datatype View = View(start: nat, high: nat, sent: seq<nat>)

  function Last(v: View): int {
    End(v.start - 1, v.sent)
  }

  ghost predicate Below(sent: seq<nat>, n: nat) {
    forall i :: 0 <= i < |sent| ==> sent[i] < n
  }

  ghost predicate HasAll(scope: Scope, log: seq<Event>, sent: seq<nat>, m: nat, n: nat) {
    forall k :: m <= k < n && k < |log| && Goes(scope, log[k]) ==> k in sent
  }

  /** No frame between the start and `high` is missing, and the frames came in steps. */
  ghost predicate Told(scope: Scope, log: seq<Event>, received: seq<Event>, v: View) {
    && v.start <= v.high <= |log| && Below(v.sent, v.high)
    && received == Pick(log, v.sent)
    && Path(scope, log, v.start - 1, v.sent)
    && HasAll(scope, log, v.sent, v.start, v.high)
  }

  /** The cursor stands at position p. */
  ghost predicate Tuned(scope: Scope, log: seq<Event>, c: StreamCursor, v: View, p: nat) {
    p <= v.high <= |log| && Last(v) < |log| && StandsAt(c, log, p) && Linked(scope, log, Last(v), p)
  }

  ghost predicate Inv(scope: Scope, s: State, v: View, p: nat) {
    Ordered(s.log) && Told(scope, s.log, s.received, v) &&
        (s.cursor.Some? ==> Tuned(scope, s.log, s.cursor.value, v, p))
  }

  lemma AgainGrows(scope: Scope, log: seq<Event>, e: Event, u: int)
    requires Again(scope, log, u)
    ensures Again(scope, log + [e], u)
  {
    var k: nat, i: nat :| k <= i < |log| && Doubtful(scope, log, k, i) && MsOf(log[k]) == u;
    assert Doubtful(scope, log + [e], k, i);
  }

  lemma StepGrows(scope: Scope, log: seq<Event>, e: Event, q: int, f: nat)
    requires q < |log| && f < |log| && Step(scope, log, q, f)
    ensures Step(scope, log + [e], q, f)
  {
    if f <= q {
      AgainGrows(scope, log, e, MsOf(log[f]));
    }
  }

  lemma PathGrows(scope: Scope, log: seq<Event>, e: Event, q: int, sent: seq<nat>)
    requires Within(log, q, sent) && Path(scope, log, q, sent)
    ensures Path(scope, log + [e], q, sent)
  {
    forall i | 0 <= i < |sent| ensures StepAt(scope, log + [e], q, sent, i) {
      assert StepAt(scope, log, q, sent, i);
      StepGrows(scope, log, e, Previous(q, sent, i), sent[i]);
    }
  }

  lemma LinkedGrows(scope: Scope, log: seq<Event>, e: Event, q: int, p: nat)
    requires q < |log| && p <= |log| && Linked(scope, log, q, p)
    ensures Linked(scope, log + [e], q, p)
  {
    if p <= q && !NoneGoes(scope, log, p, q + 1) {
      AgainGrows(scope, log, e, MsOf(log[q]));
    }
  }

  lemma AppendKeeps(scope: Scope, s: State, v: View, p: nat, e: Event)
    requires Inv(scope, s, v, p) && Enabled(s, Append(e))
    ensures Inv(scope, Apply(scope, s, Append(e)), v, p)
  {
    PathGrows(scope, s.log, e, v.start - 1, v.sent);
    assert Pick(s.log + [e], v.sent) == Pick(s.log, v.sent);
    if s.cursor.Some? {
      LinkedGrows(scope, s.log, e, Last(v), p);
    }
  }

  function Further(v: View, k: nat, more: seq<nat>): View {
    v.(high := if k > v.high then k else v.high, sent := v.sent + more)
  }

  lemma HasAllMore(scope: Scope, log: seq<Event>, v: View, p: nat, k: nat, more: seq<nat>)
    requires Below(v.sent, v.high) && Below(more, k) && p <= v.high
    requires HasAll(scope, log, v.sent, v.start, v.high) && HasAll(scope, log, more, p, k)
    ensures Below(v.sent + more, Further(v, k, more).high)
    ensures HasAll(scope, log, v.sent + more, v.start, Further(v, k, more).high)
  {
    var all := v.sent + more;
    forall j | v.start <= j < Further(v, k, more).high && j < |log| && Goes(scope, log[j]) ensures j in all {
      assert if j < v.high then j in v.sent else j in more;
    }
  }

  lemma PickMore(log: seq<Event>, a: seq<nat>, b: seq<nat>)
    requires Below(a, |log|) && Below(b, |log|)
    ensures Below(a + b, |log|) && Pick(log, a + b) == Pick(log, a) + Pick(log, b)
  {
  }

  /** Frames sent from position p of the cursor up to k. */
  lemma ToldMore(scope: Scope, log: seq<Event>, received: seq<Event>, v: View, p: nat, k: nat, more: seq<nat>)
    requires Told(scope, log, received, v) && p <= v.high && k <= |log|
    requires Below(more, k) && HasAll(scope, log, more, p, k) && Path(scope, log, Last(v), more)
    ensures Told(scope, log, received + Pick(log, more), Further(v, k, more))
    ensures Last(Further(v, k, more)) == End(Last(v), more)
  {
    PathAppend(scope, log, v.start - 1, v.sent, more);
    PickMore(log, v.sent, more);
    HasAllMore(scope, log, v, p, k, more);
  }

  lemma SentIsAll(scope: Scope, log: seq<Event>, p: nat, k: nat)
    requires p <= k <= |log|
    ensures Below(Sent(scope, log, p, k), k) && HasAll(scope, log, Sent(scope, log, p, k), p, k)
  {
    SentWithin(scope, log, p, k);
  }

  lemma Tell(scope: Scope, log: seq<Event>, received: seq<Event>, v: View, p: nat, k: nat) returns (v': View)
    requires Ordered(log) && Told(scope, log, received, v) && p <= v.high && p <= k <= |log| &&
             Linked(scope, log, Last(v), p)
    ensures v'.start == v.start && v'.high >= v.high && v'.high >= k
    ensures && Told(scope, log, received + Frames(scope, log, p, k), v')
            && Last(v') < |log| && Linked(scope, log, Last(v'), k) && (Last(v') == Last(v) || Last(v') < k)
  {
    SentLeads(scope, log, Last(v), p, k);
    FramesAreSent(scope, log, p, k);
    SentIsAll(scope, log, p, k);
    ToldMore(scope, log, received, v, p, k, Sent(scope, log, p, k));
    v' := Further(v, k, Sent(scope, log, p, k));
  }

  lemma Retune(scope: Scope, log: seq<Event>, v: View, p: nat, i: nat, v': View)
    requires Ordered(log) && Last(v) < |log| && Last(v') < |log| && p <= i < v'.high <= |log| && InScope(scope, log[i])
    requires Linked(scope, log, Last(v), p) && Linked(scope, log, Last(v'), i + 1) &&
             (Last(v') == Last(v) || Last(v') <= i)
    ensures Tuned(scope, log, Own(log[i]), v', Stand(Own(log[i]), log))
  {
    LinkedBack(scope, log, Last(v), Last(v'), p, i);
  }

  /** A poll that reads rows, up to row i. */
  lemma PollTells(scope: Scope, log: seq<Event>, received: seq<Event>, v: View, c: StreamCursor, p: nat, i: nat)
    returns (v': View, p': nat)
    requires Ordered(log) && Told(scope, log, received, v) && Tuned(scope, log, c, v, p)
    requires p <= i < |log| && InScope(scope, log[i])
    ensures Told(scope, log, received + Frames(scope, log, p, i + 1), v') && Tuned(scope, log, Own(log[i]), v', p')
    ensures v'.start == v.start
  {
    v' := Tell(scope, log, received, v, p, i + 1);
    p' := Stand(Own(log[i]), log);
    Retune(scope, log, v, p, i, v');
  }

  lemma RowsTell(scope: Scope, log: seq<Event>, received: seq<Event>, v: View, c: StreamCursor, p: nat,
                 rows: seq<Event>, n: nat) returns (v': View, p': nat)
    requires Ordered(log) && Told(scope, log, received, v) && Tuned(scope, log, c, v, p) &&
             ReadUpTo(scope, log, p, rows, n)
    ensures Told(scope, log, received + Public(rows), v') && Tuned(scope, log, Advance(c, rows), v', p')
    ensures v'.start == v.start
  {
    if rows == [] {
      assert received + Public(rows) == received;
      v', p' := v, p;
    } else {
      v', p' := PollTells(scope, log, received, v, c, p, n - 1);
    }
  }

  lemma AnyPollTells(scope: Scope, log: seq<Event>, received: seq<Event>, v: View, c: StreamCursor, p: nat, batch: nat)
    returns (v': View, p': nat)
    requires Ordered(log) && Told(scope, log, received, v) && Tuned(scope, log, c, v, p)
    ensures var rows := ReadTail(scope, log, c, batch);
            Told(scope, log, received + Public(rows), v') && Tuned(scope, log, Advance(c, rows), v', p')
    ensures v'.start == v.start
  {
    var n := PollReads(scope, log, c, p, batch);
    v', p' := RowsTell(scope, log, received, v, c, p, ReadTail(scope, log, c, batch), n);
  }

  lemma PollKeeps(scope: Scope, s: State, v: View, p: nat, batch: nat) returns (v': View, p': nat)
    requires Inv(scope, s, v, p) && s.cursor.Some?
    ensures Inv(scope, Apply(scope, s, Poll(batch)), v', p') && v'.start == v.start
  {
    v', p' := AnyPollTells(scope, s.log, s.received, v, s.cursor.value, p, batch);
  }

  lemma DropKeeps(scope: Scope, s: State, v: View, p: nat, batch: nat, kept: nat) returns (v': View)
    requires Inv(scope, s, v, p) && s.cursor.Some?
    ensures Inv(scope, Apply(scope, s, PollThenDrop(batch, kept)), v', p) && v'.start == v.start
  {
    var n := PollReads(scope, s.log, s.cursor.value, p, batch);
    var k := FramesPrefix(scope, s.log, p, n, kept);
    v' := Tell(scope, s.log, s.received, v, p, k);
  }

  /** The cursor of the last frame received links to that frame. */
  lemma OwnLinked(scope: Scope, log: seq<Event>, e: nat)
    requires Ordered(log) && e < |log| && Goes(scope, log[e])
    ensures Linked(scope, log, e, Stand(Own(log[e]), log))
  {
    OwnStands(log, e);
    if !Whole(log[e].key) {
      assert Doubtful(scope, log, e, e);
    }
  }

  lemma ViewAtStart(scope: Scope, log: seq<Event>, now: int) returns (v: View, p: nat)
    requires Ordered(log)
    ensures Inv(scope, Opened(log, now), v, p) && StandsAt(Instant(Ms(now)), log, v.start)
  {
    p := Stand(Instant(Ms(now)), log);
    StandIs(Instant(Ms(now)), log);
    v := View(p, p, []);
    assert Pick(log, []) == [];
  }

  lemma ConnectKeeps(scope: Scope, s: State, v: View, p: nat, now: int, window: int) returns (v': View, p': nat)
    requires Inv(scope, s, v, p) && Enabled(s, Connect(now, window))
    ensures Inv(scope, Apply(scope, s, Connect(now, window)), v', p')
    ensures !Restarts(s, Connect(now, window)) ==> v'.start == v.start
    ensures Restarts(s, Connect(now, window)) ==> StandsAt(Instant(Ms(now)), s.log, v'.start)
  {
    if Restarts(s, Connect(now, window)) {
      v', p' := ViewAtStart(scope, s.log, now);
    } else {
      var e := v.sent[|v.sent| - 1];
      assert StepAt(scope, s.log, v.start - 1, v.sent, |v.sent| - 1);
      OwnLinked(scope, s.log, e);
      OwnStands(s.log, e);
      v', p' := v, Stand(Own(s.log[e]), s.log);
    }
  }

  /** One operation keeps the invariant, and the start point unless it starts over. */
  lemma OpKeeps(scope: Scope, s: State, v: View, p: nat, op: Op) returns (v': View, p': nat)
    requires Inv(scope, s, v, p) && Enabled(s, op)
    ensures Inv(scope, Apply(scope, s, op), v', p')
    ensures !Restarts(s, op) ==> v'.start == v.start
  {
    v', p' := v, p;
    match op
    case Append(e) => AppendKeeps(scope, s, v, p, e);
    case Poll(batch) => v', p' := PollKeeps(scope, s, v, p, batch);
    case PollThenDrop(batch, kept) => v' := DropKeeps(scope, s, v, p, batch, kept);
    case Drop =>
    case Connect(now, window) => v', p' := ConnectKeeps(scope, s, v, p, now, window);
  }

  lemma {:induction false} RunKeeps(scope: Scope, s: State, v: View, p: nat, ops: seq<Op>) returns (v': View, p': nat)
    requires Inv(scope, s, v, p)
    ensures Inv(scope, Run(scope, s, ops), v', p')
    ensures NeverRestarts(scope, s, ops) ==> v'.start == v.start
    decreases |ops|
  {
    v', p' := v, p;
    if ops != [] {
      if Enabled(s, ops[0]) {
        v', p' := OpKeeps(scope, s, v, p, ops[0]);
      }
      v', p' := RunKeeps(scope, Done(scope, s, ops[0]), v', p', ops[1..]);
    }
  }

  /**
   * From the first connect on, whatever the batches, lost connections and reconnects: of the frames between the start
   * point and some position none is missing, and nothing beyond that position was sent. Unless a connect starts over,
   * the start point is the first event after the instant of connecting.
   */
  lemma NoneMissing(scope: Scope, log: seq<Event>, now: int, ops: seq<Op>) returns (v: View)
    requires Ordered(log)
    ensures var s := Run(scope, Opened(log, now), ops);
            && Told(scope, s.log, s.received, v)
            && (forall k :: v.start <= k < v.high && Goes(scope, s.log[k]) ==> s.log[k] in s.received)
            && (forall e :: e in s.received ==> Goes(scope, e) && e in s.log[..v.high])
            && (NeverRestarts(scope, Opened(log, now), ops) ==> StandsAt(Instant(Ms(now)), log, v.start))
  {
    var v0, p0 := ViewAtStart(scope, log, now);
    var p;
    v, p := RunKeeps(scope, Opened(log, now), v0, p0, ops);
    var s := Run(scope, Opened(log, now), ops);
    ToldMeans(scope, s.log, s.received, v);
  }

  /** Nobody else's events: whatever is received is in the log, public, of the caller's tenant and book or job. */
  lemma OnlyOwnEvents(scope: Scope, log: seq<Event>, now: int, ops: seq<Op>, e: Event)
    requires Ordered(log) && e in Run(scope, Opened(log, now), ops).received
    ensures e in Run(scope, Opened(log, now), ops).log && !e.area.OtherArea?
    ensures e.tenant == scope.tenant
            && if scope.BookScope? then e.book == Some(scope.book) else e.job == Some(scope.job)
  {
    var v := NoneMissing(scope, log, now, ops);
  }

  /**
   * A connection that is lost and opened again carries on from the last event received if that is recent enough, and
   * starts over otherwise.
   */
  lemma ReconnectIs(scope: Scope, s: State, now: int, window: int)
    requires s.cursor.Some?
    ensures var t := Run(scope, s, [Drop, Connect(now, window)]);
            var recent := s.received != [] && MsOf(s.received[|s.received| - 1]) >= Ms(now) - window;
            && t.log == s.log
            && t.received == (if recent then s.received else [])
            && t.cursor == Some(if recent then Own(s.received[|s.received| - 1]) else Instant(now - now % 1000))
  {
    var ops, last := [Drop, Connect(now, window)], [Connect(now, window)];
    assert ops[1..] == last && last[1..] == [];
    var s1 := Done(scope, s, Drop);
    assert Run(scope, s, ops) == Run(scope, s1, last);
    assert Run(scope, s1, last) == Run(scope, Done(scope, s1, last[0]), []);
  }

  lemma ToldMeans(scope: Scope, log: seq<Event>, received: seq<Event>, v: View)
    requires Told(scope, log, received, v)
    ensures forall k :: v.start <= k < v.high && Goes(scope, log[k]) ==> log[k] in received
    ensures forall e :: e in received ==> Goes(scope, e) && e in log[..v.high]
  {
    forall k | v.start <= k < v.high && Goes(scope, log[k]) ensures log[k] in received {
      var i :| 0 <= i < |v.sent| && v.sent[i] == k;
      assert received[i] == log[k];
    }
    forall e | e in received ensures Goes(scope, e) && e in log[..v.high] {
      var i :| 0 <= i < |received| && received[i] == e;
      assert StepAt(scope, log, v.start - 1, v.sent, i);
      assert log[..v.high][v.sent[i]] == e;
    }
  }

  /** A frame sent later lies further on, or in the same millisecond, and then it is one that holds doubtful rows. */
  ghost predicate Onward(scope: Scope, log: seq<Event>, e: nat, f: nat)
    requires e < |log| && f < |log|
  {
    e < f || (MsOf(log[f]) == MsOf(log[e]) && Again(scope, log, MsOf(log[f])))
  }

  lemma OnwardStep(scope: Scope, log: seq<Event>, e: nat, q: nat, f: nat)
    requires Ordered(log) && e < |log| && q < |log| && f < |log|
    requires e == q || Onward(scope, log, e, q)
    requires Step(scope, log, q, f)
    ensures Onward(scope, log, e, f)
  {
    if f <= e {
      if q <= f {
        MsBetween(log, q, f, e);
      } else if e <= q {
        MsBetween(log, f, e, q);
      }
    }
  }

  /** Repeats are confined: whatever was sent earlier or twice lies in one millisecond with doubtful rows. */
  lemma {:induction false} FramesMoveOn(scope: Scope, log: seq<Event>, q: int, sent: seq<nat>, i: nat, j: nat)
    requires Ordered(log) && Within(log, q, sent) && Path(scope, log, q, sent) && i < j < |sent|
    ensures Onward(scope, log, sent[i], sent[j])
  {
    if i < j - 1 {
      FramesMoveOn(scope, log, q, sent, i, j - 1);
    }
    assert StepAt(scope, log, q, sent, j);
    OnwardStep(scope, log, sent[i], sent[j - 1], sent[j]);
  }

  /** A poll that comes back short leaves no frame from the start point on unsent. */
  lemma ShortPollCatchesUp(scope: Scope, s: State, v: View, p: nat, batch: nat)
    requires Inv(scope, s, v, p) && s.cursor.Some?
    requires |ReadTail(scope, s.log, s.cursor.value, batch)| < batch
    ensures forall k :: v.start <= k < |s.log| && Goes(scope, s.log[k]) ==>
            s.log[k] in Apply(scope, s, Poll(batch)).received
  {
    var n := PollReads(scope, s.log, s.cursor.value, p, batch);
    var rows := Scoped(scope, s.log[p..]);
    forall k | v.start <= k < |s.log| && Goes(scope, s.log[k]) ensures s.log[k] in s.received + Public(rows) {
      if k < p {
        var i :| 0 <= i < |v.sent| && v.sent[i] == k;
        assert s.received[i] == s.log[k];
      } else {
        assert s.log[p..][k - p] == s.log[k];
        ScopedMembers(scope, s.log[p..], s.log[k]);
        PublicMembers(rows, s.log[k]);
      }
    }
  }

  // ------------------------------------------------------- without repeats --

  lemma {:induction false} SentNone(scope: Scope, log: seq<Event>, m: nat, k: nat, n: nat)
    requires m <= k <= n <= |log| && NoneGoes(scope, log, k, n)
    ensures Sent(scope, log, m, n) == Sent(scope, log, m, k)
    decreases n
  {
    if k < n {
      SentNone(scope, log, m, k, n - 1);
      SentNext(scope, log, m, n);
    }
  }

  lemma NoAgain(scope: Scope, log: seq<Event>, u: int)
    requires RepeatFree(scope, log)
    ensures !Again(scope, log, u)
  {
  }

  lemma NextSent(scope: Scope, log: seq<Event>, m: nat, e: int, f: nat)
    requires m - 1 <= e < |log| && f < |log| && Step(scope, log, e, f) && RepeatFree(scope, log)
    ensures m - 1 <= f && Sent(scope, log, m, f + 1) == Sent(scope, log, m, e + 1) + [f]
  {
    assert e < f && NoneGoes(scope, log, e + 1, f) by {
      NoAgain(scope, log, MsOf(log[f]));
    }
    assert Sent(scope, log, m, f) == Sent(scope, log, m, e + 1) by {
      SentNone(scope, log, m, e + 1, f);
    }
    SentNext(scope, log, m, f + 1);
  }

  /** Where nothing is doubtful, the steps are simply the frames in order. */
  lemma {:induction false} PathIsSent(scope: Scope, log: seq<Event>, m: nat, sent: seq<nat>)
    requires m <= |log| && Within(log, m - 1, sent) && Path(scope, log, m - 1, sent) && RepeatFree(scope, log)
    ensures m - 1 <= End(m - 1, sent) && sent == Sent(scope, log, m, End(m - 1, sent) + 1)
    decreases |sent|
  {
    if sent != [] {
      var most, f := sent[..|sent| - 1], sent[|sent| - 1];
      PathFront(scope, log, m - 1, sent);
      PathIsSent(scope, log, m, most);
      NextSent(scope, log, m, End(m - 1, most), f);
      assert sent == most + [f];
    }
  }

  lemma PathFront(scope: Scope, log: seq<Event>, q: int, sent: seq<nat>)
    requires Within(log, q, sent) && Path(scope, log, q, sent) && sent != []
    ensures Path(scope, log, q, sent[..|sent| - 1])
    ensures Step(scope, log, End(q, sent[..|sent| - 1]), sent[|sent| - 1])
  {
    var most := sent[..|sent| - 1];
    assert StepAt(scope, log, q, sent, |most|);
    forall i | 0 <= i < |most| ensures StepAt(scope, log, q, most, i) {
      assert StepAt(scope, log, q, sent, i);
    }
  }

  /** The client has received exactly the frames between its start point and some position, in order and once each. */
  lemma ReceivedIsTheTail(scope: Scope, log: seq<Event>, now: int, ops: seq<Op>) returns (m: nat, n: nat)
    requires Ordered(log) && RepeatFree(scope, Run(scope, Opened(log, now), ops).log)
    ensures var s := Run(scope, Opened(log, now), ops);
            && m <= n <= |s.log| && s.received == Frames(scope, s.log, m, n)
            && (NeverRestarts(scope, Opened(log, now), ops) ==> StandsAt(Instant(Ms(now)), log, m))
  {
    var s := Run(scope, Opened(log, now), ops);
    var v := NoneMissing(scope, log, now, ops);
    PathIsSent(scope, s.log, v.start, v.sent);
    m, n := v.start, Last(v) + 1;
    FramesAreSent(scope, s.log, m, n);
  }

  ghost predicate Reading(ops: seq<Op>) {
    forall i :: 0 <= i < |ops| ==> !ops[i].Append?
  }

  lemma {:induction false} ReadingKeepsLog(scope: Scope, s: State, ops: seq<Op>)
    requires Reading(ops)
    ensures Run(scope, s, ops).log == s.log
    decreases |ops|
  {
    if ops != [] {
      ReadingKeepsLog(scope, Done(scope, s, ops[0]), ops[1..]);
    }
  }

  ghost predicate Distinct(rows: seq<Event>) {
    forall i, j :: 0 <= i < j < |rows| ==> rows[i] != rows[j]
  }

  lemma DistinctMore(log: seq<Event>, at: seq<nat>, n: nat)
    requires Ordered(log) && n < |log| && Below(at, n) && Distinct(Pick(log, at))
    ensures Distinct(Pick(log, at + [n]))
  {
    assert Pick(log, at + [n]) == Pick(log, at) + [log[n]];
    forall i | 0 <= i < |at| ensures log[at[i]] != log[n] {
      assert Before(false, log[at[i]].key, log[n].key);
    }
  }

  lemma {:induction false} SentDistinct(scope: Scope, log: seq<Event>, m: nat, n: nat)
    requires Ordered(log) && m <= n <= |log|
    ensures Distinct(Pick(log, Sent(scope, log, m, n)))
    decreases n - m
  {
    if m < n {
      SentDistinct(scope, log, m, n - 1);
      SentNext(scope, log, m, n);
      DistinctMore(log, Sent(scope, log, m, n - 1), n - 1);
    }
  }

  /**
   * Two polls on a connection that stands before row k: the first reads up to row i, the second all past its cursor.
   */
  lemma TwoPolls(scope: Scope, s: State, p: nat, k: nat, i: nat) returns (ops: seq<Op>, tail: seq<Event>)
    requires s.cursor.Some? && StandsAt(s.cursor.value, s.log, p) && k < |s.log| && Goes(scope, s.log[k])
    requires p <= i < |s.log| && InScope(scope, s.log[i]) && After(Own(s.log[i]), s.log[k].key)
    ensures |ops| == 2 && ops[0].Poll? && ops[1].Poll?
    ensures Run(scope, s, ops).received == s.received + Frames(scope, s.log, p, i + 1) + tail && s.log[k] in tail
  {
    var b := ReadThrough(scope, s.log, s.cursor.value, p, i);
    ops := [Poll(b), Poll(|s.log|)];
    var t := Done(scope, s, ops[0]);
    var rows := ReadTail(scope, s.log, Own(s.log[i]), |s.log|);
    assert ops[1..] == [ops[1]] && ops[1..][1..] == [];
    assert Run(scope, t, ops[1..]) == Done(scope, t, ops[1]);
    var all := Scoped(scope, Later(Own(s.log[i]), s.log));
    LaterMembers(Own(s.log[i]), s.log, s.log[k]);
    ScopedMembers(scope, Later(Own(s.log[i]), s.log), s.log[k]);
    NoLonger(scope, Own(s.log[i]), s.log);
    PublicMembers(rows, s.log[k]);
    tail := Public(rows);
  }

  lemma {:induction false} NoLonger(scope: Scope, c: StreamCursor, log: seq<Event>)
    ensures |Scoped(scope, Later(c, log))| <= |log|
  {
    if log != [] {
      NoLonger(scope, c, log[1..]);
      var first := if After(c, log[0].key) then [log[0]] else [];
      ScopedAppend(scope, first, Later(c, log[1..]));
      assert |Scoped(scope, first)| <= 1 by {
        assert first != [] ==> Scoped(scope, first) == Kept(InScope(scope, log[0]), log[0]) + Scoped(scope, []);
      }
    }
  }

  /** Exactly when no run over the log sends a row twice. */
  lemma NoRepeatsIffRepeatFree(scope: Scope, log: seq<Event>)
    requires Ordered(log)
    ensures (forall now: int, ops: seq<Op> :: Reading(ops) ==> Distinct(Run(scope, Opened(log, now), ops).received))
            <==> RepeatFree(scope, log)
  {
    if RepeatFree(scope, log) {
      forall now: int, ops: seq<Op> | Reading(ops) ensures Distinct(Run(scope, Opened(log, now), ops).received) {
        ReadingKeepsLog(scope, Opened(log, now), ops);
        var m, n := ReceivedIsTheTail(scope, log, now, ops);
        SentDistinct(scope, log, m, n);
        FramesAreSent(scope, log, m, n);
      }
    } else {
      var k: nat, i: nat :| k <= i < |log| && Doubtful(scope, log, k, i);
      var now, ops := RepeatRun(scope, log, k, i);
      assert Reading(ops);
    }
  }

  lemma InFrames(scope: Scope, log: seq<Event>, m: nat, k: nat, n: nat)
    requires m <= k < n <= |log| && Goes(scope, log[k])
    ensures log[k] in Frames(scope, log, m, n)
  {
    assert log[m..n][k - m] == log[k];
    ScopedMembers(scope, log[m..n], log[k]);
    PublicMembers(Scoped(scope, log[m..n]), log[k]);
  }

  lemma BeforeAll(log: seq<Event>) returns (now: int)
    requires Ordered(log) && log != []
    ensures StandsAt(Instant(Ms(now)), log, 0)
  {
    now := log[0].key.at - 1000;
    forall j | 0 <= j < |log| ensures After(Instant(Ms(now)), log[j].key) {
      assert j > 0 ==> Before(false, log[0].key, log[j].key);
    }
  }

  /** Logs at whole milliseconds meet the condition. */
  lemma WholeIsRepeatFree(scope: Scope, log: seq<Event>)
    requires Ordered(log) && forall k :: 0 <= k < |log| && InScope(scope, log[k]) ==> Whole(log[k].key)
    ensures RepeatFree(scope, log)
  {
    forall k: nat, i: nat | k <= i < |log| ensures !Doubtful(scope, log, k, i) {
      if k < i {
        assert Before(false, log[k].key, log[i].key);
      }
    }
  }

  lemma RepeatRun(scope: Scope, log: seq<Event>, k: nat, i: nat) returns (now: int, ops: seq<Op>)
    requires Ordered(log) && k <= i < |log| && Doubtful(scope, log, k, i)
    ensures Reading(ops) && !Distinct(Run(scope, Opened(log, now), ops).received)
  {
    now := BeforeAll(log);
    assert After(Own(log[i]), log[k].key) by {
      PastOwnIff(log, k, i);
    }
    var tail;
    ops, tail := TwoPolls(scope, Opened(log, now), 0, k, i);
    var first, got := Frames(scope, log, 0, i + 1), Run(scope, Opened(log, now), ops).received;
    assert !Distinct(got) by {
      InFrames(scope, log, 0, k, i + 1);
      TwiceInSum(got, first, tail, log[k]);
    }
  }

  lemma TwiceInSum(all: seq<Event>, a: seq<Event>, b: seq<Event>, e: Event)
    requires all == [] + a + b && e in a && e in b
    ensures !Distinct(all)
  {
    assert all == a + b;
    var i :| 0 <= i < |a| && a[i] == e;
    var j :| 0 <= j < |b| && b[j] == e;
    assert (a + b)[i] == (a + b)[|a| + j];
  }
}
