/**
 * `enqueueProcessingJob` and the sweeper's poll, on the stores they write, and how fast repeated polls
 * drain the orphans.
 */
module Sweeper {
  import opened Base
  import opened Jobs

  /** The stores shared by the services: two tables, the broker and the Redis flags. */
  class Stores {
    var rows: map<Id, Row>
    var events: multiset<Id>
    var broker: map<(Queue, Id), Envelope>
    var flags: set<Id>

    constructor (rows: map<Id, Row>)
      ensures this.rows == rows && events == multiset{} && broker == map[] && flags == {}
    {
      this.rows, events, broker, flags := rows, multiset{}, map[], {};
    }
  }

  const QUEUE_PAYLOAD_CEILING_BYTES := 65536

  datatype EnqueueError = PayloadTooLarge | BrokerDown | RowNotFound

  /** Enqueue, then mark: a failure before the mark leaves `queued_at` as it was. */
  method EnqueueProcessingJob(db: Stores, id: Id, queue: Queue, e: Envelope, sizeBytes: nat, brokerUp: bool, now: int)
    returns (r: Result<(), EnqueueError>)
    modifies db`broker, db`rows
    ensures r.Ok? <==> sizeBytes <= QUEUE_PAYLOAD_CEILING_BYTES && brokerUp && id in old(db.rows)
    ensures r.Err? ==> r.error == if sizeBytes > QUEUE_PAYLOAD_CEILING_BYTES then PayloadTooLarge
                                  else if !brokerUp then BrokerDown else RowNotFound
    ensures db.rows == if r.Ok? then MarkAll(old(db.rows), {id}, now) else old(db.rows)
    ensures db.broker == if sizeBytes <= QUEUE_PAYLOAD_CEILING_BYTES && brokerUp
                         then Accept(old(db.broker), queue, e) else old(db.broker)
    ensures r.Ok? ==> id in db.rows && db.rows[id] == old(db.rows)[id].(queuedAt := Some(now))
    ensures r.Ok? ==> (queue, e.jobId) in db.broker
    ensures r.Ok? && (queue, e.jobId) !in old(db.broker) ==> db.broker[(queue, e.jobId)] == e
    ensures db.rows.Keys == old(db.rows).Keys && forall i :: i in db.rows && i != id ==> db.rows[i] == old(db.rows)[i]
  {
    if sizeBytes > QUEUE_PAYLOAD_CEILING_BYTES {
      return Err(PayloadTooLarge);
    }
    if !brokerUp {
      return Err(BrokerDown);
    }
    if (queue, e.jobId) !in db.broker {
      db.broker := db.broker[(queue, e.jobId) := e];
    }
    if id !in db.rows {
      return Err(RowNotFound);
    }
    db.rows := db.rows[id := db.rows[id].(queuedAt := Some(now))];
    return Ok(());
  }

  // ----------------------------------------------------------------- poll --

  /** The orphans nobody else holds, oldest first, `byAge` being the ids in `created_at` order. */
  ghost function Pending(byAge: seq<Id>, rows: map<Id, Row>, cutoff: int, busy: set<Id>): seq<Id> {
    if byAge == [] then []
    else
      var rest := Pending(byAge[1..], rows, cutoff, busy);
      if byAge[0] in rows && byAge[0] !in busy && Orphan(rows[byAge[0]], cutoff) then [byAge[0]] + rest else rest
  }

  ghost function Ids(s: seq<Id>): set<Id> {
    set i | i in s
  }

  ghost function Take<T>(s: seq<T>, n: nat): seq<T> {
    if n < |s| then s[..n] else s
  }

  ghost function Drop<T>(s: seq<T>, n: nat): seq<T> {
    if n < |s| then s[n..] else []
  }

  /** The rows of a batch the loop dispatches: the queue is known and the enqueue does not throw. */
  ghost function Sendable(rows: map<Id, Row>, ids: seq<Id>, ok: set<Id>): set<Id> {
    set i | i in ids && i in rows && IsQueueName(rows[i].queue) && i in ok
  }

  ghost predicate Sent(rows: map<Id, Row>, was: map<(Queue, Id), Envelope>, now: map<(Queue, Id), Envelope>,
                       ids: set<Id>) {
    && (forall k :: k in was ==> k in now && now[k] == was[k])
    && (forall i :: i in ids && i in rows && rows[i].envelope.Some? ==>
          (rows[i].queue, i) in now
          && ((rows[i].queue, i) !in was ==> now[(rows[i].queue, i)] == rows[i].envelope.value))
    && (forall q, i :: (q, i) in now && (q, i) !in was ==> i in ids && i in rows && rows[i].queue == q)
  }

  lemma SendableStep(rows: map<Id, Row>, ids: seq<Id>, ok: set<Id>, k: nat)
    requires k < |ids| && Distinct(ids) && ids[k] in rows
    ensures var done := Sendable(rows, ids[..k], ok);
            && ids[k] !in done
            && Sendable(rows, ids[..k + 1], ok)
               == if IsQueueName(rows[ids[k]].queue) && ids[k] in ok then done + {ids[k]} else done
  {
    assert ids[..k + 1] == ids[..k] + [ids[k]];
  }

  lemma SentStep(rows: map<Id, Row>, was: map<(Queue, Id), Envelope>, broker: map<(Queue, Id), Envelope>,
                 done: set<Id>, i: Id)
    requires Sent(rows, was, broker, done) && i in rows && i !in done
    requires rows[i].envelope.Some? && rows[i].envelope.value.jobId == i
    ensures Sent(rows, was, Accept(broker, rows[i].queue, rows[i].envelope.value), done + {i})
  {
  }

  lemma MarkOneMore(rows: map<Id, Row>, done: set<Id>, i: Id, now: int)
    ensures MarkAll(MarkAll(rows, done, now), {i}, now) == MarkAll(rows, done + {i}, now)
  {
  }

  /** One round of the loop of `pollOnce`, `done` being the rows dispatched before it. */
  method DispatchRow(db: Stores, i: Id, up: bool, now: int, ghost rows: map<Id, Row>,
                     ghost was: map<(Queue, Id), Envelope>, ghost done: set<Id>) returns (sent: bool)
    requires i in rows && i !in done && rows[i].envelope.Some? && rows[i].envelope.value.jobId == i
    requires db.rows == MarkAll(rows, done, now) && Sent(rows, was, db.broker, done)
    modifies db`broker, db`rows
    ensures sent <==> IsQueueName(rows[i].queue) && up
    ensures var done' := if sent then done + {i} else done;
            db.rows == MarkAll(rows, done', now) && Sent(rows, was, db.broker, done')
  {
    var row := db.rows[i];
    if !IsQueueName(row.queue) {
      return false;
    }
    SentStep(rows, was, db.broker, done, i);
    MarkOneMore(rows, done, i, now);
    var r := EnqueueProcessingJob(db, i, row.queue, row.envelope.value, 0, up, now);
    sent := r.Ok?;
  }

  lemma NothingSent(rows: map<Id, Row>, was: map<(Queue, Id), Envelope>, ids: seq<Id>, ok: set<Id>, now: int)
    ensures var none := Sendable(rows, ids[..0], ok);
            none == {} && rows == MarkAll(rows, none, now) && Sent(rows, was, was, none)
  {
  }

  ghost predicate Dispatchable(rows: map<Id, Row>, ids: seq<Id>) {
    forall k :: 0 <= k < |ids| ==>
        ids[k] in rows && rows[ids[k]].envelope.Some? && rows[ids[k]].envelope.value.jobId == ids[k]
  }

  /** The loop of `pollOnce`: one row failing or naming an unknown queue leaves the others alone. */
  method PollOnce(db: Stores, ids: seq<Id>, ok: set<Id>, now: int) returns (dispatched: nat)
    requires Distinct(ids)
    requires Dispatchable(db.rows, ids)
    modifies db`broker, db`rows
    ensures db.rows == MarkAll(old(db.rows), Sendable(old(db.rows), ids, ok), now)
    ensures Sent(old(db.rows), old(db.broker), db.broker, Sendable(old(db.rows), ids, ok))
    ensures dispatched == |Sendable(old(db.rows), ids, ok)|
    ensures db.rows.Keys == old(db.rows).Keys
    ensures forall i :: i in db.rows ==>
              db.rows[i] == if i in ids && i in ok && !old(db.rows)[i].queue.Other?
                            then old(db.rows)[i].(queuedAt := Some(now)) else old(db.rows)[i]
    ensures forall i :: i in ids && i in ok && i in db.rows && !db.rows[i].queue.Other? ==>
              (db.rows[i].queue, i) in db.broker
  {
    dispatched := 0;
    ghost var rows, was := db.rows, db.broker;
    var k := 0;
    ghost var done := Sendable(rows, ids[..0], ok);
    NothingSent(rows, was, ids, ok, now);
    while k < |ids|
      invariant 0 <= k <= |ids|
      invariant done == Sendable(rows, ids[..k], ok) && dispatched == |done|
      invariant db.rows == MarkAll(rows, done, now) && Sent(rows, was, db.broker, done)
    {
      SendableStep(rows, ids, ok, k);
      var sent := DispatchRow(db, ids[k], ids[k] in ok, now, rows, was, done);
      if sent {
        dispatched := dispatched + 1;
        done := done + {ids[k]};
      }
      k := k + 1;
    }
    assert ids[..k] == ids;
  }

  lemma {:induction false} PendingMembers(byAge: seq<Id>, rows: map<Id, Row>, cutoff: int, busy: set<Id>, i: Id)
    ensures i in Pending(byAge, rows, cutoff, busy)
            <==> i in byAge && i in rows && i !in busy && Orphan(rows[i], cutoff)
  {
    if byAge != [] {
      PendingMembers(byAge[1..], rows, cutoff, busy, i);
    }
  }

  ghost predicate ByAge(byAge: seq<Id>, rows: map<Id, Row>) {
    && Distinct(byAge)
    && (forall i :: i in byAge <==> i in rows)
    && (forall j, k :: 0 <= j < k < |byAge| ==> rows[byAge[j]].createdAt <= rows[byAge[k]].createdAt)
  }

  lemma {:induction false} PendingInOrder(byAge: seq<Id>, rows: map<Id, Row>, cutoff: int, busy: set<Id>)
    requires Distinct(byAge) && (forall i :: i in byAge ==> i in rows)
    requires forall j, k :: 0 <= j < k < |byAge| ==> rows[byAge[j]].createdAt <= rows[byAge[k]].createdAt
    ensures var p := Pending(byAge, rows, cutoff, busy);
            && Distinct(p) && (forall i :: i in p ==> i in rows)
            && (forall j, k :: 0 <= j < k < |p| ==> rows[p[j]].createdAt <= rows[p[k]].createdAt)
  {
    if byAge != [] {
      PendingInOrder(byAge[1..], rows, cutoff, busy);
      var rest := Pending(byAge[1..], rows, cutoff, busy);
      forall i | i in rest ensures i in byAge[1..] {
        PendingMembers(byAge[1..], rows, cutoff, busy, i);
      }
      assert forall i :: i in byAge[1..] ==> i != byAge[0] && rows[byAge[0]].createdAt <= rows[i].createdAt;
    }
  }

  /** The first `limit` pending rows are a batch the machine's Claim step accepts, so a sweeper can always claim. */
  lemma ClaimIsPossible(s: State, byAge: seq<Id>, busy: set<Id>, cutoff: int, limit: nat)
    requires ByAge(byAge, s.rows) && (forall i :: i in busy <==> Locked(s, i))
    ensures IsBatch(s, Take(Pending(byAge, s.rows, cutoff, busy), limit), cutoff, limit)
  {
    var p := Pending(byAge, s.rows, cutoff, busy);
    var ids := Take(p, limit);
    PendingInOrder(byAge, s.rows, cutoff, busy);
    forall i ensures i in p <==> Candidate(s, i, cutoff) {
      PendingMembers(byAge, s.rows, cutoff, busy, i);
    }
    forall c | Candidate(s, c, cutoff) && c !in ids
      ensures |ids| == limit && forall k :: 0 <= k < |ids| ==> s.rows[ids[k]].createdAt <= s.rows[c].createdAt
    {
      assert c in p;
    }
  }

  // ------------------------------------------------------------- progress --

  /** What an undisturbed poll does to the rows, as `PollOnce` does it: `ok` are the ids whose enqueue succeeds. */
  ghost function Poll(byAge: seq<Id>, rows: map<Id, Row>, cutoff: int, limit: nat, ok: set<Id>, now: int)
    : map<Id, Row>
  {
    MarkAll(rows, Sendable(rows, Take(Pending(byAge, rows, cutoff, {}), limit), ok), now)
  }

  ghost function Polls(byAge: seq<Id>, rows: map<Id, Row>, cutoff: int, limit: nat, ok: set<Id>, now: int, k: nat)
    : map<Id, Row>
  {
    if k == 0 then rows else Poll(byAge, Polls(byAge, rows, cutoff, limit, ok, now, k - 1), cutoff, limit, ok, now)
  }

  /** The queue is known and the broker takes the job. */
  ghost predicate Accepted(rows: map<Id, Row>, ids: seq<Id>, ok: set<Id>) {
    forall i :: i in ids ==> i in rows && IsQueueName(rows[i].queue) && i in ok
  }

  lemma AllSendable(rows: map<Id, Row>, ids: seq<Id>, ok: set<Id>)
    requires Accepted(rows, ids, ok)
    ensures Sendable(rows, ids, ok) == Ids(ids)
  {
  }

  lemma {:induction false} MarkedLeavePending(byAge: seq<Id>, rows: map<Id, Row>, cutoff: int, ids: set<Id>, now: int)
    ensures Pending(byAge, MarkAll(rows, ids, now), cutoff, {}) == Pending(byAge, rows, cutoff, ids)
  {
    if byAge != [] {
      MarkedLeavePending(byAge[1..], rows, cutoff, ids, now);
    }
  }

  lemma {:induction false} BusyLeavePending(byAge: seq<Id>, rows: map<Id, Row>, cutoff: int, n: nat)
    requires Distinct(byAge)
    ensures var p := Pending(byAge, rows, cutoff, {});
            Pending(byAge, rows, cutoff, Ids(Take(p, n))) == Drop(p, n)
  {
    var p := Pending(byAge, rows, cutoff, {});
    if byAge != [] {
      var b, tail := byAge[0], byAge[1..];
      var q := Pending(tail, rows, cutoff, {});
      PendingMembers(tail, rows, cutoff, {}, b);
      if p == q {
        BusyLeavePending(tail, rows, cutoff, n);
      } else {
        assert p == [b] + q && b !in q;
        if n == 0 {
          assert Ids(Take(p, 0)) == {};
        } else {
          BusyLeavePending(tail, rows, cutoff, n - 1);
          assert Take(p, n) == [b] + Take(q, n - 1);
          BusyOutside(tail, rows, cutoff, Ids(Take(q, n - 1)), b);
          assert Ids(Take(p, n)) == Ids(Take(q, n - 1)) + {b};
        }
      }
    }
  }

  lemma {:induction false} BusyOutside(byAge: seq<Id>, rows: map<Id, Row>, cutoff: int, busy: set<Id>, b: Id)
    requires b !in byAge
    ensures Pending(byAge, rows, cutoff, busy + {b}) == Pending(byAge, rows, cutoff, busy)
  {
    if byAge != [] {
      BusyOutside(byAge[1..], rows, cutoff, busy, b);
    }
  }

  /** Polls change no queue name and add no row. */
  lemma {:induction false} PollsKeepQueues(byAge: seq<Id>, rows: map<Id, Row>, cutoff: int, limit: nat, ok: set<Id>,
                                           now: int, k: nat)
    ensures var after := Polls(byAge, rows, cutoff, limit, ok, now, k);
            after.Keys == rows.Keys && forall i :: i in rows ==> after[i].queue == rows[i].queue
  {
    if k > 0 {
      PollsKeepQueues(byAge, rows, cutoff, limit, ok, now, k - 1);
    }
  }

  lemma FirstAreAccepted(rows: map<Id, Row>, after: map<Id, Row>, p: seq<Id>, q: seq<Id>, n: nat, limit: nat,
                         ok: set<Id>)
    requires Accepted(rows, p, ok) && q == Drop(p, n)
    requires after.Keys == rows.Keys && forall i :: i in rows ==> after[i].queue == rows[i].queue
    ensures Accepted(after, Take(q, limit), ok)
  {
    forall i | i in Take(q, limit) ensures i in p {
      assert i in q;
    }
  }

  lemma OnePollDrains(byAge: seq<Id>, rows: map<Id, Row>, cutoff: int, limit: nat, ok: set<Id>, now: int)
    requires Distinct(byAge) && Accepted(rows, Take(Pending(byAge, rows, cutoff, {}), limit), ok)
    ensures Pending(byAge, Poll(byAge, rows, cutoff, limit, ok, now), cutoff, {})
            == Drop(Pending(byAge, rows, cutoff, {}), limit)
  {
    var batch := Take(Pending(byAge, rows, cutoff, {}), limit);
    AllSendable(rows, batch, ok);
    MarkedLeavePending(byAge, rows, cutoff, Ids(batch), now);
    BusyLeavePending(byAge, rows, cutoff, limit);
  }

  ghost function Sum(k: nat, limit: nat): nat {
    if k == 0 then 0 else Sum(k - 1, limit) + limit
  }

  lemma {:induction false} SumIs(k: nat, limit: nat)
    ensures Sum(k, limit) == k * limit
  {
    if k > 0 {
      SumIs(k - 1, limit);
    }
  }

  lemma DropTwice(p: seq<Id>, m: nat, n: nat)
    ensures Drop(Drop(p, m), n) == Drop(p, m + n)
  {
  }

  lemma {:induction false} PollsDrainSum(byAge: seq<Id>, rows: map<Id, Row>, cutoff: int, limit: nat, ok: set<Id>,
                                         now: int, k: nat)
    requires Distinct(byAge) && Accepted(rows, Pending(byAge, rows, cutoff, {}), ok)
    ensures Pending(byAge, Polls(byAge, rows, cutoff, limit, ok, now, k), cutoff, {})
            == Drop(Pending(byAge, rows, cutoff, {}), Sum(k, limit))
  {
    if k > 0 {
      var before := Polls(byAge, rows, cutoff, limit, ok, now, k - 1);
      PollsDrainSum(byAge, rows, cutoff, limit, ok, now, k - 1);
      assert before.Keys == rows.Keys && forall i :: i in rows ==> before[i].queue == rows[i].queue by {
        PollsKeepQueues(byAge, rows, cutoff, limit, ok, now, k - 1);
      }
      NextPollDrains(byAge, rows, before, cutoff, limit, ok, now, Sum(k - 1, limit));
    }
  }

  lemma NextPollDrains(byAge: seq<Id>, rows: map<Id, Row>, before: map<Id, Row>, cutoff: int, limit: nat, ok: set<Id>,
                       now: int, done: nat)
    requires Distinct(byAge) && Accepted(rows, Pending(byAge, rows, cutoff, {}), ok)
    requires before.Keys == rows.Keys && forall i :: i in rows ==> before[i].queue == rows[i].queue
    requires Pending(byAge, before, cutoff, {}) == Drop(Pending(byAge, rows, cutoff, {}), done)
    ensures Pending(byAge, Poll(byAge, before, cutoff, limit, ok, now), cutoff, {})
            == Drop(Pending(byAge, rows, cutoff, {}), done + limit)
  {
    var all, p := Pending(byAge, rows, cutoff, {}), Pending(byAge, before, cutoff, {});
    FirstAreAccepted(rows, before, all, p, done, limit, ok);
    OnePollDrains(byAge, before, cutoff, limit, ok, now);
    DropTwice(all, done, limit);
  }

  /**
   * If every orphan names a known queue and the broker takes it, k polls dispatch exactly the min(n, k * limit) oldest
   * of n orphans, and leave the rest in order.
   */
  lemma PollsDrain(byAge: seq<Id>, rows: map<Id, Row>, cutoff: int, limit: nat, ok: set<Id>, now: int, k: nat)
    requires Distinct(byAge) && Accepted(rows, Pending(byAge, rows, cutoff, {}), ok)
    ensures Pending(byAge, Polls(byAge, rows, cutoff, limit, ok, now, k), cutoff, {})
            == Drop(Pending(byAge, rows, cutoff, {}), k * limit)
  {
    PollsDrainSum(byAge, rows, cutoff, limit, ok, now, k);
    SumIs(k, limit);
  }

  /** A second sweeper, started while the first holds its batch, takes the next ones. */
  lemma SecondSweeperTakesTheNext(byAge: seq<Id>, rows: map<Id, Row>, cutoff: int, first: nat, second: nat)
    requires Distinct(byAge)
    ensures var p := Pending(byAge, rows, cutoff, {});
            var held := Ids(Take(p, first));
            var next := Take(Pending(byAge, rows, cutoff, held), second);
            && Take(p, first) + next == Take(p, first + second)
            && (forall i :: i in next ==> i !in held)
  {
    var p := Pending(byAge, rows, cutoff, {});
    var held := Ids(Take(p, first));
    BusyLeavePending(byAge, rows, cutoff, first);
    forall i | i in Pending(byAge, rows, cutoff, held) ensures i !in held {
      PendingMembers(byAge, rows, cutoff, held, i);
    }
  }

  // ------------------------------------------------------ poll as a run --

  ghost function DispatchSteps(w: Id, ids: seq<Id>, ok: set<Id>): seq<Step> {
    if ids == [] then [] else [Dispatch(w, ids[0] in ok)] + DispatchSteps(w, ids[1..], ok)
  }

  /** Nothing but the broker, what it accepted, and the sweeper's own claim. */
  ghost predicate OnlyDispatched(s: State, t: State, w: Id, sw: Sweep) {
    t == s.(broker := t.broker, accepted := t.accepted, sweeps := s.sweeps[w := sw])
  }

  ghost predicate Sends(rows: map<Id, Row>, i: Id, ok: set<Id>) {
    i in rows && IsQueueName(rows[i].queue) && i in ok
  }

  ghost function OnlyIf(there: bool, i: Id): set<Id> {
    if there then {i} else {}
  }

  lemma DispatchOne(s: State, w: Id, ok: set<Id>, sw: Sweep)
    requires w in s.sweeps && s.sweeps[w] == sw && sw.todo != [] && Dispatchable(s.rows, sw.todo)
    ensures var i := sw.todo[0];
            var s1 := Apply(s, Dispatch(w, i in ok));
            && OnlyDispatched(s, s1, w, Sweep(sw.claimed, sw.todo[1..], sw.marked + OnlyIf(Sends(s.rows, i, ok), i)))
            && s1.broker == if Sends(s.rows, i, ok)
                            then Accept(s.broker, s.rows[i].queue, s.rows[i].envelope.value) else s.broker
  {
    assert sw.marked + {} == sw.marked;
  }

  lemma OnlyTwice(s: State, s1: State, s2: State, w: Id, a: Sweep, b: Sweep)
    requires OnlyDispatched(s, s1, w, a) && OnlyDispatched(s1, s2, w, b)
    ensures OnlyDispatched(s, s2, w, b)
  {
    assert s.sweeps[w := a][w := b] == s.sweeps[w := b];
  }

  lemma {:induction false} DispatchAll(s: State, w: Id, ok: set<Id>, sw: Sweep)
    requires w in s.sweeps && s.sweeps[w] == sw && Dispatchable(s.rows, sw.todo)
    ensures var s' := Run(s, DispatchSteps(w, sw.todo, ok));
            && OnlyDispatched(s, s', w, Sweep(sw.claimed, [], sw.marked + Sendable(s.rows, sw.todo, ok)))
            && Sent(s.rows, s.broker, s'.broker, Sendable(s.rows, sw.todo, ok))
    decreases |sw.todo|
  {
    var todo := sw.todo;
    if todo == [] {
      assert sw.marked + Sendable(s.rows, [], ok) == sw.marked;
      assert s.sweeps[w := sw] == s.sweeps;
    } else {
      var i, s1 := todo[0], Apply(s, Dispatch(w, todo[0] in ok));
      var head, rest := OnlyIf(Sends(s.rows, i, ok), i), Sendable(s.rows, todo[1..], ok);
      var next := Sweep(sw.claimed, todo[1..], sw.marked + head);
      DispatchOne(s, w, ok, sw);
      DispatchAll(s1, w, ok, next);
      var s' := Run(s1, DispatchSteps(w, todo[1..], ok));
      DispatchFirst(s, w, todo, ok);
      SendableFirst(s.rows, todo, ok);
      assert next.marked + rest == sw.marked + (rest + head);
      OnlyTwice(s, s1, s', w, next, Sweep(sw.claimed, [], next.marked + rest));
      SentFirst(s.rows, s.broker, s1.broker, s'.broker, rest, i, Sends(s.rows, i, ok));
    }
  }

  lemma DispatchFirst(s: State, w: Id, todo: seq<Id>, ok: set<Id>)
    requires todo != [] && Enabled(s, Dispatch(w, todo[0] in ok))
    ensures Run(s, DispatchSteps(w, todo, ok))
            == Run(Apply(s, Dispatch(w, todo[0] in ok)), DispatchSteps(w, todo[1..], ok))
  {
    assert DispatchSteps(w, todo, ok)[1..] == DispatchSteps(w, todo[1..], ok);
  }

  lemma SentFirst(rows: map<Id, Row>, was: map<(Queue, Id), Envelope>, first: map<(Queue, Id), Envelope>,
                  now: map<(Queue, Id), Envelope>, rest: set<Id>, i: Id, sends: bool)
    requires i in rows && rows[i].envelope.Some? && rows[i].envelope.value.jobId == i
    requires first == if sends then Accept(was, rows[i].queue, rows[i].envelope.value) else was
    requires Sent(rows, first, now, rest)
    ensures Sent(rows, was, now, rest + OnlyIf(sends, i))
  {
    assert !sends ==> rest + {} == rest;
  }

  lemma SendableFirst(rows: map<Id, Row>, ids: seq<Id>, ok: set<Id>)
    requires ids != [] && ids[0] in rows
    ensures Sendable(rows, ids, ok)
            == Sendable(rows, ids[1..], ok) + OnlyIf(Sends(rows, ids[0], ok), ids[0])
  {
    assert ids == [ids[0]] + ids[1..];
  }

  /** The state before the claim, but for the broker and what it accepted. */
  ghost predicate OnlyBroker(s: State, t: State, rows: map<Id, Row>) {
    t == s.(rows := rows, broker := t.broker, accepted := t.accepted)
  }

  lemma EndOfPoll(s: State, s2: State, w: Id, sw: Sweep, now: int)
    requires w !in s.sweeps && sw.todo == [] && OnlyDispatched(s, s2, w, sw)
    ensures Enabled(s2, Commit(w, now)) && Enabled(s2, Abort(w))
    ensures OnlyBroker(s, Apply(s2, Commit(w, now)), MarkAll(s.rows, sw.marked, now))
            && Apply(s2, Commit(w, now)).broker == s2.broker
    ensures OnlyBroker(s, Apply(s2, Abort(w)), s.rows)
  {
    assert s.sweeps[w := sw] - {w} == s.sweeps;
  }

  /**
   * Uninterrupted, claim, loop and commit change the rows and the broker as `PollOnce` says, give the claim back and
   * touch nothing else. If the sweeper dies before the commit, no row is marked and all are free again.
   */
  lemma PollIsARun(s: State, w: Id, ids: seq<Id>, ok: set<Id>, cutoff: int, limit: nat, now: int)
    requires RowsOk(s.rows, s.accepted) && Enabled(s, Claim(w, ids, cutoff, limit))
    ensures var s1 := Apply(s, Claim(w, ids, cutoff, limit));
            var s2 := Run(s1, DispatchSteps(w, ids, ok));
            && Enabled(s2, Commit(w, now)) && Enabled(s2, Abort(w))
            && var s3 := Apply(s2, Commit(w, now));
               && OnlyBroker(s, s3, MarkAll(s.rows, Sendable(s.rows, ids, ok), now))
               && Sent(s.rows, s.broker, s3.broker, Sendable(s.rows, ids, ok))
               && OnlyBroker(s, Apply(s2, Abort(w)), s.rows)
  {
    var s1 := Apply(s, Claim(w, ids, cutoff, limit));
    AreDispatchable(s, ids, cutoff);
    var done := Sweep((set i | i in ids), [], Sendable(s.rows, ids, ok));
    ClaimThenDispatch(s, s1, w, ids, ok, done);
    EndOfPoll(s, Run(s1, DispatchSteps(w, ids, ok)), w, done, now);
  }

  lemma ClaimThenDispatch(s: State, s1: State, w: Id, ids: seq<Id>, ok: set<Id>, done: Sweep)
    requires s1 == s.(sweeps := s.sweeps[w := Sweep((set i | i in ids), ids, {})]) && Dispatchable(s.rows, ids)
    requires done == Sweep((set i | i in ids), [], Sendable(s.rows, ids, ok))
    ensures var s2 := Run(s1, DispatchSteps(w, ids, ok));
            OnlyDispatched(s, s2, w, done) && Sent(s.rows, s.broker, s2.broker, Sendable(s.rows, ids, ok))
  {
    var claim := s1.sweeps[w];
    DispatchAll(s1, w, ok, claim);
    assert {} + Sendable(s.rows, ids, ok) == Sendable(s.rows, ids, ok);
    assert s.sweeps[w := claim][w := done] == s.sweeps[w := done];
  }

  lemma AreDispatchable(s: State, ids: seq<Id>, cutoff: int)
    requires RowsOk(s.rows, s.accepted) && forall k :: 0 <= k < |ids| ==> Candidate(s, ids[k], cutoff)
    ensures Dispatchable(s.rows, ids)
  {
  }

  ghost function Marked(rows: map<Id, Row>, id: Id, row: Row, now: int): map<Id, Row> {
    rows[id := row.(queuedAt := Some(now))]
  }

  lemma MarkNew(rows: map<Id, Row>, id: Id, row: Row, now: int)
    ensures MarkAll(rows[id := row], {id}, now) == Marked(rows, id, row, now)
  {
  }

  /** A process that commits a job, enqueues it and marks it leaves the row marked, its envelope with the broker. */
  lemma DispatchIsARun(s: State, p: Id, id: Id, row: Row, now: int)
    requires Inv(s) && Enabled(s, Create(p, id, row)) && row.envelope.Some?
    ensures var s1 := Apply(s, Create(p, id, row));
            && Enabled(s1, Enqueue(p))
            && var s2 := Apply(s1, Enqueue(p));
               && Enabled(s2, Mark(p, now))
               && s2.broker == Accept(s.broker, row.queue, row.envelope.value)
               && OnlyBroker(s, Apply(s2, Mark(p, now)), Marked(s.rows, id, row, now))
               && Apply(s2, Mark(p, now)).broker == s2.broker
  {
    NotLocked(s, id);
    CommittedAndEnqueued(s, p, id, row);
    MarkNew(s.rows, id, row, now);
    assert s.dispatchers[p := Dispatcher(id, Enqueued)] - {p} == s.dispatchers;
  }

  lemma CommittedAndEnqueued(s: State, p: Id, id: Id, row: Row)
    requires Enabled(s, Create(p, id, row)) && row.envelope.Some?
    ensures var s1 := Apply(s, Create(p, id, row));
            && Enabled(s1, Enqueue(p))
            && var s2 := Apply(s1, Enqueue(p));
               s2 == s.(rows := s.rows[id := row], broker := Accept(s.broker, row.queue, row.envelope.value),
                        accepted := s.accepted + {id}, dispatchers := s.dispatchers[p := Dispatcher(id, Enqueued)])
  {
    var d: map<Id, Dispatcher> := s.dispatchers;
    assert d[p := Dispatcher(id, Committed)][p := Dispatcher(id, Enqueued)] == d[p := Dispatcher(id, Enqueued)];
  }

  lemma NotLocked(s: State, id: Id)
    requires Inv(s) && id !in s.rows
    ensures !Locked(s, id)
  {
  }
}
