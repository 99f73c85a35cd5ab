/** The service methods that cancel, halt and replay jobs, on the shared stores. */
module JobsService {
  import opened Base
  import opened Jobs
  import opened Sweeper

  datatype JobError = NotFound | NotReplayable | NotDispatched(error: EnqueueError)

  /** `requireOwnedJob`, or `requireAnyJob` for a platform admin. */
  ghost predicate Visible(rows: map<Id, Row>, tenant: Id, crossTenant: bool, id: Id) {
    id in rows && (crossTenant || rows[id].tenant == tenant)
  }

  /** One child, or the job itself, inside the transaction of `cancelJob`. */
  method PatchOne(db: Stores, id: Id, now: int) returns (immediate: bool)
    requires id in db.rows
    modifies db`rows
    ensures db.rows == PatchAll(old(db.rows), {id}, now)
    ensures immediate == Immediate(old(db.rows)[id].status)
  {
    var row := db.rows[id];
    immediate := Immediate(row.status);
    var base := row.(requested := true);
    db.rows := db.rows[id := if immediate then base.(status := CANCELLED, effectiveAt := Some(now)) else base];
  }

  ghost predicate Enumerates(ids: seq<Id>, all: set<Id>) {
    && Distinct(ids)
    && (forall k :: 0 <= k < |ids| ==> ids[k] in all)
    && (forall i :: i in all ==> exists k :: 0 <= k < |ids| && ids[k] == i)
  }

  /** What the loop over the children has done after the rows of `done`. */
  ghost predicate Cascaded(was: map<Id, Row>, rows: map<Id, Row>, done: set<Id>, now: int,
                           cancelled: seq<Id>, requested: seq<Id>) {
    && done <= was.Keys
    && rows == PatchAll(was, done, now)
    && Enumerates(cancelled, Outright(was, done))
    && Enumerates(requested, done - Outright(was, done))
  }

  lemma EnumeratesMore(ids: seq<Id>, all: set<Id>, i: Id)
    requires Enumerates(ids, all) && i !in all
    ensures Enumerates(ids + [i], all + {i})
  {
    forall j | j in all + {i} ensures exists k :: 0 <= k < |ids + [i]| && (ids + [i])[k] == j {
      if j in all {
        var k :| 0 <= k < |ids| && ids[k] == j;
        assert (ids + [i])[k] == j;
      } else {
        assert (ids + [i])[|ids|] == j;
      }
    }
  }

  lemma CascadedMore(was: map<Id, Row>, done: set<Id>, now: int, cancelled: seq<Id>, requested: seq<Id>, i: Id)
    requires Cascaded(was, PatchAll(was, done, now), done, now, cancelled, requested) && i in was && i !in done
    ensures PatchAll(PatchAll(was, done, now), {i}, now) == PatchAll(was, done + {i}, now)
    ensures if Immediate(was[i].status)
            then Cascaded(was, PatchAll(was, done + {i}, now), done + {i}, now, cancelled + [i], requested)
            else Cascaded(was, PatchAll(was, done + {i}, now), done + {i}, now, cancelled, requested + [i])
  {
    if Immediate(was[i].status) {
      EnumeratesMore(cancelled, Outright(was, done), i);
      assert Outright(was, done + {i}) == Outright(was, done) + {i};
      assert done + {i} - Outright(was, done + {i}) == done - Outright(was, done);
    } else {
      EnumeratesMore(requested, done - Outright(was, done), i);
      assert Outright(was, done + {i}) == Outright(was, done);
      assert done + {i} - Outright(was, done) == (done - Outright(was, done)) + {i};
    }
  }

  method CancelOne(db: Stores, i: Id, now: int, ghost was: map<Id, Row>, ghost done: set<Id>,
                   cancelled: seq<Id>, requested: seq<Id>) returns (cancelled': seq<Id>, requested': seq<Id>)
    requires i in was && i !in done && Cascaded(was, db.rows, done, now, cancelled, requested)
    modifies db`rows
    ensures Cascaded(was, db.rows, done + {i}, now, cancelled', requested')
  {
    CascadedMore(was, done, now, cancelled, requested, i);
    var immediate := PatchOne(db, i, now);
    cancelled', requested' := cancelled, requested;
    if immediate {
      cancelled' := cancelled + [i];
    } else {
      requested' := requested + [i];
    }
  }

  /** The `job.cancelled` outbox rows, one per job stopped outright. */
  method EmitCancelled(db: Stores, ids: seq<Id>, ghost all: set<Id>)
    requires Enumerates(ids, all)
    modifies db`events
    ensures db.events == old(db.events) + multiset(all)
  {
    var k := 0;
    ghost var done: set<Id> := {};
    while k < |ids|
      invariant 0 <= k <= |ids|
      invariant db.events == old(db.events) + multiset(done)
      invariant forall i :: i in done <==> exists j :: 0 <= j < k && ids[j] == i
    {
      db.events := db.events + multiset{ids[k]};
      done := done + {ids[k]};
      k := k + 1;
    }
    assert done == all;
  }

  /**
   * The transaction of `cancelJob`, `children` being what its query returned, in any order.
   * A finished job is a no-op, not an error.
   */
  method CancelJob(db: Stores, tenant: Id, crossTenant: bool, id: Id, children: seq<Id>, now: int)
    returns (r: Result<Row, JobError>, cancelled: seq<Id>, requested: seq<Id>)
    requires id in db.rows ==> db.rows[id].parent != Some(id) && Enumerates(children, Children(db.rows, id))
    modifies db`rows, db`events
    ensures r.Ok? <==> Visible(old(db.rows), tenant, crossTenant, id)
    ensures r.Err? ==> r.error == NotFound && db.rows == old(db.rows) && db.events == old(db.events)
    ensures r.Ok? ==>
      var hit := Affected(old(db.rows), id);
      && id in db.rows && r.value == db.rows[id]
      && db.rows == PatchAll(old(db.rows), hit, now)
      && db.events == old(db.events) + multiset(Outright(old(db.rows), hit))
      && Enumerates(cancelled, Outright(old(db.rows), hit))
      && Enumerates(requested, hit - Outright(old(db.rows), hit))
  {
    cancelled, requested := [], [];
    if id !in db.rows || (!crossTenant && db.rows[id].tenant != tenant) {
      return Err(NotFound), [], [];
    }
    ghost var was := db.rows;
    ghost var done: set<Id> := {};
    assert PatchAll(was, {}, now) == was && Outright(was, {}) == {};
    if Terminal(db.rows[id].status) {
      return Ok(db.rows[id]), [], [];
    }
    var k := 0;
    while k < |children|
      invariant 0 <= k <= |children|
      invariant Cascaded(was, db.rows, done, now, cancelled, requested)
      invariant db.events == old(db.events) && done <= Children(was, id)
      invariant forall i :: i in done <==> exists j :: 0 <= j < k && children[j] == i
    {
      cancelled, requested := CancelOne(db, children[k], now, was, done, cancelled, requested);
      done := done + {children[k]};
      k := k + 1;
    }
    assert done == Children(was, id);
    cancelled, requested := CancelOne(db, id, now, was, done, cancelled, requested);
    done := done + {id};
    assert done == Affected(was, id);
    EmitCancelled(db, cancelled, Outright(was, done));
    return Ok(db.rows[id]), cancelled, requested;
  }

  /** The clean-up after the commit. Each call may fail, and failing changes nothing durable. */
  method CleanUp(db: Stores, queues: map<Id, Queue>, cancelled: seq<Id>, requested: seq<Id>, removeOk: set<Id>,
                 flagOk: set<Id>)
    requires forall k :: 0 <= k < |cancelled| ==> cancelled[k] in queues
    modifies db`broker, db`flags
    ensures db.flags == old(db.flags) + (set i | i in cancelled + requested && i in flagOk)
    ensures db.broker == old(db.broker)
              - (set i | i in cancelled && i in removeOk && i in queues && IsQueueName(queues[i]) :: (queues[i], i))
  {
    var k := 0;
    while k < |cancelled|
      invariant 0 <= k <= |cancelled|
      invariant db.flags == old(db.flags) + (set i | i in cancelled[..k] && i in flagOk)
      invariant db.broker == old(db.broker)
                  - (set i | i in cancelled[..k] && i in removeOk && i in queues && IsQueueName(queues[i]) ::
                     (queues[i], i))
    {
      var i := cancelled[k];
      assert cancelled[..k + 1] == cancelled[..k] + [i];
      if IsQueueName(queues[i]) && i in removeOk {
        db.broker := db.broker - {(queues[i], i)};
      }
      if i in flagOk {
        db.flags := db.flags + {i};
      }
      k := k + 1;
    }
    assert cancelled[..k] == cancelled;
    ghost var broker := db.broker;
    k := 0;
    while k < |requested|
      invariant 0 <= k <= |requested|
      invariant db.broker == broker
      invariant db.flags == old(db.flags) + (set i | i in cancelled + requested[..k] && i in flagOk)
    {
      assert requested[..k + 1] == requested[..k] + [requested[k]];
      if requested[k] in flagOk {
        db.flags := db.flags + {requested[k]};
      }
      k := k + 1;
    }
    assert requested[..k] == requested;
  }

  /** What stopping a job writes, in one transaction: the row and its `job.cancelled` event. */
  method StopJob(db: Stores, id: Id, now: int)
    requires id in db.rows
    modifies db`rows, db`events
    ensures db.rows == old(db.rows)[id := Stop(old(db.rows)[id], now)] && db.events == old(db.events) + multiset{id}
  {
    db.rows := db.rows[id := db.rows[id].(status := CANCELLED, requested := true, effectiveAt := Some(now))];
    db.events := db.events + multiset{id};
  }

  /** `haltIfCancelled`, in front of the parse, audio and maintenance queues: true means the work must not run. */
  method HaltIfCancelled(db: Stores, id: Id, redisUp: bool, now: int) returns (halt: bool)
    modifies db`rows, db`events
    ensures halt <==> id in old(db.rows)
                      && (old(db.rows)[id].status == CANCELLED
                          || Observed(redisUp, id in db.flags, old(db.rows)[id].requested))
    ensures halt && old(db.rows)[id].status != CANCELLED ==>
      db.rows == old(db.rows)[id := Stop(old(db.rows)[id], now)] && db.events == old(db.events) + multiset{id}
    ensures !halt || old(db.rows)[id].status == CANCELLED ==> db.rows == old(db.rows) && db.events == old(db.events)
  {
    if id !in db.rows {
      return false;
    }
    var job := db.rows[id];
    if job.status == CANCELLED {
      return true;
    }
    var cancelled := job.requested;
    if redisUp {
      cancelled := id in db.flags;
    }
    if !cancelled {
      return false;
    }
    StopJob(db, id, now);
    return true;
  }

  /** `halt_if_cancelled`, in front of the ai and gpu queues: the column first, then Redis or the column again. */
  method HaltIfCancelledInPython(db: Stores, id: Id, redisUp: bool, now: int) returns (halt: bool)
    modifies db`rows, db`events
    ensures halt <==> id in old(db.rows)
                      && (old(db.rows)[id].status == CANCELLED
                          || old(db.rows)[id].requested
                          || Observed(redisUp, id in db.flags, old(db.rows)[id].requested))
    ensures halt && old(db.rows)[id].status != CANCELLED ==>
      db.rows == old(db.rows)[id := Stop(old(db.rows)[id], now)] && db.events == old(db.events) + multiset{id}
    ensures !halt || old(db.rows)[id].status == CANCELLED ==> db.rows == old(db.rows) && db.events == old(db.events)
  {
    if id !in db.rows {
      return false;
    }
    var row := db.rows[id];
    if row.status == CANCELLED {
      return true;
    }
    var cancelled := row.requested;
    if !cancelled {
      cancelled := if redisUp then id in db.flags else db.rows[id].requested;
    }
    if !cancelled {
      return false;
    }
    StopJob(db, id, now);
    return true;
  }

  /** Only a FAILED or DEAD_LETTERED job with an envelope and a queue that exists is replayed. */
  predicate Replayable(rows: map<Id, Row>, id: Id) {
    id in rows && rows[id].status in {DEAD_LETTERED, FAILED} && rows[id].envelope.Some? && IsQueueName(rows[id].queue)
  }

  /**
   * `replayJob`: a new row with the recorded envelope under a fresh job id. The original is untouched. Everything in
   * the envelope other than `job_id` is copied, so `entity_id` still names the original's entity. When the enqueue
   * throws, so does the call, and the row stays behind for the sweeper.
   */
  method ReplayJob(db: Stores, id: Id, newId: Id, sizeBytes: nat, brokerUp: bool, now: int)
    returns (r: Result<Row, JobError>)
    requires newId !in db.rows
    modifies db`rows, db`broker
    ensures r.Ok? <==> Replayable(old(db.rows), id) && sizeBytes <= QUEUE_PAYLOAD_CEILING_BYTES && brokerUp
    ensures r.Err? ==> r.error == if id !in old(db.rows) then NotFound
                                  else if !Replayable(old(db.rows), id) then NotReplayable
                                  else NotDispatched(if brokerUp || sizeBytes > QUEUE_PAYLOAD_CEILING_BYTES
                                                     then PayloadTooLarge else BrokerDown)
    ensures !Replayable(old(db.rows), id) ==> db.rows == old(db.rows)
    ensures r.Err? ==> db.broker == old(db.broker)
    ensures Replayable(old(db.rows), id) ==>
      var was := old(db.rows)[id];
      var envelope := was.envelope.value.(jobId := newId);
      var queuedAt := if r.Ok? then Some(now) else None;
      db.rows == old(db.rows)[newId := Row(was.tenant, was.queue, None, now, Some(envelope), CREATED, queuedAt, false,
                                           None)]
    ensures r.Ok? ==>
      var was := old(db.rows)[id];
      && r.value == db.rows[newId] && r.value.queuedAt == Some(now) && r.value.createdAt == now
      && (was.queue, newId) in db.broker
      && ((was.queue, newId) !in old(db.broker) ==>
            db.broker == old(db.broker)[(was.queue, newId) := was.envelope.value.(jobId := newId)])
      && ((was.queue, newId) in old(db.broker) ==> db.broker == old(db.broker))
  {
    if id !in db.rows {
      return Err(NotFound);
    }
    var original := db.rows[id];
    if original.status != DEAD_LETTERED && original.status != FAILED {
      return Err(NotReplayable);
    }
    if original.envelope == None || !IsQueueName(original.queue) {
      return Err(NotReplayable);
    }
    var envelope := original.envelope.value.(jobId := newId);
    var created := Row(original.tenant, original.queue, None, now, Some(envelope), CREATED, None, false, None);
    db.rows := db.rows[newId := created];
    ghost var was := db.rows;
    var e := EnqueueProcessingJob(db, newId, original.queue, envelope, sizeBytes, brokerUp, now);
    if e.Err? {
      return Err(NotDispatched(e.error));
    }
    assert db.rows == was[newId := created.(queuedAt := Some(now))];
    return Ok(db.rows[newId]);
  }
}
