/**
 * Dispatch, sweeping, cancellation and replay of processing jobs as one state machine.
 *
 * Durable state (rows, outbox events), the broker, the Redis flags and the processes in flight
 * change by small atomic steps; a process may die between any two of its steps. Transactions and
 * single statements are one step each. `FOR UPDATE SKIP LOCKED` is a claim of rows nobody else holds.
 */
module Jobs {
  import opened Base

  datatype Status = CREATED | QUEUED | RUNNING | RETRYING | BLOCKED
                  | SUCCEEDED | FAILED | CANCELLED | DEAD_LETTERED

  predicate Terminal(st: Status) {
    st in {SUCCEEDED, FAILED, CANCELLED, DEAD_LETTERED}
  }

  predicate Immediate(st: Status) {
    st in {CREATED, QUEUED, BLOCKED, RETRYING}
  }

  /** The five queues of the build, and any other name the column may hold. */
  datatype Queue = Parse | Ai | Gpu | Audio | Maintenance | Other(name: string)

  predicate IsQueueName(q: Queue) {
    !q.Other?
  }

  /** `payload` stands for everything in the envelope other than the two ids. */
  datatype Envelope = Envelope(jobId: Id, entityId: Option<Id>, payload: int)

  datatype Row = Row(
    tenant: Id, queue: Queue, parent: Option<Id>, createdAt: int, envelope: Option<Envelope>,
    status: Status, queuedAt: Option<int>, requested: bool, effectiveAt: Option<int>)

  /**
   * A job to be worked on, as inserted: nothing has happened to the job yet, and its envelope carries its own id. The
   * child jobs of the Python workers and the clean-up jobs of the maintenance controller record no envelope.
   */
  predicate Fresh(id: Id, r: Row) {
    && r.status == CREATED && r.queuedAt == None && !r.requested && r.effectiveAt == None
    && r.parent != Some(id)
    && (r.envelope.Some? ==> r.envelope.value.jobId == id)
  }

  /** The other row a service inserts: a coordinator, finished from the start and never dispatched. */
  predicate Coordinator(id: Id, r: Row) {
    && r.queue == Gpu && r.status == SUCCEEDED && r.queuedAt == None && !r.requested && r.effectiveAt == None
    && r.parent != Some(id) && r.envelope == None
  }

  /** A clean-up job, whose work the relay of the outbox enqueues under the id of an outbox row. */
  predicate CleanUp(r: Row) {
    r.queue == Maintenance && r.envelope == None
  }

  datatype Phase = Committed | Enqueued

  /** An API process between committing a row and marking it queued. */
  datatype Dispatcher = Dispatcher(job: Id, phase: Phase)

  /** A sweeper inside its transaction: claimed rows still to do, and rows whose mark is not yet committed. */
  datatype Sweep = Sweep(claimed: set<Id>, todo: seq<Id>, marked: set<Id>)

  datatype State = State(
    rows: map<Id, Row>,
    broker: map<(Queue, Id), Envelope>,
    flags: set<Id>,
    events: multiset<Id>,             // job.cancelled outbox rows, by job
    dispatchers: map<Id, Dispatcher>, // by process
    sweeps: map<Id, Sweep>,           // by sweeper
    // History, read by no step's guard except where a worker or a clean-up already holds the job.
    accepted: set<Id>,                // the broker took the id at some time
    removable: set<Id>,               // cancelled outright by the API
    delivered: set<Id>,               // some worker ran the gate on it
    admitted: set<Id>,                // some gate let it through
    overwritten: set<Id>,             // a processor wrote over CANCELLED
    relayed: set<Id>,                 // the outbox relay enqueued its work under another id
    handled: set<Id>)                 // that work is done, its inbox row written

  ghost const Empty := State(map[], map[], {}, multiset{}, map[], map[], {}, {}, {}, {}, {}, {}, {})

  ghost predicate Locked(s: State, i: Id) {
    exists w :: w in s.sweeps && i in s.sweeps[w].claimed
  }

  // ------------------------------------------------------------- dispatch --

  /** `QueueManager.enqueue`: the id in the envelope is the identity, an id already held is a no-op. */
  function Accept(broker: map<(Queue, Id), Envelope>, queue: Queue, e: Envelope): map<(Queue, Id), Envelope> {
    if (queue, e.jobId) in broker then broker else broker[(queue, e.jobId) := e]
  }

  /** The rows the sweeper's query may return. */
  ghost predicate Orphan(r: Row, cutoff: int) {
    r.status == CREATED && r.queuedAt == None && r.envelope.Some? && r.createdAt < cutoff
  }

  ghost predicate Candidate(s: State, i: Id, cutoff: int) {
    i in s.rows && !Locked(s, i) && Orphan(s.rows[i], cutoff)
  }

  ghost predicate Distinct(ids: seq<Id>) {
    forall j, k :: 0 <= j < k < |ids| ==> ids[j] != ids[k]
  }

  /** Oldest first, at most `limit`, and nothing older left behind. */
  ghost predicate IsBatch(s: State, ids: seq<Id>, cutoff: int, limit: nat) {
    && Distinct(ids) && |ids| <= limit
    && (forall k :: 0 <= k < |ids| ==> Candidate(s, ids[k], cutoff))
    && (forall j, k :: 0 <= j < k < |ids| ==> s.rows[ids[j]].createdAt <= s.rows[ids[k]].createdAt)
    && (forall c :: Candidate(s, c, cutoff) && c !in ids ==>
          |ids| == limit && forall k :: 0 <= k < |ids| ==> s.rows[ids[k]].createdAt <= s.rows[c].createdAt)
  }

  /** Sets `queued_at` on the rows of `ids`. */
  ghost function MarkAll(rows: map<Id, Row>, ids: set<Id>, now: int): map<Id, Row> {
    map i | i in rows :: if i in ids then rows[i].(queuedAt := Some(now)) else rows[i]
  }

  // --------------------------------------------------------- cancellation --

  /** `cancellationPatch`. */
  function Patch(r: Row, now: int): Row {
    var base := r.(requested := true);
    if Immediate(r.status) then base.(status := CANCELLED, effectiveAt := Some(now)) else base
  }

  /** The children a cancel cascades to: one level, not yet terminal. */
  ghost function Children(rows: map<Id, Row>, id: Id): set<Id> {
    set c | c in rows && rows[c].parent == Some(id) && !Terminal(rows[c].status)
  }

  ghost function Affected(rows: map<Id, Row>, id: Id): set<Id>
    requires id in rows
  {
    if Terminal(rows[id].status) then {} else Children(rows, id) + {id}
  }

  ghost function Outright(rows: map<Id, Row>, ids: set<Id>): set<Id>
    requires ids <= rows.Keys
  {
    set i | i in ids && Immediate(rows[i].status)
  }

  ghost function PatchAll(rows: map<Id, Row>, ids: set<Id>, now: int): map<Id, Row> {
    map i | i in rows :: if i in ids then Patch(rows[i], now) else rows[i]
  }

  /** The transaction of `cancelJob`, after its ownership check. */
  ghost function CancelTx(s: State, id: Id, now: int): State
    requires id in s.rows
  {
    var hit := Affected(s.rows, id);
    var dead := Outright(s.rows, hit);
    s.(rows := PatchAll(s.rows, hit, now),
       events := s.events + multiset(dead),
       removable := s.removable + dead)
  }

  /** `isCancellationRequested`, and `is_cancelled` in Python: the column is read only when Redis cannot be. */
  function Observed(redisUp: bool, flag: bool, durable: bool): bool {
    if redisUp then flag else durable
  }

  /** The queues the Python workers consume; `worker-cpu` consumes the other three. */
  predicate InPython(q: Queue) {
    q == Ai || q == Gpu
  }

  /** Whether the gate in front of a queue sees a request: the Python gate looks at the column of the row first. */
  predicate GateSees(q: Queue, redisUp: bool, flag: bool, durable: bool) {
    (InPython(q) && durable) || Observed(redisUp, flag, durable)
  }

  ghost predicate Halts(s: State, id: Id, redisUp: bool) {
    && id in s.rows
    && (s.rows[id].status == CANCELLED || GateSees(s.rows[id].queue, redisUp, id in s.flags, s.rows[id].requested))
  }

  /** What `haltIfCancelled` writes when it stops a job that is not CANCELLED yet. */
  function Stop(r: Row, now: int): Row {
    r.(status := CANCELLED, requested := true, effectiveAt := Some(now))
  }

  ghost function GateTx(s: State, id: Id, redisUp: bool, now: int): State
    requires id in s.rows
  {
    var r := s.rows[id];
    var seen := s.(delivered := s.delivered + {id});
    if !Halts(s, id, redisUp) then seen.(admitted := s.admitted + {id})
    else if r.status == CANCELLED then seen
    else seen.(rows := s.rows[id := Stop(r, now)], events := s.events + multiset{id})
  }

  /** A processor's write, whatever the row says. */
  ghost function WriteStatus(s: State, id: Id, st: Status): State
    requires id in s.rows
  {
    s.(rows := s.rows[id := s.rows[id].(status := st)],
       overwritten := if s.rows[id].status == CANCELLED then s.overwritten + {id} else s.overwritten)
  }

  // ---------------------------------------------------------------- steps --

  datatype Step =
    | Create(process: Id, id: Id, row: Row)          // commit a row; with an envelope, go on to dispatch it
    | Enqueue(process: Id)                           // the broker answered
    | Die(process: Id)                               // crash, or the enqueue threw
    | Mark(process: Id, now: int)                    // set queued_at
    | Claim(sweeper: Id, ids: seq<Id>, cutoff: int, limit: nat)
    | Dispatch(sweeper: Id, ok: bool)                // one row of the loop; !ok: the enqueue threw
    | Commit(sweeper: Id, now: int)
    | Abort(sweeper: Id)                             // the sweeper dies; its marks roll back
    | Cancel(id: Id, now: int)
    | Remove(id: Id)                                 // broker clean-up after a cancel
    | SetFlag(id: Id)
    | ExpireFlag(id: Id)
    | Gate(id: Id, redisUp: bool, now: int)          // a worker was handed the job
    | Work(id: Id, status: Status)                   // a processor writes a status, unconditionally
    | Forget(id: Id)                                 // the broker drops a job some worker has had
    | Send(id: Id, envelope: Envelope)               // a Python worker enqueues the child job it wrote
    | Relay(id: Id)                                  // the outbox relay enqueues a clean-up
    | WorkRelayed(id: Id)                            // its processor writes SUCCEEDED, no gate having known the job

  ghost predicate Enabled(s: State, t: Step) {
    match t
    case Create(p, id, r) => id !in s.rows && p !in s.dispatchers && (Fresh(id, r) || Coordinator(id, r))
    case Enqueue(p) => p in s.dispatchers && s.dispatchers[p].phase == Committed && s.dispatchers[p].job in s.rows
                       && s.rows[s.dispatchers[p].job].envelope.Some?
    case Die(p) => p in s.dispatchers
    case Mark(p, now) => p in s.dispatchers && s.dispatchers[p].phase == Enqueued && s.dispatchers[p].job in s.rows
                         && !Locked(s, s.dispatchers[p].job)
    case Claim(w, ids, cutoff, limit) => w !in s.sweeps && IsBatch(s, ids, cutoff, limit)
    case Dispatch(w, ok) => w in s.sweeps && s.sweeps[w].todo != [] && s.sweeps[w].todo[0] in s.rows
                            && s.rows[s.sweeps[w].todo[0]].envelope.Some?
    case Commit(w, now) => w in s.sweeps && s.sweeps[w].todo == []
    case Abort(w) => w in s.sweeps
    case Cancel(id, now) => id in s.rows && forall i :: i in Affected(s.rows, id) ==> !Locked(s, i)
    case Remove(id) => id in s.removable && id in s.rows
    case SetFlag(id) => id in s.rows && s.rows[id].requested
    case ExpireFlag(id) => true
    case Gate(id, up, now) => id in s.rows && (s.rows[id].queue, id) in s.broker && !Locked(s, id)
    case Work(id, st) => id in s.rows && id in s.admitted && st !in {CREATED, CANCELLED} && !Locked(s, id)
    case Forget(id) => id in s.rows && id in s.delivered
    case Send(id, e) => id in s.rows && s.rows[id].queue == Ai && s.rows[id].envelope == None && e.jobId == id
    case Relay(id) => id in s.rows && CleanUp(s.rows[id])
    case WorkRelayed(id) => id in s.rows && id in s.relayed && id !in s.handled && !Locked(s, id)
  }

  ghost function Apply(s: State, t: Step): State
    requires Enabled(s, t)
  {
    match t
    case Create(p, id, r) =>
      var s' := s.(rows := s.rows[id := r]);
      if r.envelope.Some? then s'.(dispatchers := s.dispatchers[p := Dispatcher(id, Committed)]) else s'
    case Enqueue(p) =>
      var i := s.dispatchers[p].job;
      s.(broker := Accept(s.broker, s.rows[i].queue, s.rows[i].envelope.value),
         accepted := s.accepted + {i},
         dispatchers := s.dispatchers[p := Dispatcher(i, Enqueued)])
    case Die(p) => s.(dispatchers := s.dispatchers - {p})
    case Mark(p, now) =>
      s.(rows := MarkAll(s.rows, {s.dispatchers[p].job}, now), dispatchers := s.dispatchers - {p})
    case Claim(w, ids, cutoff, limit) =>
      s.(sweeps := s.sweeps[w := Sweep((set i | i in ids), ids, {})])
    case Dispatch(w, ok) =>
      var sw := s.sweeps[w];
      var i := sw.todo[0];
      if ok && IsQueueName(s.rows[i].queue) then
        s.(broker := Accept(s.broker, s.rows[i].queue, s.rows[i].envelope.value),
           accepted := s.accepted + {i},
           sweeps := s.sweeps[w := Sweep(sw.claimed, sw.todo[1..], sw.marked + {i})])
      else
        s.(sweeps := s.sweeps[w := Sweep(sw.claimed, sw.todo[1..], sw.marked)])
    case Commit(w, now) => s.(rows := MarkAll(s.rows, s.sweeps[w].marked, now), sweeps := s.sweeps - {w})
    case Abort(w) => s.(sweeps := s.sweeps - {w})
    case Cancel(id, now) => CancelTx(s, id, now)
    case Remove(id) => s.(broker := s.broker - {(s.rows[id].queue, id)})
    case SetFlag(id) => s.(flags := s.flags + {id})
    case ExpireFlag(id) => s.(flags := s.flags - {id})
    case Gate(id, up, now) => GateTx(s, id, up, now)
    case Work(id, st) => WriteStatus(s, id, st)
    case Forget(id) => s.(broker := s.broker - {(s.rows[id].queue, id)})
    case Send(id, e) => s.(broker := Accept(s.broker, Ai, e), accepted := s.accepted + {id})
    case Relay(id) => s.(relayed := s.relayed + {id})
    case WorkRelayed(id) => WriteStatus(s, id, SUCCEEDED).(handled := s.handled + {id})
  }

  /** A disabled step waits, so it changes nothing. */
  ghost function Run(s: State, steps: seq<Step>): State
    decreases |steps|
  {
    if steps == [] then s
    else Run(if Enabled(s, steps[0]) then Apply(s, steps[0]) else s, steps[1..])
  }

  // ------------------------------------------------------------ invariant --
  // Each part reads only the components it speaks of, so a step leaves the other parts alone.

  type Rows = map<Id, Row>

  ghost predicate RowsOk(rows: Rows, accepted: set<Id>) {
    forall i :: i in rows ==>
      && rows[i].parent != Some(i)
      && (rows[i].envelope.Some? ==> rows[i].envelope.value.jobId == i)
      && (rows[i].queuedAt.Some? ==> i in accepted)
  }

  /** The broker holds an id at most once over all queues, with the envelope its row records, until a worker had it. */
  ghost predicate BrokerOk(rows: Rows, broker: map<(Queue, Id), Envelope>, accepted: set<Id>, gone: set<Id>) {
    && (forall q, i :: (q, i) in broker ==>
          && i in accepted && i in rows && rows[i].queue == q && broker[(q, i)].jobId == i
          && (rows[i].envelope.Some? ==> rows[i].envelope == Some(broker[(q, i)])))
    && (forall i :: i in accepted ==> i in rows)
    && (forall i :: i in accepted && i !in gone ==> (rows[i].queue, i) in broker)
  }

  ghost predicate DispatchersOk(rows: Rows, dispatchers: map<Id, Dispatcher>, accepted: set<Id>) {
    forall p :: p in dispatchers ==>
      && dispatchers[p].job in rows && rows[dispatchers[p].job].envelope.Some?
      && (dispatchers[p].phase == Enqueued ==> dispatchers[p].job in accepted)
  }

  ghost predicate Claimable(r: Row) {
    r.status == CREATED && r.queuedAt == None && r.envelope.Some?
  }

  ghost predicate SweepOk(rows: Rows, sw: Sweep, accepted: set<Id>) {
    && Distinct(sw.todo)
    && (forall i :: i in sw.todo ==> i in sw.claimed && i !in sw.marked)
    && sw.marked <= sw.claimed
    && sw.marked <= accepted
    && (forall i :: i in sw.claimed ==> i in rows && Claimable(rows[i]))
  }

  ghost predicate SweepsOk(rows: Rows, sweeps: map<Id, Sweep>, accepted: set<Id>) {
    && (forall w :: w in sweeps ==> SweepOk(rows, sweeps[w], accepted))
    && (forall v, w :: v in sweeps && w in sweeps && v != w ==> sweeps[v].claimed !! sweeps[w].claimed)
  }

  ghost predicate RemovableOk(rows: Rows, removable: set<Id>, overwritten: set<Id>) {
    forall i :: i in removable ==>
      i in rows && rows[i].status != CREATED && (rows[i].status == CANCELLED || i in overwritten)
  }

  ghost predicate FlagsOk(rows: Rows, flags: set<Id>) {
    forall i :: i in flags ==> i in rows && rows[i].requested
  }

  /** The cancellation columns and the outbox agree, for every job no processor wrote over. */
  ghost predicate CancelOk(rows: Rows, events: multiset<Id>, overwritten: set<Id>) {
    && (forall i :: i in events ==> i in rows)
    && (forall i :: i in rows && i !in overwritten ==>
          && (rows[i].status == CANCELLED <==> rows[i].effectiveAt.Some?)
          && (rows[i].status == CANCELLED ==> rows[i].requested)
          && events[i] == (if rows[i].status == CANCELLED then 1 else 0))
  }

  ghost predicate RelayOk(rows: Rows, relayed: set<Id>, handled: set<Id>) {
    handled <= relayed && forall i :: i in relayed ==> i in rows && CleanUp(rows[i])
  }

  ghost predicate TablesOk(s: State) {
    && RowsOk(s.rows, s.accepted)
    && BrokerOk(s.rows, s.broker, s.accepted, s.delivered + s.removable)
    && DispatchersOk(s.rows, s.dispatchers, s.accepted)
    && SweepsOk(s.rows, s.sweeps, s.accepted)
    && RemovableOk(s.rows, s.removable, s.overwritten)
    && FlagsOk(s.rows, s.flags)
    && CancelOk(s.rows, s.events, s.overwritten)
    && RelayOk(s.rows, s.relayed, s.handled)
  }

  ghost predicate HistoryOk(s: State) {
    s.admitted <= s.delivered <= s.accepted && s.overwritten <= s.admitted + s.handled
  }

  ghost predicate Inv(s: State) {
    TablesOk(s) && HistoryOk(s)
  }

  /** `rows'` has at least the rows of `rows`, with the columns no step ever changes. */
  ghost predicate Extends(rows: Rows, rows': Rows) {
    forall i :: i in rows ==>
      i in rows' && rows'[i].queue == rows[i].queue && rows'[i].envelope == rows[i].envelope
      && rows'[i].parent == rows[i].parent
  }

  lemma BrokerStable(rows: Rows, rows': Rows, broker: map<(Queue, Id), Envelope>, accepted: set<Id>,
                     gone: set<Id>, gone': set<Id>)
    requires BrokerOk(rows, broker, accepted, gone) && Extends(rows, rows') && gone <= gone'
    ensures BrokerOk(rows', broker, accepted, gone')
  {
  }

  lemma DispatchersStable(rows: Rows, rows': Rows, dispatchers: map<Id, Dispatcher>, accepted: set<Id>)
    requires DispatchersOk(rows, dispatchers, accepted) && Extends(rows, rows')
    ensures DispatchersOk(rows', dispatchers, accepted)
  {
  }

  /** Claimed rows are locked, so a writer outside the sweeps does not touch them. */
  lemma SweepsStable(rows: Rows, rows': Rows, sweeps: map<Id, Sweep>, accepted: set<Id>)
    requires SweepsOk(rows, sweeps, accepted) && rows.Keys <= rows'.Keys
    requires forall w, i :: w in sweeps && i in sweeps[w].claimed && i in rows ==> rows'[i] == rows[i]
    ensures SweepsOk(rows', sweeps, accepted)
  {
    forall w | w in sweeps ensures SweepOk(rows', sweeps[w], accepted) {
      assert SweepOk(rows, sweeps[w], accepted);
    }
  }

  lemma NewRowKeeps(s: State, id: Id, r: Row)
    requires Inv(s) && id !in s.rows && (Fresh(id, r) || Coordinator(id, r))
    ensures var rows' := s.rows[id := r];
            && RowsOk(rows', s.accepted)
            && RemovableOk(rows', s.removable, s.overwritten)
            && FlagsOk(rows', s.flags)
            && CancelOk(rows', s.events, s.overwritten)
  {
  }

  /** What a new row leaves alone. */
  lemma NewRowStable(s: State, id: Id, r: Row)
    requires Inv(s) && id !in s.rows
    ensures var rows' := s.rows[id := r];
            && BrokerOk(rows', s.broker, s.accepted, s.delivered + s.removable)
            && DispatchersOk(rows', s.dispatchers, s.accepted)
            && SweepsOk(rows', s.sweeps, s.accepted)
  {
    var rows' := s.rows[id := r];
    BrokerStable(s.rows, rows', s.broker, s.accepted, s.delivered + s.removable, s.delivered + s.removable);
    DispatchersStable(s.rows, rows', s.dispatchers, s.accepted);
    SweepsStable(s.rows, rows', s.sweeps, s.accepted);
  }

  lemma InsertKeepsInv(s: State, id: Id, r: Row)
    requires Inv(s) && id !in s.rows && (Fresh(id, r) || Coordinator(id, r))
    ensures Inv(s.(rows := s.rows[id := r]))
  {
    NewRowKeeps(s, id, r);
    NewRowStable(s, id, r);
  }

  lemma DispatcherKeepsInv(s: State, p: Id, id: Id)
    requires Inv(s) && id in s.rows && s.rows[id].envelope.Some?
    ensures Inv(s.(dispatchers := s.dispatchers[p := Dispatcher(id, Committed)]))
  {
  }

  lemma CreateKeepsInv(s: State, p: Id, id: Id, r: Row)
    requires Inv(s) && Enabled(s, Create(p, id, r))
    ensures Inv(Apply(s, Create(p, id, r)))
  {
    InsertKeepsInv(s, id, r);
    if r.envelope.Some? {
      DispatcherKeepsInv(s.(rows := s.rows[id := r]), p, id);
    }
  }

  lemma AcceptKeepsBroker(s: State, i: Id)
    requires Inv(s) && i in s.rows && s.rows[i].envelope.Some?
    ensures BrokerOk(s.rows, Accept(s.broker, s.rows[i].queue, s.rows[i].envelope.value),
                     s.accepted + {i}, s.delivered + s.removable)
  {
  }

  lemma EnqueueKeepsInv(s: State, p: Id)
    requires Inv(s) && Enabled(s, Enqueue(p))
    ensures Inv(Apply(s, Enqueue(p)))
  {
    AcceptKeepsBroker(s, s.dispatchers[p].job);
    assert SweepsOk(s.rows, s.sweeps, s.accepted + {s.dispatchers[p].job});
  }

  lemma MarkAllKeeps(s: State, ids: set<Id>, now: int)
    requires Inv(s) && ids <= s.accepted
    ensures var rows' := MarkAll(s.rows, ids, now);
            && RowsOk(rows', s.accepted)
            && BrokerOk(rows', s.broker, s.accepted, s.delivered + s.removable)
            && DispatchersOk(rows', s.dispatchers, s.accepted)
            && RemovableOk(rows', s.removable, s.overwritten)
            && FlagsOk(rows', s.flags)
            && CancelOk(rows', s.events, s.overwritten)
  {
    var rows' := MarkAll(s.rows, ids, now);
    BrokerStable(s.rows, rows', s.broker, s.accepted, s.delivered + s.removable, s.delivered + s.removable);
    DispatchersStable(s.rows, rows', s.dispatchers, s.accepted);
  }

  lemma MarkKeepsInv(s: State, p: Id, now: int)
    requires Inv(s) && Enabled(s, Mark(p, now))
    ensures Inv(Apply(s, Mark(p, now)))
  {
    var i := s.dispatchers[p].job;
    MarkAllKeeps(s, {i}, now);
    SweepsStable(s.rows, MarkAll(s.rows, {i}, now), s.sweeps, s.accepted);
  }

  lemma ClaimKeepsInv(s: State, w: Id, ids: seq<Id>, cutoff: int, limit: nat)
    requires Inv(s) && Enabled(s, Claim(w, ids, cutoff, limit))
    ensures Inv(Apply(s, Claim(w, ids, cutoff, limit)))
  {
    var sw := Sweep((set i | i in ids), ids, {});
    assert forall i :: i in sw.claimed ==> Candidate(s, i, cutoff);
    assert forall v :: v in s.sweeps ==> s.sweeps[v].claimed !! sw.claimed;
    assert SweepOk(s.rows, sw, s.accepted);
  }

  lemma SentKeepsInv(s: State, w: Id)
    requires Inv(s) && Enabled(s, Dispatch(w, true)) && IsQueueName(s.rows[s.sweeps[w].todo[0]].queue)
    ensures Inv(Apply(s, Dispatch(w, true)))
  {
    var sw := s.sweeps[w];
    var i := sw.todo[0];
    assert SweepOk(s.rows, sw, s.accepted);
    AcceptKeepsBroker(s, i);
    NextTodo(s.rows, sw, s.accepted);
    ReplaceSweep(s.rows, s.sweeps, s.accepted + {i}, w, Sweep(sw.claimed, sw.todo[1..], sw.marked + {i}));
  }

  lemma NotSentKeepsInv(s: State, w: Id, ok: bool)
    requires Inv(s) && Enabled(s, Dispatch(w, ok)) && !(ok && IsQueueName(s.rows[s.sweeps[w].todo[0]].queue))
    ensures Inv(Apply(s, Dispatch(w, ok)))
  {
    var sw := s.sweeps[w];
    assert SweepOk(s.rows, sw, s.accepted);
    NextTodo(s.rows, sw, s.accepted);
    ReplaceSweep(s.rows, s.sweeps, s.accepted, w, Sweep(sw.claimed, sw.todo[1..], sw.marked));
  }

  lemma DispatchKeepsInv(s: State, w: Id, ok: bool)
    requires Inv(s) && Enabled(s, Dispatch(w, ok))
    ensures Inv(Apply(s, Dispatch(w, ok)))
  {
    if ok && IsQueueName(s.rows[s.sweeps[w].todo[0]].queue) {
      SentKeepsInv(s, w);
    } else {
      NotSentKeepsInv(s, w, ok);
    }
  }

  lemma NextTodo(rows: Rows, sw: Sweep, accepted: set<Id>)
    requires SweepOk(rows, sw, accepted) && sw.todo != []
    ensures SweepOk(rows, Sweep(sw.claimed, sw.todo[1..], sw.marked), accepted)
    ensures SweepOk(rows, Sweep(sw.claimed, sw.todo[1..], sw.marked + {sw.todo[0]}), accepted + {sw.todo[0]})
  {
  }

  lemma ReplaceSweep(rows: Rows, sweeps: map<Id, Sweep>, accepted: set<Id>, w: Id, sw: Sweep)
    requires w in sweeps && sweeps[w].claimed == sw.claimed && SweepOk(rows, sw, accepted)
    requires exists a :: a <= accepted && SweepsOk(rows, sweeps, a)
    ensures SweepsOk(rows, sweeps[w := sw], accepted)
  {
    var a :| a <= accepted && SweepsOk(rows, sweeps, a);
    forall v | v in sweeps ensures v != w ==> SweepOk(rows, sweeps[v], accepted) {
      assert SweepOk(rows, sweeps[v], a);
    }
  }

  lemma CommitKeepsInv(s: State, w: Id, now: int)
    requires Inv(s) && Enabled(s, Commit(w, now))
    ensures Inv(Apply(s, Commit(w, now)))
  {
    assert SweepOk(s.rows, s.sweeps[w], s.accepted);
    MarkAllKeeps(s, s.sweeps[w].marked, now);
    SweepsStable(s.rows, MarkAll(s.rows, s.sweeps[w].marked, now), s.sweeps - {w}, s.accepted);
  }

  lemma PatchKeepsRows(s: State, hit: set<Id>, now: int)
    requires Inv(s) && hit <= s.rows.Keys
    ensures RowsOk(PatchAll(s.rows, hit, now), s.accepted)
  {
  }

  lemma PatchKeepsFlags(s: State, hit: set<Id>, now: int)
    requires Inv(s) && hit <= s.rows.Keys
    ensures var rows' := PatchAll(s.rows, hit, now);
            FlagsOk(rows', s.flags) && RelayOk(rows', s.relayed, s.handled)
  {
  }

  lemma PatchKeepsRemovable(s: State, hit: set<Id>, now: int)
    requires Inv(s) && hit <= s.rows.Keys
    ensures RemovableOk(PatchAll(s.rows, hit, now), s.removable + Outright(s.rows, hit), s.overwritten)
  {
  }

  lemma PatchKeepsEvents(s: State, hit: set<Id>, now: int)
    requires Inv(s) && hit <= s.rows.Keys && (forall i :: i in hit ==> !Terminal(s.rows[i].status))
    ensures CancelOk(PatchAll(s.rows, hit, now), s.events + multiset(Outright(s.rows, hit)), s.overwritten)
  {
  }

  lemma PatchKeepsInv(s: State, hit: set<Id>, now: int)
    requires Inv(s) && hit <= s.rows.Keys
    requires forall i :: i in hit ==> !Terminal(s.rows[i].status) && !Locked(s, i)
    ensures var dead := Outright(s.rows, hit);
            Inv(s.(rows := PatchAll(s.rows, hit, now), events := s.events + multiset(dead),
                   removable := s.removable + dead))
  {
    var dead := Outright(s.rows, hit);
    var rows' := PatchAll(s.rows, hit, now);
    PatchKeepsRows(s, hit, now);
    PatchKeepsFlags(s, hit, now);
    PatchKeepsRemovable(s, hit, now);
    PatchKeepsEvents(s, hit, now);
    BrokerStable(s.rows, rows', s.broker, s.accepted, s.delivered + s.removable, s.delivered + (s.removable + dead));
    DispatchersStable(s.rows, rows', s.dispatchers, s.accepted);
    assert forall w, i :: w in s.sweeps && i in s.sweeps[w].claimed ==> Locked(s, i);
    SweepsStable(s.rows, rows', s.sweeps, s.accepted);
  }

  lemma CancelKeepsInv(s: State, id: Id, now: int)
    requires Inv(s) && Enabled(s, Cancel(id, now))
    ensures Inv(Apply(s, Cancel(id, now)))
  {
    PatchKeepsInv(s, Affected(s.rows, id), now);
  }

  /** One row changes, in columns other than the fixed ones, while nobody holds its lock. */
  lemma UpdateKeeps(s: State, id: Id, r: Row, gone': set<Id>)
    requires Inv(s) && id in s.rows && !Locked(s, id) && s.delivered + s.removable <= gone'
    requires r.queue == s.rows[id].queue && r.envelope == s.rows[id].envelope && r.parent == s.rows[id].parent
    ensures var rows' := s.rows[id := r];
            && BrokerOk(rows', s.broker, s.accepted, gone')
            && DispatchersOk(rows', s.dispatchers, s.accepted)
            && SweepsOk(rows', s.sweeps, s.accepted)
  {
    var rows' := s.rows[id := r];
    BrokerStable(s.rows, rows', s.broker, s.accepted, s.delivered + s.removable, gone');
    DispatchersStable(s.rows, rows', s.dispatchers, s.accepted);
    assert forall w, i :: w in s.sweeps && i in s.sweeps[w].claimed ==> Locked(s, i);
    SweepsStable(s.rows, rows', s.sweeps, s.accepted);
  }

  lemma StopKeeps(s: State, id: Id, now: int)
    requires Inv(s) && id in s.rows && s.rows[id].status != CANCELLED
    ensures var rows' := s.rows[id := Stop(s.rows[id], now)];
            && RowsOk(rows', s.accepted)
            && RemovableOk(rows', s.removable, s.overwritten)
            && FlagsOk(rows', s.flags)
            && CancelOk(rows', s.events + multiset{id}, s.overwritten)
  {
  }

  lemma GateKeepsInv(s: State, id: Id, up: bool, now: int)
    requires Inv(s) && Enabled(s, Gate(id, up, now))
    ensures Inv(Apply(s, Gate(id, up, now)))
  {
    var gone := s.delivered + s.removable;
    var gone' := s.delivered + {id} + s.removable;
    BrokerStable(s.rows, s.rows, s.broker, s.accepted, gone, gone');
    if Halts(s, id, up) && s.rows[id].status != CANCELLED {
      UpdateKeeps(s, id, Stop(s.rows[id], now), gone');
      StopKeeps(s, id, now);
    }
  }

  lemma StatusKeeps(s: State, id: Id, st: Status)
    requires Inv(s) && id in s.rows && st !in {CREATED, CANCELLED}
    ensures var rows' := s.rows[id := s.rows[id].(status := st)];
            var over := if s.rows[id].status == CANCELLED then s.overwritten + {id} else s.overwritten;
            && RowsOk(rows', s.accepted)
            && RemovableOk(rows', s.removable, over)
            && FlagsOk(rows', s.flags)
            && CancelOk(rows', s.events, over)
  {
  }

  lemma WriteKeeps(s: State, id: Id, st: Status)
    requires Inv(s) && id in s.rows && st !in {CREATED, CANCELLED} && !Locked(s, id)
    ensures TablesOk(WriteStatus(s, id, st))
  {
    UpdateKeeps(s, id, s.rows[id].(status := st), s.delivered + s.removable);
    StatusKeeps(s, id, st);
  }

  lemma WorkKeepsInv(s: State, id: Id, st: Status)
    requires Inv(s) && Enabled(s, Work(id, st))
    ensures Inv(Apply(s, Work(id, st)))
  {
    WriteKeeps(s, id, st);
  }

  lemma SendKeepsInv(s: State, id: Id, e: Envelope)
    requires Inv(s) && Enabled(s, Send(id, e))
    ensures Inv(Apply(s, Send(id, e)))
  {
    SendKeepsBroker(s, id, e);
    assert SweepsOk(s.rows, s.sweeps, s.accepted + {id});
  }

  lemma SendKeepsBroker(s: State, id: Id, e: Envelope)
    requires Inv(s) && Enabled(s, Send(id, e))
    ensures BrokerOk(s.rows, Accept(s.broker, Ai, e), s.accepted + {id}, s.delivered + s.removable)
  {
  }

  lemma HandledKeeps(s: State, id: Id)
    requires TablesOk(s) && id in s.relayed
    ensures TablesOk(s.(handled := s.handled + {id}))
  {
  }

  lemma WorkRelayedKeepsInv(s: State, id: Id)
    requires Inv(s) && Enabled(s, WorkRelayed(id))
    ensures Inv(Apply(s, WorkRelayed(id)))
  {
    WriteKeeps(s, id, SUCCEEDED);
    HandledKeeps(WriteStatus(s, id, SUCCEEDED), id);
  }

  /** Steps that only take something away. */
  lemma LossKeepsInv(s: State, t: Step)
    requires Inv(s) && Enabled(s, t) && (t.Die? || t.Abort? || t.Remove? || t.Forget?)
    ensures Inv(Apply(s, t))
  {
  }

  lemma FlagKeepsInv(s: State, t: Step)
    requires Inv(s) && Enabled(s, t) && (t.SetFlag? || t.ExpireFlag? || t.Relay?)
    ensures Inv(Apply(s, t))
  {
  }

  predicate OfDispatch(t: Step) {
    t.Create? || t.Enqueue? || t.Mark? || t.Claim? || t.Dispatch? || t.Commit? || t.Send?
  }

  lemma DispatchStepKeepsInv(s: State, t: Step)
    requires Inv(s) && Enabled(s, t) && OfDispatch(t)
    ensures Inv(Apply(s, t))
  {
    match t
    case Create(p, id, r) => CreateKeepsInv(s, p, id, r);
    case Enqueue(p) => EnqueueKeepsInv(s, p);
    case Mark(p, now) => MarkKeepsInv(s, p, now);
    case Claim(w, ids, cutoff, limit) => ClaimKeepsInv(s, w, ids, cutoff, limit);
    case Dispatch(w, ok) => DispatchKeepsInv(s, w, ok);
    case Commit(w, now) => CommitKeepsInv(s, w, now);
    case Send(id, e) => SendKeepsInv(s, id, e);
  }

  predicate OfWorkers(t: Step) {
    t.Gate? || t.Work? || t.WorkRelayed? || t.Cancel?
  }

  lemma WorkerStepKeepsInv(s: State, t: Step)
    requires Inv(s) && Enabled(s, t) && OfWorkers(t)
    ensures Inv(Apply(s, t))
  {
    match t
    case Cancel(id, now) => CancelKeepsInv(s, id, now);
    case Gate(id, up, now) => GateKeepsInv(s, id, up, now);
    case Work(id, st) => WorkKeepsInv(s, id, st);
    case WorkRelayed(id) => WorkRelayedKeepsInv(s, id);
  }

  lemma StepKeepsInv(s: State, t: Step)
    requires Inv(s) && Enabled(s, t)
    ensures Inv(Apply(s, t))
  {
    if OfDispatch(t) {
      DispatchStepKeepsInv(s, t);
    } else if OfWorkers(t) {
      WorkerStepKeepsInv(s, t);
    } else if t.SetFlag? || t.ExpireFlag? || t.Relay? {
      FlagKeepsInv(s, t);
    } else {
      LossKeepsInv(s, t);
    }
  }
}
