/**
 * Outbox relay and inbox: at-least-once publication, made exactly-once in effect.
 *
 * Publishers claim disjoint batches of PENDING rows, publish row by row inside one transaction each, and
 * may die at any point, which rolls back every row they wrote but takes no published message back.
 */
module Outbox {
  import opened Base

  /** `rank` is the row's place under ORDER BY aggregate_type, aggregate_id, created_at. */
  datatype Row = Row(eventId: Id, rank: int, published: bool, attempts: nat, failed: bool)

  /** How one call of `publish` ends; it may throw although the message went out. */
  datatype Outcome = Sent | Refused | SentButThrew

  /** A publisher's transaction: rows it locked, rows still to publish, rows it has written. */
  datatype Tx = Tx(claimed: set<Id>, todo: seq<Id>, wrote: map<Id, Row>)

  type Rows = map<Id, Row>
  type Txs = map<Id, Tx>

  datatype State = State(
    rows: Rows,
    txs: Txs,                     // by publisher
    messages: multiset<Id>,       // every message that went out, by event id
    extra: multiset<Id>,          // those whose row was not marked PUBLISHED for it
    inbox: set<(Id, Id)>,         // (consumer, event)
    effects: multiset<(Id, Id)>)  // committed handler effects

  ghost const Empty := State(map[], map[], multiset{}, multiset{}, {}, multiset{})

  ghost predicate Distinct(ids: seq<Id>) {
    forall j, k :: 0 <= j < k < |ids| ==> ids[j] != ids[k]
  }

  ghost predicate Locked(txs: Txs, i: Id) {
    exists w :: w in txs && i in txs[w].claimed
  }

  ghost predicate Candidate(s: State, i: Id) {
    i in s.rows && !s.rows[i].published && !Locked(s.txs, i)
  }

  ghost predicate IsBatch(s: State, ids: seq<Id>, limit: nat) {
    && Distinct(ids) && |ids| <= limit
    && (forall k :: 0 <= k < |ids| ==> Candidate(s, ids[k]))
    && (forall j, k :: 0 <= j < k < |ids| ==> s.rows[ids[j]].rank <= s.rows[ids[k]].rank)
    && (forall c :: Candidate(s, c) && c !in ids ==>
          |ids| == limit && forall k :: 0 <= k < |ids| ==> s.rows[ids[k]].rank <= s.rows[c].rank)
  }

  function Settle(r: Row, o: Outcome): Row {
    if o == Sent then r.(published := true, attempts := r.attempts + 1)
    else r.(attempts := r.attempts + 1, failed := true)
  }

  datatype Handled = Handled(inbox: set<(Id, Id)>, effects: multiset<(Id, Id)>)

  /** One delivery: nothing for a pair already handled or a handler that throws, else inbox row and effect together. */
  ghost function Handle(inbox: set<(Id, Id)>, effects: multiset<(Id, Id)>, c: Id, e: Id, throws: bool): Handled {
    if (c, e) in inbox || throws then Handled(inbox, effects)
    else Handled(inbox + {(c, e)}, effects + multiset{(c, e)})
  }

  datatype Step =
    | Write(id: Id, row: Row)                       // writeOutboxMessage, inside the domain transaction
    | Claim(publisher: Id, ids: seq<Id>, limit: nat)
    | Publish(publisher: Id, outcome: Outcome)      // one row of the loop
    | Commit(publisher: Id)
    | Abort(publisher: Id)
    | Deliver(consumer: Id, event: Id, throws: bool)

  ghost predicate KnownEvent(rows: Rows, e: Id) {
    exists i :: i in rows && rows[i].eventId == e
  }

  ghost predicate Enabled(s: State, t: Step) {
    match t
    case Write(id, r) => id !in s.rows && !KnownEvent(s.rows, r.eventId) && !r.published && r.attempts == 0 && !r.failed
    case Claim(w, ids, limit) => w !in s.txs && IsBatch(s, ids, limit)
    case Publish(w, o) => w in s.txs && s.txs[w].todo != [] && s.txs[w].todo[0] in s.rows
    case Commit(w) => w in s.txs && s.txs[w].todo == []
    case Abort(w) => w in s.txs
    case Deliver(c, e, throws) => e in s.messages
  }

  /** The messages a transaction sent for rows it would have marked. */
  ghost function Unmarked(wrote: map<Id, Row>): multiset<Id> {
    multiset(set i | i in wrote && wrote[i].published :: wrote[i].eventId)
  }

  ghost function Advance(tx: Tx, r: Row): Tx
    requires tx.todo != []
  {
    Tx(tx.claimed, tx.todo[1..], tx.wrote[tx.todo[0] := r])
  }

  ghost function Apply(s: State, t: Step): State
    requires Enabled(s, t)
  {
    match t
    case Write(id, r) => s.(rows := s.rows[id := r])
    case Claim(w, ids, limit) => s.(txs := s.txs[w := Tx((set i | i in ids), ids, map[])])
    case Publish(w, o) =>
      var r := s.rows[s.txs[w].todo[0]];
      var s' := s.(txs := s.txs[w := Advance(s.txs[w], Settle(r, o))]);
      if o == Refused then s'
      else if o == Sent then s'.(messages := s.messages + multiset{r.eventId})
      else s'.(messages := s.messages + multiset{r.eventId}, extra := s.extra + multiset{r.eventId})
    case Commit(w) => s.(rows := s.rows + s.txs[w].wrote, txs := s.txs - {w})
    case Abort(w) => s.(txs := s.txs - {w}, extra := s.extra + Unmarked(s.txs[w].wrote))
    case Deliver(c, e, throws) =>
      var d := Handle(s.inbox, s.effects, c, e, throws);
      s.(inbox := d.inbox, effects := d.effects)
  }

  ghost function Run(s: State, steps: seq<Step>): State
    decreases |steps|
  {
    if steps == [] then s
    else Run(if Enabled(s, steps[0]) then Apply(s, steps[0]) else s, steps[1..])
  }

  // ------------------------------------------------------------ invariant --

  ghost predicate EventsUnique(rows: Rows) {
    forall i, j :: i in rows && j in rows && rows[i].eventId == rows[j].eventId ==> i == j
  }

  ghost predicate TxOk(rows: Rows, tx: Tx) {
    && Distinct(tx.todo)
    && (forall k :: 0 <= k < |tx.todo| ==> tx.todo[k] in tx.claimed && tx.todo[k] !in tx.wrote)
    && (forall i :: i in tx.wrote ==> i in tx.claimed)
    && (forall i :: i in tx.claimed ==> i in rows && !rows[i].published)
    && (forall i :: i in tx.wrote ==> i in rows && tx.wrote[i].eventId == rows[i].eventId)
  }

  ghost predicate TxsOk(rows: Rows, txs: Txs) {
    && (forall w :: w in txs ==> TxOk(rows, txs[w]))
    && (forall v, w :: v in txs && w in txs && v != w ==> txs[v].claimed !! txs[w].claimed)
  }

  /** Some publisher sent the row's message and has not committed yet. */
  ghost predicate InFlight(txs: Txs, i: Id) {
    exists w :: w in txs && i in txs[w].wrote && txs[w].wrote[i].published
  }

  ghost function Marks(rows: Rows, txs: Txs, i: Id): nat
    requires i in rows
  {
    if rows[i].published || InFlight(txs, i) then 1 else 0
  }

  /** Every message is accounted for: one per marked row, and the extra ones. */
  ghost predicate Counted(rows: Rows, txs: Txs, messages: multiset<Id>, extra: multiset<Id>) {
    && (forall i :: i in rows ==> messages[rows[i].eventId] == extra[rows[i].eventId] + Marks(rows, txs, i))
    && (forall e :: e in messages || e in extra ==> KnownEvent(rows, e))
  }

  ghost predicate InboxOk(messages: multiset<Id>, inbox: set<(Id, Id)>, effects: multiset<(Id, Id)>) {
    && (forall p :: effects[p] == if p in inbox then 1 else 0)
    && (forall c, e :: (c, e) in inbox ==> e in messages)
  }

  ghost predicate Inv(s: State) {
    && EventsUnique(s.rows) && TxsOk(s.rows, s.txs)
    && Counted(s.rows, s.txs, s.messages, s.extra) && InboxOk(s.messages, s.inbox, s.effects)
  }

  /** `Counted` moves along when every known row keeps its event and its marks. */
  lemma CountedStable(rows: Rows, txs: Txs, rows': Rows, txs': Txs, messages: multiset<Id>, extra: multiset<Id>)
    requires Counted(rows, txs, messages, extra) && rows.Keys <= rows'.Keys
    requires forall i :: i in rows ==>
             rows'[i].eventId == rows[i].eventId && Marks(rows', txs', i) == Marks(rows, txs, i)
    requires forall i :: i in rows' && i !in rows ==> !KnownEvent(rows, rows'[i].eventId) && Marks(rows', txs', i) == 0
    ensures Counted(rows', txs', messages, extra)
  {
    forall e | KnownEvent(rows, e) ensures KnownEvent(rows', e) {
      var i :| i in rows && rows[i].eventId == e;
      assert rows'[i].eventId == e;
    }
    forall i | i in rows' && i !in rows ensures messages[rows'[i].eventId] == 0 && extra[rows'[i].eventId] == 0 {
      assert rows'[i].eventId !in messages && rows'[i].eventId !in extra;
    }
  }

  lemma TxsStable(rows: Rows, rows': Rows, txs: Txs)
    requires TxsOk(rows, txs)
    requires forall w, i :: w in txs && i in txs[w].claimed && i in rows ==> i in rows' && rows'[i] == rows[i]
    ensures TxsOk(rows', txs)
  {
    forall w | w in txs ensures TxOk(rows', txs[w]) {
      assert TxOk(rows, txs[w]);
    }
  }

  lemma NotInFlight(rows: Rows, txs: Txs, id: Id)
    requires TxsOk(rows, txs) && id !in rows
    ensures !InFlight(txs, id)
  {
    forall w | w in txs ensures id !in txs[w].wrote {
      assert TxOk(rows, txs[w]);
    }
  }

  lemma UniqueMore(rows: Rows, id: Id, r: Row)
    requires EventsUnique(rows) && !KnownEvent(rows, r.eventId)
    ensures EventsUnique(rows[id := r])
  {
  }

  lemma WriteKeepsInv(s: State, id: Id, r: Row)
    requires Inv(s) && Enabled(s, Write(id, r))
    ensures Inv(Apply(s, Write(id, r)))
  {
    var rows' := s.rows[id := r];
    assert TxsOk(rows', s.txs) by {
      TxsStable(s.rows, rows', s.txs);
    }
    assert !InFlight(s.txs, id) by {
      NotInFlight(s.rows, s.txs, id);
    }
    assert EventsUnique(rows') by {
      UniqueMore(s.rows, id, r);
    }
    CountedStable(s.rows, s.txs, rows', s.txs, s.messages, s.extra);
  }

  lemma ClaimTxs(s: State, w: Id, ids: seq<Id>, limit: nat)
    requires TxsOk(s.rows, s.txs) && Enabled(s, Claim(w, ids, limit))
    ensures TxsOk(s.rows, s.txs[w := Tx((set i | i in ids), ids, map[])])
  {
    var tx := Tx((set i | i in ids), ids, map[]);
    assert forall i :: i in tx.claimed ==> Candidate(s, i);
    assert TxOk(s.rows, tx);
    assert forall v :: v in s.txs ==> s.txs[v].claimed !! tx.claimed;
  }

  lemma NewTxInFlight(txs: Txs, w: Id, tx: Tx, i: Id)
    requires w !in txs && tx.wrote == map[]
    ensures InFlight(txs[w := tx], i) <==> InFlight(txs, i)
  {
    if InFlight(txs, i) {
      var v :| v in txs && i in txs[v].wrote && txs[v].wrote[i].published;
      assert txs[w := tx][v] == txs[v];
    }
  }

  lemma ClaimKeepsInv(s: State, w: Id, ids: seq<Id>, limit: nat)
    requires Inv(s) && Enabled(s, Claim(w, ids, limit))
    ensures Inv(Apply(s, Claim(w, ids, limit)))
  {
    var tx := Tx((set i | i in ids), ids, map[]);
    ClaimTxs(s, w, ids, limit);
    forall i | i in s.rows ensures Marks(s.rows, s.txs[w := tx], i) == Marks(s.rows, s.txs, i) {
      NewTxInFlight(s.txs, w, tx, i);
    }
    CountedStable(s.rows, s.txs, s.rows, s.txs[w := tx], s.messages, s.extra);
  }

  /** Publishing the first row of `todo` changes what is in flight for that row only. */
  lemma AdvanceInFlight(rows: Rows, txs: Txs, w: Id, r: Row, i: Id)
    requires TxsOk(rows, txs) && w in txs && txs[w].todo != [] && i in rows
    ensures var h := txs[w].todo[0];
            InFlight(txs[w := Advance(txs[w], r)], i) <==> if i == h then r.published else InFlight(txs, i)
    ensures !InFlight(txs, txs[w].todo[0])
  {
    var h := txs[w].todo[0];
    var txs' := txs[w := Advance(txs[w], r)];
    assert TxOk(rows, txs[w]);
    forall v | v in txs && v != w ensures h !in txs[v].wrote {
      assert TxOk(rows, txs[v]);
    }
    if i == h {
      assert txs'[w].wrote[h] == r;
    } else if InFlight(txs, i) {
      var v :| v in txs && i in txs[v].wrote && txs[v].wrote[i].published;
      assert i in txs'[v].wrote && txs'[v].wrote[i].published;
    }
  }

  lemma AdvanceTxs(rows: Rows, txs: Txs, w: Id, o: Outcome)
    requires TxsOk(rows, txs) && w in txs && txs[w].todo != [] && txs[w].todo[0] in rows
    ensures TxsOk(rows, txs[w := Advance(txs[w], Settle(rows[txs[w].todo[0]], o))])
  {
    assert TxOk(rows, txs[w]);
    assert TxOk(rows, Advance(txs[w], Settle(rows[txs[w].todo[0]], o)));
  }

  lemma PublishMarks(rows: Rows, txs: Txs, w: Id, o: Outcome, i: Id)
    requires TxsOk(rows, txs) && w in txs && txs[w].todo != [] && txs[w].todo[0] in rows && i in rows
    ensures var h := txs[w].todo[0];
            && Marks(rows, txs[w := Advance(txs[w], Settle(rows[h], o))], i)
               == (if i == h then (if o == Sent then 1 else 0) else Marks(rows, txs, i))
            && (i == h ==> Marks(rows, txs, i) == 0)
  {
    assert TxOk(rows, txs[w]);
    AdvanceInFlight(rows, txs, w, Settle(rows[txs[w].todo[0]], o), i);
  }

  /** Adding one message of row `h` together with its mark, or as an extra one. */
  lemma CountedPlus(rows: Rows, txs: Txs, txs': Txs, messages: multiset<Id>, extra: multiset<Id>, h: Id, o: Outcome)
    requires EventsUnique(rows) && Counted(rows, txs, messages, extra) && h in rows && Marks(rows, txs, h) == 0
    requires forall i :: i in rows ==>
      Marks(rows, txs', i) == if i == h then (if o == Sent then 1 else 0) else Marks(rows, txs, i)
    ensures var e := multiset{rows[h].eventId};
            Counted(rows, txs', if o == Refused then messages else messages + e, if o == SentButThrew then extra + e
                    else extra)
  {
  }

  lemma PublishCounted(rows: Rows, txs: Txs, messages: multiset<Id>, extra: multiset<Id>, w: Id, o: Outcome)
    requires EventsUnique(rows) && TxsOk(rows, txs) && Counted(rows, txs, messages, extra)
    requires w in txs && txs[w].todo != [] && txs[w].todo[0] in rows
    ensures var h := txs[w].todo[0];
            var e := multiset{rows[h].eventId};
            Counted(rows, txs[w := Advance(txs[w], Settle(rows[h], o))],
                    if o == Refused then messages else messages + e, if o == SentButThrew then extra + e else extra)
  {
    var h := txs[w].todo[0];
    var txs' := txs[w := Advance(txs[w], Settle(rows[h], o))];
    forall i | i in rows
      ensures Marks(rows, txs', i) == if i == h then (if o == Sent then 1 else 0) else Marks(rows, txs, i)
    {
      PublishMarks(rows, txs, w, o, i);
    }
    PublishMarks(rows, txs, w, o, h);
    CountedPlus(rows, txs, txs', messages, extra, h, o);
  }

  lemma PublishKeepsInv(s: State, w: Id, o: Outcome)
    requires Inv(s) && Enabled(s, Publish(w, o))
    ensures Inv(Apply(s, Publish(w, o)))
  {
    AdvanceTxs(s.rows, s.txs, w, o);
    PublishCounted(s.rows, s.txs, s.messages, s.extra, w, o);
  }

  lemma CommitInFlight(rows: Rows, txs: Txs, w: Id, i: Id)
    requires TxsOk(rows, txs) && w in txs && i in rows
    ensures Marks(rows + txs[w].wrote, txs - {w}, i) == Marks(rows, txs, i)
  {
    assert TxOk(rows, txs[w]);
    if i in txs[w].wrote {
      assert !InFlight(txs - {w}, i) by {
        forall v | v in txs && v != w ensures i !in txs[v].wrote {
          assert TxOk(rows, txs[v]);
        }
      }
    } else if InFlight(txs, i) {
      var v :| v in txs && i in txs[v].wrote && txs[v].wrote[i].published;
      assert v in txs - {w};
    }
  }

  lemma CommitTxs(rows: Rows, txs: Txs, w: Id)
    requires EventsUnique(rows) && TxsOk(rows, txs) && w in txs
    ensures EventsUnique(rows + txs[w].wrote) && TxsOk(rows + txs[w].wrote, txs - {w})
    ensures rows.Keys == (rows + txs[w].wrote).Keys
    ensures forall i :: i in rows ==> (rows + txs[w].wrote)[i].eventId == rows[i].eventId
  {
    assert TxOk(rows, txs[w]);
    forall v | v in txs && v != w ensures TxOk(rows, txs[v]) && txs[v].claimed !! txs[w].claimed {
    }
    assert TxsOk(rows, txs - {w});
    TxsStable(rows, rows + txs[w].wrote, txs - {w});
  }

  lemma CommitKeepsInv(s: State, w: Id)
    requires Inv(s) && Enabled(s, Commit(w))
    ensures Inv(Apply(s, Commit(w)))
  {
    var rows', txs' := s.rows + s.txs[w].wrote, s.txs - {w};
    CommitTxs(s.rows, s.txs, w);
    forall i | i in s.rows ensures Marks(rows', txs', i) == Marks(s.rows, s.txs, i) {
      CommitInFlight(s.rows, s.txs, w, i);
    }
    CountedStable(s.rows, s.txs, rows', txs', s.messages, s.extra);
  }

  lemma AbortInFlight(rows: Rows, txs: Txs, w: Id, i: Id)
    requires EventsUnique(rows) && TxsOk(rows, txs) && w in txs && i in rows
    ensures Marks(rows, txs, i) == Unmarked(txs[w].wrote)[rows[i].eventId] + Marks(rows, txs - {w}, i)
  {
    var wrote := txs[w].wrote;
    var sent := set j | j in wrote && wrote[j].published :: wrote[j].eventId;
    assert TxOk(rows, txs[w]);
    if i in wrote && wrote[i].published {
      assert rows[i].eventId in sent && InFlight(txs, i);
      assert !InFlight(txs - {w}, i) by {
        forall v | v in txs && v != w ensures i !in txs[v].wrote {
          assert TxOk(rows, txs[v]);
        }
      }
    } else {
      assert rows[i].eventId !in sent;
      if InFlight(txs, i) {
        var v :| v in txs && i in txs[v].wrote && txs[v].wrote[i].published;
        assert v in txs - {w};
      }
    }
  }

  lemma AbortTxs(rows: Rows, txs: Txs, w: Id)
    requires TxsOk(rows, txs) && w in txs
    ensures TxsOk(rows, txs - {w})
    ensures forall e :: e in Unmarked(txs[w].wrote) ==> KnownEvent(rows, e)
  {
    assert TxOk(rows, txs[w]);
    var wrote := txs[w].wrote;
    forall e | e in Unmarked(wrote) ensures KnownEvent(rows, e) {
      var i :| i in wrote && wrote[i].published && wrote[i].eventId == e;
      assert i in rows && rows[i].eventId == e;
    }
  }

  lemma AbortCounted(rows: Rows, txs: Txs, messages: multiset<Id>, extra: multiset<Id>, w: Id)
    requires EventsUnique(rows) && TxsOk(rows, txs) && Counted(rows, txs, messages, extra) && w in txs
    ensures Counted(rows, txs - {w}, messages, extra + Unmarked(txs[w].wrote))
  {
    AbortTxs(rows, txs, w);
    forall i | i in rows
      ensures messages[rows[i].eventId] == (extra + Unmarked(txs[w].wrote))[rows[i].eventId] + Marks(rows, txs - {w}, i)
    {
      AbortInFlight(rows, txs, w, i);
    }
  }

  lemma AbortKeepsInv(s: State, w: Id)
    requires Inv(s) && Enabled(s, Abort(w))
    ensures Inv(Apply(s, Abort(w)))
  {
    AbortTxs(s.rows, s.txs, w);
    AbortCounted(s.rows, s.txs, s.messages, s.extra, w);
  }

  lemma StepKeepsInv(s: State, t: Step)
    requires Inv(s) && Enabled(s, t)
    ensures Inv(Apply(s, t))
  {
    match t
    case Write(id, r) => WriteKeepsInv(s, id, r);
    case Claim(w, ids, limit) => ClaimKeepsInv(s, w, ids, limit);
    case Publish(w, o) => PublishKeepsInv(s, w, o);
    case Commit(w) => CommitKeepsInv(s, w);
    case Abort(w) => AbortKeepsInv(s, w);
    case Deliver(c, e, throws) =>
  }

  lemma {:induction false} RunKeepsInv(s: State, steps: seq<Step>)
    requires Inv(s)
    ensures Inv(Run(s, steps))
    decreases |steps|
  {
    if steps != [] {
      if Enabled(s, steps[0]) {
        StepKeepsInv(s, steps[0]);
      }
      RunKeepsInv(if Enabled(s, steps[0]) then Apply(s, steps[0]) else s, steps[1..]);
    }
  }

  // ------------------------------------------------------------- theorems --

  /**
   * At least once: a PUBLISHED row's message went out under its one event id, and the number of messages is exactly
   * one for the mark plus one for each publication whose mark was rolled back or whose call threw after sending.
   */
  lemma PublishedAtLeastOnce(steps: seq<Step>, i: Id)
    ensures var s := Run(Empty, steps);
            i in s.rows ==>
              && (s.rows[i].published ==> s.messages[s.rows[i].eventId] == 1 + s.extra[s.rows[i].eventId])
              && (!s.rows[i].published && !Locked(s.txs, i) ==>
                    s.messages[s.rows[i].eventId] == s.extra[s.rows[i].eventId])
  {
    RunKeepsInv(Empty, steps);
    var s := Run(Empty, steps);
    forall w | w in s.txs ensures i in s.txs[w].wrote ==> i in s.txs[w].claimed && i in s.rows && !s.rows[i].published {
      assert TxOk(s.rows, s.txs[w]);
    }
  }

  lemma {:induction false} NothingExtra(s: State, steps: seq<Step>)
    requires forall k :: 0 <= k < |steps| ==>
             !steps[k].Abort? && !(steps[k].Publish? && steps[k].outcome == SentButThrew)
    ensures Run(s, steps).extra == s.extra
    decreases |steps|
  {
    if steps != [] {
      NothingExtra(if Enabled(s, steps[0]) then Apply(s, steps[0]) else s, steps[1..]);
    }
  }

  /** With no crash and no call that throws after sending, an event goes out once, whatever the number of publishers. */
  lemma ExactlyOnceWithoutCrashes(steps: seq<Step>, i: Id)
    requires forall k :: 0 <= k < |steps| ==>
             !steps[k].Abort? && !(steps[k].Publish? && steps[k].outcome == SentButThrew)
    ensures var s := Run(Empty, steps);
            i in s.rows ==> s.messages[s.rows[i].eventId] == Marks(s.rows, s.txs, i) <= 1
                            && (s.rows[i].published ==> s.messages[s.rows[i].eventId] == 1)
  {
    RunKeepsInv(Empty, steps);
    NothingExtra(Empty, steps);
  }

  /**
   * Exactly once in effect: one committed effect per (consumer, event) with an inbox row, none without, none unsent.
   */
  lemma EffectOncePerInboxRow(steps: seq<Step>, consumer: Id, event: Id)
    ensures var s := Run(Empty, steps);
            && s.effects[(consumer, event)] == (if (consumer, event) in s.inbox then 1 else 0)
            && ((consumer, event) in s.inbox ==> event in s.messages && KnownEvent(s.rows, event))
  {
    RunKeepsInv(Empty, steps);
  }

  /**
   * In every reachable state a delivery whose handler does not throw leaves the pair in the inbox with exactly one
   * effect, touches no other pair, and makes every further delivery of the pair a no-op.
   */
  lemma DeliverRecords(steps: seq<Step>, c: Id, e: Id, throws: bool)
    requires Enabled(Run(Empty, steps), Deliver(c, e, false))
    ensures var s := Run(Empty, steps);
            var s' := Apply(s, Deliver(c, e, false));
            && (c, e) in s'.inbox && s'.effects[(c, e)] == 1
            && (forall p :: p != (c, e) ==> (p in s'.inbox <==> p in s.inbox) && s'.effects[p] == s.effects[p])
            && s'.rows == s.rows && s'.messages == s.messages && s'.txs == s.txs
            && Enabled(s', Deliver(c, e, throws)) && Apply(s', Deliver(c, e, throws)) == s'
  {
    RunKeepsInv(Empty, steps);
  }

  /** A delivery whose handler throws leaves nothing behind, so the event can be delivered again. */
  lemma ThrowingDeliveryLeavesNothing(s: State, c: Id, e: Id)
    requires Enabled(s, Deliver(c, e, true))
    ensures Apply(s, Deliver(c, e, true)) == s
  {
  }

  /** Two publishers at work at once never hold the same row. */
  lemma PublishersAreDisjoint(steps: seq<Step>, v: Id, w: Id, i: Id)
    ensures var s := Run(Empty, steps);
            v in s.txs && w in s.txs && i in s.txs[v].claimed && i in s.txs[w].claimed ==> v == w
  {
    RunKeepsInv(Empty, steps);
  }

  // -------------------------------------------------------------- methods --

  class Store {
    var rows: map<Id, Row>
    var messages: multiset<Id>
    var inbox: set<(Id, Id)>
    var effects: multiset<(Id, Id)>

    constructor ()
      ensures rows == map[] && messages == multiset{} && inbox == {} && effects == multiset{}
    {
      rows, messages, inbox, effects := map[], multiset{}, {}, multiset{};
    }

    /** The identity of the fact is minted here, once. */
    method WriteOutboxMessage(id: Id, eventId: Id, rank: int)
      requires id !in rows && !KnownEvent(rows, eventId)
      modifies this`rows
      ensures rows == old(rows)[id := Row(eventId, rank, false, 0, false)]
      ensures old(EventsUnique(rows)) ==> EventsUnique(rows)
    {
      rows := rows[id := Row(eventId, rank, false, 0, false)];
    }

    /** One round of the loop: publish, then mark; a throw is recorded on this row only. */
    method PublishOne(id: Id, row: Row, o: Outcome)
      modifies this`rows, this`messages
      ensures rows == old(rows)[id := Settle(row, o)]
      ensures id in rows && rows[id].eventId == row.eventId && rows[id].rank == row.rank
      ensures rows[id].published <==> row.published || o == Sent
      ensures rows[id].attempts == row.attempts + 1 && (rows[id].failed <==> row.failed || o != Sent)
      ensures messages == old(messages) + if o == Refused then multiset{} else multiset{row.eventId}
    {
      if o != Refused {
        messages := messages + multiset{row.eventId};
      }
      if o == Sent {
        rows := rows[id := row.(published := true, attempts := row.attempts + 1)];
      } else {
        rows := rows[id := row.(attempts := row.attempts + 1, failed := true)];
      }
    }

    /** Each row of the batch is settled by its own outcome alone; no other row changes. */
    method PollOnce(ids: seq<Id>, outcome: Id -> Outcome) returns (n: nat)
      requires Distinct(ids) && forall k :: 0 <= k < |ids| ==> ids[k] in rows
      modifies this`rows, this`messages
      ensures rows == SettleAll(old(rows), Ids(ids), outcome) && n == |ids|
      ensures rows.Keys == old(rows).Keys && forall i :: i in rows && i !in ids ==> rows[i] == old(rows)[i]
      ensures forall i :: i in ids ==>
                && (rows[i].published <==> old(rows)[i].published || outcome(i) == Sent)
                && (rows[i].failed <==> old(rows)[i].failed || outcome(i) != Sent)
                && rows[i].attempts == old(rows)[i].attempts + 1 && rows[i].eventId == old(rows)[i].eventId
      ensures messages == old(messages) + Outgoing(old(rows), ids, outcome)
    {
      var k := 0;
      ghost var was, done := rows, Ids(ids[..0]);
      assert done == {} && SettleAll(was, done, outcome) == was;
      while k < |ids|
        invariant 0 <= k <= |ids| && done == Ids(ids[..k])
        invariant rows == SettleAll(was, done, outcome)
        invariant messages == old(messages) + Outgoing(was, ids[..k], outcome)
      {
        var row := rows[ids[k]];
        SettleNext(was, ids, outcome, k);
        PublishOne(ids[k], row, outcome(ids[k]));
        done := done + {ids[k]};
        k := k + 1;
      }
      assert ids[..k] == ids;
      n := |ids|;
    }

    /** The insert and the handler commit or roll back together; a duplicate key is success without running it. */
    method WithInbox(consumer: Id, event: Id, throws: bool) returns (ran: bool, committed: bool)
      modifies this`inbox, this`effects
      ensures ran <==> (consumer, event) !in old(inbox)
      ensures committed <==> !ran || !throws
      ensures ran && !throws ==> inbox == old(inbox) + {(consumer, event)}
                                 && effects == old(effects) + multiset{(consumer, event)}
      ensures !ran || throws ==> inbox == old(inbox) && effects == old(effects)
      ensures Handled(inbox, effects) == Handle(old(inbox), old(effects), consumer, event, throws)
    {
      if (consumer, event) in inbox {
        return false, true;
      }
      var was := inbox;
      inbox := inbox + {(consumer, event)};
      if throws {
        inbox := was;
        return true, false;
      }
      effects := effects + multiset{(consumer, event)};
      return true, true;
    }
  }

  ghost function Ids(s: seq<Id>): set<Id> {
    set i | i in s
  }

  ghost function SettleAll(rows: Rows, ids: set<Id>, outcome: Id -> Outcome): Rows {
    map i | i in rows :: if i in ids then Settle(rows[i], outcome(i)) else rows[i]
  }

  ghost function OneOut(r: Row, o: Outcome): multiset<Id> {
    if o == Refused then multiset{} else multiset{r.eventId}
  }

  /** The messages a batch sends, failing calls included when they throw only after sending. */
  ghost function Outgoing(rows: Rows, ids: seq<Id>, outcome: Id -> Outcome): multiset<Id>
    requires forall k :: 0 <= k < |ids| ==> ids[k] in rows
  {
    if ids == [] then multiset{}
    else
      var i := ids[|ids| - 1];
      Outgoing(rows, ids[..|ids| - 1], outcome) + OneOut(rows[i], outcome(i))
  }

  lemma SettleNext(rows: Rows, ids: seq<Id>, outcome: Id -> Outcome, k: nat)
    requires Distinct(ids) && k < |ids| && forall j :: 0 <= j < |ids| ==> ids[j] in rows
    ensures var done := Ids(ids[..k]);
            && ids[k] !in done && Ids(ids[..k + 1]) == done + {ids[k]}
            && SettleAll(rows, done, outcome)[ids[k]] == rows[ids[k]]
            && SettleAll(rows, done + {ids[k]}, outcome)
               == SettleAll(rows, done, outcome)[ids[k] := Settle(rows[ids[k]], outcome(ids[k]))]
            && Outgoing(rows, ids[..k + 1], outcome)
               == Outgoing(rows, ids[..k], outcome) + OneOut(rows[ids[k]], outcome(ids[k]))
  {
    assert ids[..k + 1] == ids[..k] + [ids[k]] && ids[..k + 1][..k] == ids[..k];
  }

  /** A batch sends the event of each of its rows once, unless the call was refused, and no other event. */
  lemma {:induction false} OutgoingCounts(rows: Rows, ids: seq<Id>, outcome: Id -> Outcome, e: Id)
    requires EventsUnique(rows) && Distinct(ids) && AllIn(ids, rows)
    ensures Outgoing(rows, ids, outcome)[e]
            == if exists k: nat :: SendsEvent(rows, ids, outcome, e, k) then 1 else 0
    decreases |ids|
  {
    if ids != [] {
      var front, last := ids[..|ids| - 1], ids[|ids| - 1];
      assert AllIn(front, rows) && Distinct(front);
      OutgoingCounts(rows, front, outcome, e);
      if k: nat :| SendsEvent(rows, front, outcome, e, k) {
        assert SendsEvent(rows, ids, outcome, e, k);
        assert rows[last].eventId != e by {
          assert ids[k] != last;
        }
      } else {
        if rows[last].eventId == e && outcome(last) != Refused {
          assert SendsEvent(rows, ids, outcome, e, |front|);
        }
        forall k: nat | SendsEvent(rows, ids, outcome, e, k) ensures k == |front| {
          assert k < |front| ==> SendsEvent(rows, front, outcome, e, k);
        }
      }
    }
  }

  ghost predicate SendsEvent(rows: Rows, ids: seq<Id>, outcome: Id -> Outcome, e: Id, k: nat) {
    k < |ids| && ids[k] in rows && rows[ids[k]].eventId == e && outcome(ids[k]) != Refused
  }

  /** A publisher can always claim: the first unlocked PENDING rows, up to the limit. */
  lemma {:induction false} ClaimIsPossible(s: State, limit: nat) returns (ids: seq<Id>)
    ensures IsBatch(s, ids, limit)
    ensures (forall i :: Candidate(s, i) ==> i in ids) || |ids| == limit
    decreases limit
  {
    if limit == 0 {
      return [];
    }
    ids := ClaimIsPossible(s, limit - 1);
    var left := set i | i in s.rows && Candidate(s, i) && i !in ids;
    if left != {} {
      var c := FirstRanked(s.rows, left);
      ids := ids + [c];
    } else {
      forall i | Candidate(s, i) ensures i in ids {
        assert i !in left;
      }
    }
  }

  lemma {:induction false} FirstRanked(rows: Rows, ids: set<Id>) returns (c: Id)
    requires ids != {} && ids <= rows.Keys
    ensures c in ids && forall i :: i in ids ==> rows[c].rank <= rows[i].rank
    decreases |ids|
  {
    c :| c in ids;
    var rest := ids - {c};
    if rest != {} {
      var d := FirstRanked(rows, rest);
      if rows[d].rank < rows[c].rank {
        c := d;
      }
      forall i | i in ids ensures rows[c].rank <= rows[i].rank {
        assert i in rest || i !in rest;
      }
    }
  }

  // --------------------------------------------- the methods as steps of the machine --

  /** Writing a message and handling a delivery are the machine's steps on the store's own components. */
  lemma WriteAndDeliverAreSteps(s: State, id: Id, eventId: Id, rank: int, consumer: Id, event: Id, throws: bool)
    ensures id !in s.rows && !KnownEvent(s.rows, eventId) ==>
              var t := Write(id, Row(eventId, rank, false, 0, false));
              Enabled(s, t) && Apply(s, t) == s.(rows := s.rows[id := Row(eventId, rank, false, 0, false)])
    ensures event in s.messages ==>
              var t := Deliver(consumer, event, throws);
              var d := Handle(s.inbox, s.effects, consumer, event, throws);
              Enabled(s, t) && Apply(s, t) == s.(inbox := d.inbox, effects := d.effects)
  {
  }

  ghost function Publishing(w: Id, ids: seq<Id>, outcome: Id -> Outcome): seq<Step> {
    if ids == [] then [] else [Publish(w, outcome(ids[0]))] + Publishing(w, ids[1..], outcome)
  }

  ghost function Settled(rows: Rows, ids: seq<Id>, outcome: Id -> Outcome): Rows
    requires forall k :: 0 <= k < |ids| ==> ids[k] in rows
  {
    map i | i in Ids(ids) && i in rows :: Settle(rows[i], outcome(i))
  }

  lemma OutgoingLast(rows: Rows, front: seq<Id>, last: Id, outcome: Id -> Outcome)
    requires last in rows && forall k :: 0 <= k < |front| ==> front[k] in rows
    ensures Outgoing(rows, front + [last], outcome)
            == Outgoing(rows, front, outcome) + OneOut(rows[last], outcome(last))
  {
    assert (front + [last])[..|front|] == front;
  }

  ghost predicate AllIn(ids: seq<Id>, rows: Rows) {
    forall k :: 0 <= k < |ids| ==> ids[k] in rows
  }

  lemma SameMore(more: multiset<Id>, a: multiset<Id>, b: multiset<Id>, one: multiset<Id>)
    requires a == more + b
    ensures a + one == more + (b + one)
  {
  }

  lemma AllInMore(rows: Rows, ids: seq<Id>, last: Id)
    requires last in rows && AllIn(ids, rows)
    ensures AllIn(ids + [last], rows)
  {
  }

  lemma OutgoingMore(rows: Rows, a: seq<Id>, b: seq<Id>, more: multiset<Id>, last: Id, outcome: Id -> Outcome)
    requires last in rows && AllIn(a, rows) && AllIn(b, rows)
    requires Outgoing(rows, a, outcome) == more + Outgoing(rows, b, outcome)
    ensures AllIn(a + [last], rows) && AllIn(b + [last], rows)
    ensures Outgoing(rows, a + [last], outcome) == more + Outgoing(rows, b + [last], outcome)
  {
    AllInMore(rows, a, last);
    AllInMore(rows, b, last);
    var one := OneOut(rows[last], outcome(last));
    var outA, outB := Outgoing(rows, a, outcome), Outgoing(rows, b, outcome);
    assert Outgoing(rows, a + [last], outcome) == outA + one by {
      OutgoingLast(rows, a, last, outcome);
    }
    assert Outgoing(rows, b + [last], outcome) == outB + one by {
      OutgoingLast(rows, b, last, outcome);
    }
    SameMore(more, outA, outB, one);
  }

  lemma OutgoingSingle(rows: Rows, first: Id, outcome: Id -> Outcome)
    requires first in rows
    ensures Outgoing(rows, [first], outcome) == OneOut(rows[first], outcome(first)) + Outgoing(rows, [], outcome)
  {
    OutgoingLast(rows, [], first, outcome);
    assert [] + [first] == [first];
  }

  lemma OutgoingConsMore(rows: Rows, first: Id, front: seq<Id>, more: multiset<Id>, last: Id, outcome: Id -> Outcome)
    requires first in rows && last in rows && AllIn(front, rows)
    requires AllIn([first] + front, rows) &&
             Outgoing(rows, [first] + front, outcome) == more + Outgoing(rows, front, outcome)
    ensures AllIn([first] + (front + [last]), rows) && AllIn(front + [last], rows)
    ensures Outgoing(rows, [first] + (front + [last]), outcome) == more + Outgoing(rows, front + [last], outcome)
  {
    OutgoingMore(rows, [first] + front, front, more, last, outcome);
    Associate([first], front, [last]);
  }

  lemma {:induction false} OutgoingCons(rows: Rows, first: Id, rest: seq<Id>, outcome: Id -> Outcome)
    requires first in rows && AllIn(rest, rows)
    ensures AllIn([first] + rest, rows)
    ensures Outgoing(rows, [first] + rest, outcome)
            == OneOut(rows[first], outcome(first)) + Outgoing(rows, rest, outcome)
    decreases |rest|
  {
    if rest == [] {
      OutgoingSingle(rows, first, outcome);
      assert [first] + rest == [first];
    } else {
      var front, last := rest[..|rest| - 1], rest[|rest| - 1];
      assert rest == front + [last];
      OutgoingCons(rows, first, front, outcome);
      OutgoingConsMore(rows, first, front, OneOut(rows[first], outcome(first)), last, outcome);
    }
  }

  /** `s'` is `s` after publisher `w` went through `todo`, its transaction having been `tx` before. */
  ghost predicate WentThrough(s: State, s': State, w: Id, tx: Tx, outcome: Id -> Outcome) {
    && AllIn(tx.todo, s.rows)
    && s'.rows == s.rows && s'.inbox == s.inbox && s'.effects == s.effects
    && s'.messages == s.messages + Outgoing(s.rows, tx.todo, outcome)
    && s'.txs == s.txs[w := Tx(tx.claimed, [], tx.wrote + Settled(s.rows, tx.todo, outcome))]
  }

  /** One row of a batch, published. */
  lemma PublishStep(s: State, w: Id, outcome: Id -> Outcome)
    requires w in s.txs && s.txs[w].todo != [] && s.txs[w].todo[0] in s.rows
    ensures var tx, i := s.txs[w], s.txs[w].todo[0];
            var s' := Apply(s, Publish(w, outcome(i)));
            && s'.rows == s.rows && s'.messages == s.messages + OneOut(s.rows[i], outcome(i))
            && s'.txs == s.txs[w := Tx(tx.claimed, tx.todo[1..], tx.wrote[i := Settle(s.rows[i], outcome(i))])]
            && s'.inbox == s.inbox && s'.effects == s.effects
  {
  }

  lemma Regroup(a: multiset<Id>, b: multiset<Id>, c: multiset<Id>)
    ensures a + b + c == a + (b + c)
  {
  }

  lemma WriteTwice(txs: Txs, w: Id, a: Tx, b: Tx)
    ensures txs[w := a][w := b] == txs[w := b]
  {
  }

  lemma RestIn(ids: seq<Id>, rows: Rows)
    requires ids != [] && ids[0] in rows && AllIn(ids[1..], rows)
    ensures AllIn(ids, rows) && ids == [ids[0]] + ids[1..]
  {
    forall k | 0 <= k < |ids| ensures ids[k] in rows {
      assert k > 0 ==> ids[k] == ids[1..][k - 1];
    }
  }

  lemma WentThroughMore(s: State, s1: State, s': State, w: Id, tx: Tx, next: Tx, outcome: Id -> Outcome)
    requires w in s.txs && s.txs[w] == tx && Distinct(tx.todo) && tx.todo != [] && tx.todo[0] in s.rows
    requires next == Tx(tx.claimed, tx.todo[1..],
                        tx.wrote[tx.todo[0] := Settle(s.rows[tx.todo[0]], outcome(tx.todo[0]))])
    requires s1.rows == s.rows && s1.messages == s.messages + OneOut(s.rows[tx.todo[0]], outcome(tx.todo[0]))
    requires s1.txs == s.txs[w := next] && s1.inbox == s.inbox && s1.effects == s.effects
    requires WentThrough(s1, s', w, next, outcome)
    ensures WentThrough(s, s', w, tx, outcome)
  {
    var i, rest := tx.todo[0], tx.todo[1..];
    RestIn(tx.todo, s.rows);
    OutgoingCons(s.rows, i, rest, outcome);
    Regroup(s.messages, OneOut(s.rows[i], outcome(i)), Outgoing(s.rows, rest, outcome));
    SettledFirst(s.rows, tx.todo, outcome, tx.wrote);
    WriteTwice(s.txs, w, next, Tx(tx.claimed, [], tx.wrote + Settled(s.rows, tx.todo, outcome)));
  }

  lemma {:induction false} PublishAll(s: State, w: Id, outcome: Id -> Outcome, tx: Tx)
    requires w in s.txs && s.txs[w] == tx && Distinct(tx.todo)
    requires forall k :: 0 <= k < |tx.todo| ==> tx.todo[k] in s.rows
    ensures WentThrough(s, Run(s, Publishing(w, tx.todo, outcome)), w, tx, outcome)
    decreases |tx.todo|
  {
    if tx.todo == [] {
      assert tx.wrote + Settled(s.rows, [], outcome) == tx.wrote;
      assert s.txs[w := tx] == s.txs;
    } else {
      var i, rest := tx.todo[0], tx.todo[1..];
      var s1 := Apply(s, Publish(w, outcome(i)));
      PublishStep(s, w, outcome);
      var next := Tx(tx.claimed, rest, tx.wrote[i := Settle(s.rows[i], outcome(i))]);
      PublishAll(s1, w, outcome, next);
      RunOne(s, Publish(w, outcome(i)), Publishing(w, rest, outcome));
      WentThroughMore(s, s1, Run(s1, Publishing(w, rest, outcome)), w, tx, next, outcome);
    }
  }

  lemma PutFirst<K, V>(m: map<K, V>, k: K, v: V, rest: map<K, V>, all: map<K, V>)
    requires k in all && all[k] == v && all.Keys == rest.Keys + {k} && k !in rest
    requires forall i :: i in rest ==> all[i] == rest[i]
    ensures m[k := v] + rest == m + all
  {
  }

  lemma SettledFirst(rows: Rows, ids: seq<Id>, outcome: Id -> Outcome, wrote: Rows)
    requires ids != [] && Distinct(ids) && forall k :: 0 <= k < |ids| ==> ids[k] in rows
    ensures wrote[ids[0] := Settle(rows[ids[0]], outcome(ids[0]))] + Settled(rows, ids[1..], outcome)
         == wrote + Settled(rows, ids, outcome)
  {
    assert ids == [ids[0]] + ids[1..];
    assert Ids(ids) == {ids[0]} + Ids(ids[1..]);
    PutFirst(wrote, ids[0], Settle(rows[ids[0]], outcome(ids[0])), Settled(rows, ids[1..], outcome),
             Settled(rows, ids, outcome));
  }

  lemma {:induction false} RunAppend(s: State, a: seq<Step>, b: seq<Step>)
    ensures Run(s, a + b) == Run(Run(s, a), b)
    decreases |a|
  {
    if a == [] {
      assert a + b == b;
    } else {
      assert (a + b)[0] == a[0] && (a + b)[1..] == a[1..] + b;
      RunAppend(if Enabled(s, a[0]) then Apply(s, a[0]) else s, a[1..], b);
    }
  }

  lemma RunOne(s: State, t: Step, rest: seq<Step>)
    requires Enabled(s, t)
    ensures Run(s, [t] + rest) == Run(Apply(s, t), rest)
  {
    assert ([t] + rest)[1..] == rest;
  }

  lemma CommitAfter(s: State, s1: State, s2: State, w: Id, tx: Tx, outcome: Id -> Outcome)
    requires w !in s.txs && s1 == s.(txs := s.txs[w := tx]) && tx.wrote == map[] && WentThrough(s1, s2, w, tx, outcome)
    ensures Enabled(s2, Commit(w))
    ensures var s' := Apply(s2, Commit(w));
            && s'.rows == SettleAll(s.rows, Ids(tx.todo), outcome)
            && s'.messages == s.messages + Outgoing(s.rows, tx.todo, outcome)
            && s'.txs == s.txs && s'.inbox == s.inbox && s'.effects == s.effects
  {
    assert s.rows + s2.txs[w].wrote == SettleAll(s.rows, Ids(tx.todo), outcome);
    assert s2.txs - {w} == s.txs;
  }

  /** Claim, loop and commit, run without interruption, change rows and messages as `Store.PollOnce` says. */
  lemma PollIsARun(s: State, w: Id, ids: seq<Id>, limit: nat, outcome: Id -> Outcome)
    requires Enabled(s, Claim(w, ids, limit))
    ensures (forall k :: 0 <= k < |ids| ==> ids[k] in s.rows)
    ensures var s' := Run(s, [Claim(w, ids, limit)] + (Publishing(w, ids, outcome) + [Commit(w)]));
            && s'.rows == SettleAll(s.rows, Ids(ids), outcome)
            && s'.messages == s.messages + Outgoing(s.rows, ids, outcome)
            && s'.txs == s.txs && s'.inbox == s.inbox && s'.effects == s.effects
  {
    assert forall k :: 0 <= k < |ids| ==> Candidate(s, ids[k]);
    var s1 := Apply(s, Claim(w, ids, limit));
    RunOne(s, Claim(w, ids, limit), Publishing(w, ids, outcome) + [Commit(w)]);
    RunAppend(s1, Publishing(w, ids, outcome), [Commit(w)]);
    PublishAll(s1, w, outcome, s1.txs[w]);
    var s2 := Run(s1, Publishing(w, ids, outcome));
    CommitAfter(s, s1, s2, w, s1.txs[w], outcome);
    RunLast(s2, Commit(w));
  }

  /** A publisher that dies before its commit leaves every row as it was, and the same batch can be claimed again. */
  lemma DeadPublisherIsRetried(s: State, w: Id, ids: seq<Id>, limit: nat, outcome: Id -> Outcome)
    requires Enabled(s, Claim(w, ids, limit))
    ensures var s' := Run(s, [Claim(w, ids, limit)] + (Publishing(w, ids, outcome) + [Abort(w)]));
            s'.rows == s.rows && s'.txs == s.txs && Enabled(s', Claim(w, ids, limit))
  {
    assert forall k :: 0 <= k < |ids| ==> Candidate(s, ids[k]);
    var s1 := Apply(s, Claim(w, ids, limit));
    RunOne(s, Claim(w, ids, limit), Publishing(w, ids, outcome) + [Abort(w)]);
    RunAppend(s1, Publishing(w, ids, outcome), [Abort(w)]);
    PublishAll(s1, w, outcome, s1.txs[w]);
    var s2 := Run(s1, Publishing(w, ids, outcome));
    RunLast(s2, Abort(w));
    assert s2.rows == s.rows && s2.txs - {w} == s.txs;
    SameBatch(s, Apply(s2, Abort(w)), ids, limit);
  }

  lemma SameBatch(s: State, t: State, ids: seq<Id>, limit: nat)
    requires s.rows == t.rows && s.txs == t.txs
    ensures IsBatch(s, ids, limit) <==> IsBatch(t, ids, limit)
  {
    assert forall i :: Candidate(s, i) <==> Candidate(t, i);
  }

  lemma RunLast(s: State, t: Step)
    requires Enabled(s, t)
    ensures Run(s, [t]) == Apply(s, t)
  {
    RunOne(s, t, []);
    assert [t] + [] == [t];
  }

  ghost predicate PublishedOrLocked(rows: Rows, txs: Txs) {
    forall i :: i in rows ==> rows[i].published || Locked(txs, i)
  }

  lemma SettledOrLocked(s: State, ids: seq<Id>, limit: nat, outcome: Id -> Outcome, rows: Rows)
    requires IsBatch(s, ids, limit) && |ids| < limit && (forall i :: i in ids ==> outcome(i) == Sent)
    requires rows == SettleAll(s.rows, Ids(ids), outcome)
    ensures rows.Keys == s.rows.Keys && PublishedOrLocked(rows, s.txs)
  {
    forall i | i in s.rows ensures rows[i].published || Locked(s.txs, i) {
      assert Candidate(s, i) ==> i in ids;
    }
  }

  /** A poll that is not full, and of which every call succeeds, leaves nothing PENDING but what others have claimed. */
  lemma PollEmptiesTheOutbox(s: State, w: Id, ids: seq<Id>, limit: nat, outcome: Id -> Outcome)
    requires Enabled(s, Claim(w, ids, limit)) && |ids| < limit && forall i :: i in ids ==> outcome(i) == Sent
    ensures var s' := Run(s, [Claim(w, ids, limit)] + (Publishing(w, ids, outcome) + [Commit(w)]));
            s'.rows.Keys == s.rows.Keys && PublishedOrLocked(s'.rows, s.txs)
  {
    var rows := Run(s, [Claim(w, ids, limit)] + (Publishing(w, ids, outcome) + [Commit(w)])).rows;
    assert IsBatch(s, ids, limit);
    assert (forall k :: 0 <= k < |ids| ==> ids[k] in s.rows) && rows == SettleAll(s.rows, Ids(ids), outcome) by {
      PollIsARun(s, w, ids, limit, outcome);
    }
    SettledOrLocked(s, ids, limit, outcome, rows);
  }
}
