/**
 * The idempotency registry around a request handler: a machine over the rows of one tenant, principal and route, by
 * key. Looking a key up and claiming it is one step; the handler, the write of its response and a crash are others.
 */
module Idempotency {
  import opened Base
  import CanonicalJson
  import opened Texts

  type Hash = Id
  type Sha = Units -> Hash

  datatype Response = Response(status: nat, body: Id, location: Option<Id>)

  datatype Status = InProgress | Completed | Failed

  datatype Row = Row(hash: Hash, status: Status, response: Option<Response>)

  /** A call past the lookup: its handler is running, or has returned and the response is not yet written. */
  datatype Attempt = Running(key: Id) | Handled(key: Id, response: Response)

  type Rows = map<Id, Row>
  type Attempts = map<Id, Attempt>

  /** `effects` counts the handler runs that returned, `lost` those whose response was never written. */
  datatype State = State(rows: Rows, attempts: Attempts, effects: multiset<Id>, lost: multiset<Id>)

  ghost const Empty := State(map[], map[], multiset{}, multiset{})

  datatype Error = KeyConflict | RequestInProgress | HandlerError | RecordError

  datatype Answer = Proceed | Replay(response: Response) | Refuse(error: Error)

  /**
   * The lookup: another body conflicts, a stored response is repeated, a running request refused, a failed one
   * retried.
   */
  function Lookup(rows: Rows, key: Id, hash: Hash): Answer {
    if key !in rows then Proceed
    else if rows[key].hash != hash then Refuse(KeyConflict)
    else match (rows[key].status, rows[key].response)
         case (Completed, Some(r)) => Replay(r)
         case (Completed, None) => Replay(Response(200, 0, None))
         case (InProgress, _) => Refuse(RequestInProgress)
         case (Failed, _) => Proceed
  }

  function Claimed(rows: Rows, key: Id, hash: Hash): Rows {
    rows[key := Row(hash, InProgress, if key in rows then rows[key].response else None)]
  }

  /** The catch block: its own write may fail too, which is swallowed. */
  function MarkFailed(rows: Rows, key: Id, marked: bool): Rows {
    if marked && key in rows then rows[key := rows[key].(status := Failed)] else rows
  }

  function Recorded(rows: Rows, key: Id, r: Response): Rows {
    if key in rows then rows[key := rows[key].(status := Completed, response := Some(r))] else rows
  }

  datatype Step =
    | Begin(attempt: Id, key: Id, hash: Hash)
    | Return(attempt: Id, response: Response)
    | Throw(attempt: Id, marked: bool)
    | Record(attempt: Id)
    | RecordThrows(attempt: Id, marked: bool)
    | Crash(attempt: Id)

  ghost predicate Enabled(s: State, t: Step) {
    match t
    case Begin(a, _, _) => a !in s.attempts
    case Return(a, _) => a in s.attempts && s.attempts[a].Running?
    case Throw(a, _) => a in s.attempts && s.attempts[a].Running?
    case Record(a) => a in s.attempts && s.attempts[a].Handled?
    case RecordThrows(a, _) => a in s.attempts && s.attempts[a].Handled?
    case Crash(a) => a in s.attempts
  }

  ghost function Apply(s: State, t: Step): State
    requires Enabled(s, t)
  {
    match t
    case Begin(a, k, h) =>
      if Lookup(s.rows, k, h).Proceed? then s.(rows := Claimed(s.rows, k, h), attempts := s.attempts[a := Running(k)])
          else s
    case Return(a, r) =>
      var k := s.attempts[a].key;
      s.(attempts := s.attempts[a := Handled(k, r)], effects := s.effects + multiset{k})
    case Throw(a, marked) =>
      s.(rows := MarkFailed(s.rows, s.attempts[a].key, marked), attempts := s.attempts - {a})
    case Record(a) =>
      s.(rows := Recorded(s.rows, s.attempts[a].key, s.attempts[a].response), attempts := s.attempts - {a})
    case RecordThrows(a, marked) =>
      var k := s.attempts[a].key;
      s.(rows := MarkFailed(s.rows, k, marked), attempts := s.attempts - {a}, lost := s.lost + multiset{k})
    case Crash(a) =>
      var k := s.attempts[a].key;
      s.(attempts := s.attempts - {a}, lost := if s.attempts[a].Handled? then s.lost + multiset{k} else s.lost)
  }

  ghost function Run(s: State, steps: seq<Step>): State
    decreases |steps|
  {
    if steps == [] then s
    else Run(if Enabled(s, steps[0]) then Apply(s, steps[0]) else s, steps[1..])
  }

  // ------------------------------------------------------------- invariant --

  /** A key is worked on by one call at a time, and its row says so. */
  ghost predicate OneAttempt(rows: Rows, attempts: Attempts) {
    && (forall a, b :: a in attempts && b in attempts && attempts[a].key == attempts[b].key ==> a == b)
    && (forall a :: a in attempts ==> attempts[a].key in rows && rows[attempts[a].key].status == InProgress)
  }

  ghost predicate ResponsesOk(rows: Rows) {
    forall k :: k in rows ==> (rows[k].status == Completed <==> rows[k].response.Some?)
  }

  ghost predicate InFlight(attempts: Attempts, k: Id) {
    exists a :: a in attempts && attempts[a].Handled? && attempts[a].key == k
  }

  /** The key's one kept effect: its response is stored, or about to be. */
  ghost predicate Kept(rows: Rows, attempts: Attempts, k: Id) {
    (k in rows && rows[k].status == Completed) || InFlight(attempts, k)
  }

  ghost predicate Counted(rows: Rows, attempts: Attempts, effects: multiset<Id>, lost: multiset<Id>) {
    forall k :: effects[k] == lost[k] + if Kept(rows, attempts, k) then 1 else 0
  }

  ghost predicate Inv(s: State) {
    OneAttempt(s.rows, s.attempts) && ResponsesOk(s.rows) && Counted(s.rows, s.attempts, s.effects, s.lost)
  }

  /** The other keys' attempts are the same. */
  lemma SameInFlight(attempts: Attempts, next: Attempts, k: Id)
    requires forall a :: a in attempts && attempts[a].Handled? && attempts[a].key == k ==>
             a in next && next[a] == attempts[a]
    requires forall a :: a in next && next[a].Handled? && next[a].key == k ==> a in attempts && next[a] == attempts[a]
    ensures InFlight(attempts, k) == InFlight(next, k)
  {
    if a :| a in attempts && attempts[a].Handled? && attempts[a].key == k {
      assert next[a].Handled? && next[a].key == k;
    }
    if a :| a in next && next[a].Handled? && next[a].key == k {
      assert attempts[a].Handled? && attempts[a].key == k;
    }
  }

  lemma BeginKeepsInv(s: State, a: Id, k: Id, h: Hash)
    requires Inv(s) && Enabled(s, Begin(a, k, h)) && Lookup(s.rows, k, h).Proceed?
    ensures Inv(Apply(s, Begin(a, k, h)))
  {
    var s' := Apply(s, Begin(a, k, h));
    forall j ensures Kept(s'.rows, s'.attempts, j) == Kept(s.rows, s.attempts, j) {
      SameInFlight(s.attempts, s'.attempts, j);
    }
  }

  lemma ReturnKeepsInv(s: State, a: Id, r: Response)
    requires Inv(s) && Enabled(s, Return(a, r))
    ensures Inv(Apply(s, Return(a, r)))
  {
    var s' := Apply(s, Return(a, r));
    var k := s.attempts[a].key;
    forall j ensures Kept(s'.rows, s'.attempts, j) == (j == k || Kept(s.rows, s.attempts, j)) {
      if j == k {
        assert s'.attempts[a].Handled? && s'.attempts[a].key == k;
      } else {
        SameInFlight(s.attempts, s'.attempts, j);
      }
    }
    assert !Kept(s.rows, s.attempts, k);
  }

  /** An attempt ends without a stored response. */
  lemma DropKeepsInv(s: State, a: Id, marked: bool)
    requires Inv(s) && a in s.attempts
    ensures var k := s.attempts[a].key;
            Inv(State(MarkFailed(s.rows, k, marked), s.attempts - {a}, s.effects,
                      if s.attempts[a].Handled? then s.lost + multiset{k} else s.lost))
  {
    var k := s.attempts[a].key;
    var rows, attempts := MarkFailed(s.rows, k, marked), s.attempts - {a};
    forall j ensures Kept(rows, attempts, j) == (j != k && Kept(s.rows, s.attempts, j)) {
      if j != k {
        SameInFlight(s.attempts, attempts, j);
      }
    }
    assert Kept(s.rows, s.attempts, k) == s.attempts[a].Handled? by {
      if s.attempts[a].Handled? {
        assert InFlight(s.attempts, k);
      }
    }
  }

  lemma RecordKeepsInv(s: State, a: Id)
    requires Inv(s) && Enabled(s, Record(a))
    ensures Inv(Apply(s, Record(a)))
  {
    var s' := Apply(s, Record(a));
    var k := s.attempts[a].key;
    assert InFlight(s.attempts, k);
    forall j ensures Kept(s'.rows, s'.attempts, j) == Kept(s.rows, s.attempts, j) {
      if j != k {
        SameInFlight(s.attempts, s'.attempts, j);
      }
    }
  }

  lemma StepKeepsInv(s: State, t: Step)
    requires Inv(s) && Enabled(s, t)
    ensures Inv(Apply(s, t))
  {
    match t
    case Begin(a, k, h) =>
      if Lookup(s.rows, k, h).Proceed? {
        BeginKeepsInv(s, a, k, h);
      }
    case Return(a, r) => ReturnKeepsInv(s, a, r);
    case Throw(a, marked) => DropKeepsInv(s, a, marked);
    case Record(a) => RecordKeepsInv(s, a);
    case RecordThrows(a, marked) => DropKeepsInv(s, a, marked);
    case Crash(a) => DropKeepsInv(s, a, false);
  }

  lemma {:induction false} RunKeepsInv(s: State, steps: seq<Step>)
    requires Inv(s)
    ensures Inv(Run(s, steps))
    decreases |steps|
  {
    if steps != [] {
      if Enabled(s, steps[0]) {
        StepKeepsInv(s, steps[0]);
        RunKeepsInv(Apply(s, steps[0]), steps[1..]);
      } else {
        RunKeepsInv(s, steps[1..]);
      }
    }
  }

  // --------------------------------------------------------------- theorems --

  /**
   * Over every run a key's handler has returned once for its stored or about to be stored response, plus once for each
   * response that a crash or a failed write lost: at most once exactly when at most that many were lost.
   */
  lemma EffectsAreAccounted(steps: seq<Step>, k: Id)
    ensures var s := Run(Empty, steps);
            && s.effects[k] == s.lost[k] + (if Kept(s.rows, s.attempts, k) then 1 else 0)
            && (s.effects[k] <= 1 <==> s.lost[k] == 0 || (s.lost[k] == 1 && !Kept(s.rows, s.attempts, k)))
  {
    RunKeepsInv(Empty, steps);
  }

  /** A stored response is never changed, and no further handler run starts under its key. */
  lemma {:induction false} CompletedIsFinal(s: State, steps: seq<Step>, k: Id)
    requires Inv(s) && k in s.rows && s.rows[k].status == Completed
    ensures var s' := Run(s, steps);
            k in s'.rows && s'.rows[k] == s.rows[k] && s'.effects[k] == s.effects[k]
    decreases |steps|
  {
    if steps != [] {
      if Enabled(s, steps[0]) {
        StepKeepsInv(s, steps[0]);
        CompletedStep(s, steps[0], k);
        CompletedIsFinal(Apply(s, steps[0]), steps[1..], k);
      } else {
        CompletedIsFinal(s, steps[1..], k);
      }
    }
  }

  lemma CompletedStep(s: State, t: Step, k: Id)
    requires Inv(s) && Enabled(s, t) && k in s.rows && s.rows[k].status == Completed
    ensures var s' := Apply(s, t);
            k in s'.rows && s'.rows[k] == s.rows[k] && s'.effects[k] == s.effects[k]
  {
    if !t.Begin? {
      assert s.attempts[t.attempt].key != k;
    }
  }

  /** A claimed key that no call works on any more: a process died, or the write that should free it failed. */
  ghost predicate Stuck(s: State, k: Id) {
    k in s.rows && s.rows[k].status == InProgress && forall a :: a in s.attempts ==> s.attempts[a].key != k
  }

  /** Such a key is refused as in progress ever after, whatever else happens: the request can never be retried. */
  lemma {:induction false} StuckForEver(s: State, steps: seq<Step>, k: Id)
    requires Inv(s) && Stuck(s, k)
    ensures Stuck(Run(s, steps), k)
    ensures forall h :: Lookup(Run(s, steps).rows, k, h).Refuse?
    decreases |steps|
  {
    if steps != [] {
      if Enabled(s, steps[0]) {
        StepKeepsInv(s, steps[0]);
        assert Stuck(Apply(s, steps[0]), k);
        StuckForEver(Apply(s, steps[0]), steps[1..], k);
      } else {
        StuckForEver(s, steps[1..], k);
      }
    }
  }

  /** Exactly when ending an attempt leaves its key stuck: a crash, or a catch block whose own write failed. */
  lemma StuckIff(s: State, t: Step)
    requires Inv(s) && Enabled(s, t) && (t.Throw? || t.Record? || t.RecordThrows? || t.Crash?)
    ensures Stuck(Apply(s, t), s.attempts[t.attempt].key)
            <==> t.Crash? || (t.Throw? && !t.marked) || (t.RecordThrows? && !t.marked)
  {
  }

  /** One request from lookup to stored response. */
  ghost function Served(s: State, a: Id, k: Id, h: Hash, r: Response): State {
    Run(s, [Begin(a, k, h), Return(a, r), Record(a)])
  }

  lemma ServedIs(s: State, a: Id, k: Id, h: Hash, r: Response)
    requires Inv(s) && a !in s.attempts && Lookup(s.rows, k, h) == Proceed
    ensures var t := Served(s, a, k, h, r);
            && Inv(t) && t.rows == s.rows[k := Row(h, Completed, Some(r))]
            && t.effects == s.effects + multiset{k} && t.lost == s.lost && t.attempts == s.attempts
  {
    var begun := Apply(s, Begin(a, k, h));
    var handled := Apply(begun, Return(a, r));
    assert handled.attempts[a] == Handled(k, r);
    RunThree(s, Begin(a, k, h), begun, Return(a, r), handled, Record(a));
    RunKeepsInv(s, [Begin(a, k, h), Return(a, r), Record(a)]);
  }

  /**
   * A served request is answered with its stored response ever after, whatever else happens: its handler never returns
   * again, and another body under its key is a conflict.
   */
  lemma RetryReplays(s: State, a: Id, k: Id, h: Hash, r: Response, steps: seq<Step>)
    requires Inv(s) && a !in s.attempts && Lookup(s.rows, k, h) == Proceed
    ensures var later := Run(Served(s, a, k, h, r), steps);
            && Lookup(later.rows, k, h) == Replay(r) && later.effects[k] == s.effects[k] + 1
            && forall other :: other != h ==> Lookup(later.rows, k, other) == Refuse(KeyConflict)
  {
    ServedIs(s, a, k, h, r);
    CompletedIsFinal(Served(s, a, k, h, r), steps, k);
  }

  /** A request whose handler threw may be sent again exactly when the catch block marked it, and had no effect. */
  lemma ThrownMayRetryIff(s: State, a: Id, k: Id, h: Hash, marked: bool)
    requires Inv(s) && a !in s.attempts && Lookup(s.rows, k, h) == Proceed
    ensures var t := Run(s, [Begin(a, k, h), Throw(a, marked)]);
            && (Lookup(t.rows, k, h) == Proceed <==> marked)
            && (Lookup(t.rows, k, h) == Refuse(RequestInProgress) <==> !marked)
            && t.effects == s.effects && t.attempts == s.attempts
            && forall other :: other != h ==> Lookup(t.rows, k, other) == Refuse(KeyConflict)
  {
    var begun := Apply(s, Begin(a, k, h));
    RunTwo(s, Begin(a, k, h), begun, Throw(a, marked), Apply(begun, Throw(a, marked)));
  }

  /** The registry's answers in every reachable state. */
  lemma LookupIs(s: State, k: Id, h: Hash)
    requires Inv(s)
    ensures var known := k in s.rows && s.rows[k].hash == h;
            && (Lookup(s.rows, k, h) == Proceed <==> k !in s.rows || (known && s.rows[k].status == Failed))
            && (forall r :: Lookup(s.rows, k, h) == Replay(r) <==> known && s.rows[k].response == Some(r))
            && (Lookup(s.rows, k, h) == Refuse(RequestInProgress) <==> known && s.rows[k].status == InProgress)
            && (Lookup(s.rows, k, h) == Refuse(KeyConflict) <==> k in s.rows && s.rows[k].hash != h)
  {
    assert k in s.rows ==> (s.rows[k].status == Completed <==> s.rows[k].response.Some?);
  }

  ghost predicate CollisionFree(sha: Sha) {
    forall a: Units, b: Units :: sha(a) == sha(b) ==> a == b
  }

  function BodyHash(body: CanonicalJson.Json, sha: Sha): Hash {
    sha(CanonicalJson.Stringify(body))
  }

  /** Under a used key a body is a conflict exactly when it differs from the first one in more than member order. */
  lemma ConflictIffDifferent(rows: Rows, key: Id, first: CanonicalJson.Json, body: CanonicalJson.Json, sha: Sha)
    requires CollisionFree(sha) && CanonicalJson.WellFormed(first) && CanonicalJson.WellFormed(body)
    requires key in rows && rows[key].hash == BodyHash(first, sha)
    ensures Lookup(rows, key, BodyHash(body, sha)) == Refuse(KeyConflict) <==> !CanonicalJson.Same(first, body)
  {
    CanonicalJson.TextIsCanonical(first, body);
  }

  // ----------------------------------------------------------------- method --

  class Registry {
    var rows: Rows
    var effects: multiset<Id>
    var lost: multiset<Id>

    ghost function Abs(): State
      reads this
    {
      State(rows, map[], effects, lost)
    }

    constructor ()
      ensures Abs() == Empty
    {
      rows, effects, lost := map[], multiset{}, multiset{};
    }

    /** `run` from start to end: `handler` is what the handler returns or None, the flags whether the writes succeed. */
    method RunRequest(key: Id, body: CanonicalJson.Json, sha: Sha, handler: Option<Response>, recordOk: bool,
                      markOk: bool)
      returns (r: Result<Response, Error>)
      modifies this
      ensures var was, h := old(rows), BodyHash(body, sha);
              if key !in was || (was[key].hash == h && was[key].status == Failed) then
                && r == (if handler.None? then Err(HandlerError) else if recordOk then Ok(handler.value)
                         else Err(RecordError))
                && Abs() == EndState(old(Abs()), key, h, handler, recordOk, markOk)
                && Abs() == Run(old(Abs()), Steps(key, h, handler, recordOk, markOk))
              else
                && Abs() == old(Abs())
                && r == (if was[key].hash != h then Err(KeyConflict)
                         else if was[key].status == InProgress then Err(RequestInProgress)
                         else if was[key].response.Some? then Ok(was[key].response.value)
                         else Ok(Response(200, 0, None)))
    {
      var requestBodyHash := BodyHash(body, sha);
      ghost var s := Abs();
      if key in rows {
        var existing := rows[key];
        if existing.hash != requestBodyHash {
          return Err(KeyConflict);
        }
        if existing.status == Completed {
          return Ok(if existing.response.Some? then existing.response.value else Response(200, 0, None));
        }
        if existing.status == InProgress {
          return Err(RequestInProgress);
        }
      }
      ClaimedThen(rows, key, requestBodyHash);
      ghost var end := EndState(s, key, requestBodyHash, handler, recordOk, markOk);
      assert end == Run(s, Steps(key, requestBodyHash, handler, recordOk, markOk)) by {
        EndIsARun(s, key, requestBodyHash, handler, recordOk, markOk);
      }
      rows := Claimed(rows, key, requestBodyHash);
      if handler.None? {
        rows := MarkFailed(rows, key, markOk);
        assert Abs() == end;
        return Err(HandlerError);
      }
      effects := effects + multiset{key};
      if !recordOk {
        rows := MarkFailed(rows, key, markOk);
        lost := lost + multiset{key};
        assert Abs() == end;
        return Err(RecordError);
      }
      rows := Recorded(rows, key, handler.value);
      assert Abs() == end;
      return Ok(handler.value);
    }
  }

  function Undone(rows: Rows, key: Id, h: Hash, markOk: bool): Row {
    Row(h, if markOk then Failed else InProgress, if key in rows then rows[key].response else None)
  }

  lemma ClaimedThen(rows: Rows, key: Id, h: Hash)
    ensures forall marked :: MarkFailed(Claimed(rows, key, h), key, marked) == rows[key := Undone(rows, key, h, marked)]
    ensures forall r :: Recorded(Claimed(rows, key, h), key, r) == rows[key := Row(h, Completed, Some(r))]
  {
  }

  /** What a run of the handler leaves: the key's row by its outcome, the other rows, and the counts. */
  ghost function EndState(s: State, key: Id, h: Hash, handler: Option<Response>, recordOk: bool, markOk: bool): State {
    var undone := Undone(s.rows, key, h, markOk);
    if handler.None? then State(s.rows[key := undone], map[], s.effects, s.lost)
    else if recordOk then State(s.rows[key := Row(h, Completed, handler)], map[], s.effects + multiset{key}, s.lost)
    else State(s.rows[key := undone], map[], s.effects + multiset{key}, s.lost + multiset{key})
  }

  ghost function Steps(key: Id, h: Hash, handler: Option<Response>, recordOk: bool, markOk: bool): seq<Step> {
    if handler.None? then [Begin(0, key, h), Throw(0, markOk)]
    else [Begin(0, key, h), Return(0, handler.value), if recordOk then Record(0) else RecordThrows(0, markOk)]
  }

  lemma EndIsARun(s: State, key: Id, h: Hash, handler: Option<Response>, recordOk: bool, markOk: bool)
    requires s.attempts == map[] && Lookup(s.rows, key, h) == Proceed
    ensures EndState(s, key, h, handler, recordOk, markOk) == Run(s, Steps(key, h, handler, recordOk, markOk))
  {
    var begin, begun := Begin(0, key, h), Apply(s, Begin(0, key, h));
    if handler.None? {
      RunTwo(s, begin, begun, Throw(0, markOk), Apply(begun, Throw(0, markOk)));
    } else {
      var back := Return(0, handler.value);
      var handled := Apply(begun, back);
      var last := if recordOk then Record(0) else RecordThrows(0, markOk);
      RunThree(s, begin, begun, back, handled, last);
      LastIs(s, key, h, handler.value, recordOk, markOk, Apply(handled, last));
    }
  }

  lemma LastIs(s: State, key: Id, h: Hash, r: Response, recordOk: bool, markOk: bool, last: State)
    requires s.attempts == map[]
    requires var handled :=
               State(Claimed(s.rows, key, h), map[0 := Handled(key, r)], s.effects + multiset{key}, s.lost);
             last == Apply(handled, if recordOk then Record(0) else RecordThrows(0, markOk))
    ensures last == EndState(s, key, h, Some(r), recordOk, markOk)
  {
  }

  lemma RunThree(s: State, t: Step, next: State, u: Step, after: State, v: Step)
    requires Enabled(s, t) && next == Apply(s, t) && Enabled(next, u) && after == Apply(next, u) && Enabled(after, v)
    ensures Run(s, [t, u, v]) == Apply(after, v)
  {
    RunTwo(next, u, after, v, Apply(after, v));
    RunOne(s, t, next, [u, v]);
    assert [t] + [u, v] == [t, u, v];
  }

  lemma RunOne(s: State, t: Step, next: State, rest: seq<Step>)
    requires Enabled(s, t) && next == Apply(s, t)
    ensures Run(s, [t] + rest) == Run(next, rest)
  {
    assert ([t] + rest)[1..] == rest;
  }

  lemma RunLast(s: State, t: Step, last: State)
    requires Enabled(s, t) && last == Apply(s, t)
    ensures Run(s, [t]) == last
  {
    RunOne(s, t, last, []);
    assert [t] + [] == [t];
  }

  lemma RunTwo(s: State, t: Step, next: State, u: Step, last: State)
    requires Enabled(s, t) && next == Apply(s, t) && Enabled(next, u) && last == Apply(next, u)
    ensures Run(s, [t, u]) == last
  {
    RunLast(next, u, last);
    RunOne(s, t, next, [u]);
    assert [t] + [u] == [t, u];
  }
}
