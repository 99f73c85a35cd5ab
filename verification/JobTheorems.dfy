/** What every run of the job machine keeps, and what it can and cannot lose. */
module JobTheorems {
  import opened Base
  import opened Jobs

  lemma {:induction false} RunKeepsInv(s: State, steps: seq<Step>)
    requires Inv(s)
    ensures Inv(Run(s, steps))
    decreases |steps|
  {
    if steps != [] {
      if Enabled(s, steps[0]) {
        StepKeepsInv(s, steps[0]);
      }
      RunKeepsInv(if Enabled(s, steps[0]) then Apply(s, steps[0]) else s, steps[1..]);
    }
  }

  /**
   * No committed job is lost: a row with an envelope that is still CREATED is held by the broker, or has been
   * handed to a worker, or meets the sweeper's WHERE clause as soon as it is old enough.
   */
  lemma NoJobLost(steps: seq<Step>, i: Id)
    ensures var s := Run(Empty, steps);
            i in s.rows && s.rows[i].envelope.Some? && s.rows[i].status == CREATED ==>
              || (s.rows[i].queue, i) in s.broker
              || i in s.delivered
              || forall cutoff :: s.rows[i].createdAt < cutoff ==> Orphan(s.rows[i], cutoff)
  {
    RunKeepsInv(Empty, steps);
  }

  /**
   * The broker holds a job id in one queue at most, its row's, and under the envelope the row records, if it records
   * one; `queued_at` means it was accepted.
   */
  lemma BrokerAgreesWithRows(steps: seq<Step>, q: Queue, q': Queue, i: Id)
    ensures var s := Run(Empty, steps);
            && ((q, i) in s.broker && (q', i) in s.broker ==> q == q')
            && ((q, i) in s.broker ==>
                  && i in s.rows && s.rows[i].queue == q && s.broker[(q, i)].jobId == i
                  && (s.rows[i].envelope.Some? ==> s.rows[i].envelope == Some(s.broker[(q, i)])))
            && (i in s.rows && s.rows[i].queuedAt.Some? ==> i in s.accepted)
  {
    RunKeepsInv(Empty, steps);
  }

  /** Sweepers running at once never hold the same row, and what they hold is still undispatched on the row. */
  lemma SweepersAreDisjoint(steps: seq<Step>, v: Id, w: Id, i: Id)
    ensures var s := Run(Empty, steps);
            v in s.sweeps && w in s.sweeps && i in s.sweeps[v].claimed ==>
              && (v == w || i !in s.sweeps[w].claimed)
              && i in s.rows && s.rows[i].status == CREATED && s.rows[i].queuedAt == None
  {
    RunKeepsInv(Empty, steps);
    var s := Run(Empty, steps);
    assert v in s.sweeps ==> SweepOk(s.rows, s.sweeps[v], s.accepted);
  }

  /** Cancellation columns and events, for every job whose CANCELLED status no processor wrote over. */
  lemma CancellationIsConsistent(steps: seq<Step>, i: Id)
    ensures var s := Run(Empty, steps);
            i in s.rows && i !in s.overwritten ==>
              && (s.rows[i].effectiveAt.Some? <==> s.rows[i].status == CANCELLED)
              && (s.rows[i].status == CANCELLED ==> s.rows[i].requested)
              && s.events[i] == (if s.rows[i].status == CANCELLED then 1 else 0)
  {
    RunKeepsInv(Empty, steps);
  }

  /** A processor's own write to job i. */
  predicate Writes(t: Step, i: Id) {
    (t.Work? || t.WorkRelayed?) && t.id == i
  }

  ghost predicate StaysCancelled(s: State, t: Step, i: Id)
    requires Enabled(s, t)
  {
    var s' := Apply(s, t);
    && i in s'.rows
    && (!Writes(t, i) ==> s'.rows[i].status == CANCELLED)
    && (i !in s.admitted ==> i !in s'.admitted)
  }

  lemma CancelStaysCancelled(s: State, id: Id, now: int, i: Id)
    requires Enabled(s, Cancel(id, now)) && i in s.rows && s.rows[i].status == CANCELLED
    ensures StaysCancelled(s, Cancel(id, now), i)
  {
    assert i !in Affected(s.rows, id);
  }

  lemma GateStaysCancelled(s: State, id: Id, up: bool, now: int, i: Id)
    requires Enabled(s, Gate(id, up, now)) && i in s.rows && s.rows[i].status == CANCELLED
    ensures StaysCancelled(s, Gate(id, up, now), i)
  {
    assert id == i ==> Halts(s, id, up);
  }

  lemma WorkStaysCancelled(s: State, t: Step, i: Id)
    requires Enabled(s, t) && (t.Work? || t.WorkRelayed?) && i in s.rows && s.rows[i].status == CANCELLED
    ensures StaysCancelled(s, t, i)
  {
  }

  lemma QuietStaysCancelled(s: State, t: Step, i: Id)
    requires Enabled(s, t) && i in s.rows && s.rows[i].status == CANCELLED 
    requires !t.Cancel? && !t.Gate? && !t.Work? && !t.WorkRelayed?
    ensures StaysCancelled(s, t, i)
  {
  }

  /** Steps other than a processor's write never leave CANCELLED, and no gate admits a CANCELLED job. */
  lemma CancelledIsLeftOnlyByProcessors(s: State, t: Step, i: Id)
    requires Enabled(s, t) && i in s.rows && s.rows[i].status == CANCELLED
    ensures i in Apply(s, t).rows
    ensures !Writes(t, i) ==> Apply(s, t).rows[i].status == CANCELLED
    ensures i !in s.admitted ==> i !in Apply(s, t).admitted
  {
    assert StaysCancelled(s, t, i) by {
      match t
      case Cancel(id, now) => CancelStaysCancelled(s, id, now, i);
      case Gate(id, up, now) => GateStaysCancelled(s, id, up, now, i);
      case Work(_, _) => WorkStaysCancelled(s, t, i);
      case WorkRelayed(_) => WorkStaysCancelled(s, t, i);
      case _ => QuietStaysCancelled(s, t, i);
    }
  }

  lemma CancelledIsUnlocked(s: State, i: Id)
    requires Inv(s) && i in s.rows && s.rows[i].status == CANCELLED
    ensures !Locked(s, i)
  {
    forall w | w in s.sweeps ensures i !in s.sweeps[w].claimed {
      assert SweepOk(s.rows, s.sweeps[w], s.accepted);
    }
  }

  /** The work of a clean-up, enqueued under another id and not done yet: no gate of job i stands before it. */
  ghost predicate RelayedWorkWaits(s: State, i: Id) {
    i in s.relayed && i !in s.handled
  }

  ghost predicate Leaves(s: State, t: Step, i: Id) {
    Enabled(s, t) && i in Apply(s, t).rows && Apply(s, t).rows[i].status != CANCELLED
  }

  lemma WriteLeaves(s: State, i: Id)
    requires i in s.rows && !Locked(s, i)
    ensures i in s.admitted ==> Leaves(s, Work(i, RUNNING), i)
    ensures RelayedWorkWaits(s, i) ==> Leaves(s, WorkRelayed(i), i)
  {
  }

  lemma LeavingWrites(s: State, t: Step, i: Id)
    requires i in s.rows && s.rows[i].status == CANCELLED && Leaves(s, t, i)
    ensures i in s.admitted || RelayedWorkWaits(s, i)
  {
    CancelledIsLeftOnlyByProcessors(s, t, i);
  }

  /**
   * A step can leave CANCELLED exactly when a gate had let the job through before, or its work was relayed under
   * another id: its processor may still write.
   */
  lemma WhenCancelledCanBeLeft(s: State, i: Id)
    requires Inv(s) && i in s.rows && s.rows[i].status == CANCELLED
    ensures (exists t :: Leaves(s, t, i)) <==> i in s.admitted || RelayedWorkWaits(s, i)
  {
    CancelledIsUnlocked(s, i);
    WriteLeaves(s, i);
    forall t | Leaves(s, t, i) ensures i in s.admitted || RelayedWorkWaits(s, i) {
      LeavingWrites(s, t, i);
    }
  }

  /** A clean-up whose work was not done yet; it may have been relayed already. */
  ghost predicate RelayMayRun(s: State, i: Id)
    requires i in s.rows
  {
    CleanUp(s.rows[i]) && i !in s.handled
  }

  /** No step changes the queue or the envelope of a row, or takes back an inbox row. */
  ghost predicate SameJob(s: State, t: Step, i: Id)
    requires Enabled(s, t) && i in s.rows
  {
    var s' := Apply(s, t);
    && i in s'.rows && s'.rows[i].queue == s.rows[i].queue && s'.rows[i].envelope == s.rows[i].envelope
    && (i in s.handled ==> i in s'.handled)
  }

  lemma DispatchIsSameJob(s: State, t: Step, i: Id)
    requires Enabled(s, t) && OfDispatch(t) && i in s.rows
    ensures SameJob(s, t, i)
  {
  }

  lemma OtherIsSameJob(s: State, t: Step, i: Id)
    requires Enabled(s, t) && !OfDispatch(t) && i in s.rows
    ensures SameJob(s, t, i)
  {
  }

  lemma RelayStaysOff(s: State, t: Step, i: Id)
    requires Enabled(s, t) && i in s.rows && !RelayMayRun(s, i)
    ensures i in Apply(s, t).rows && !RelayMayRun(Apply(s, t), i)
  {
    assert SameJob(s, t, i) by {
      if OfDispatch(t) {
        DispatchIsSameJob(s, t, i);
      } else {
        OtherIsSameJob(s, t, i);
      }
    }
  }

  lemma NobodyWrites(s: State, t: Step, i: Id)
    requires Inv(s) && Enabled(s, t) && i in s.rows && i !in s.admitted && !RelayMayRun(s, i)
    ensures !Writes(t, i)
  {
  }

  /**
   * A job cancelled before any gate let it through, and with no clean-up still to be run for it, stays CANCELLED and
   * is never worked on, in every continuation.
   */
  lemma {:induction false} CancelledBeforeStartIsFinal(s: State, steps: seq<Step>, i: Id)
    requires Inv(s) && i in s.rows && s.rows[i].status == CANCELLED && i !in s.admitted && !RelayMayRun(s, i)
    ensures var s' := Run(s, steps);
            i in s'.rows && s'.rows[i].status == CANCELLED && i !in s'.admitted
    decreases |steps|
  {
    if steps != [] {
      if Enabled(s, steps[0]) {
        StepKeepsInv(s, steps[0]);
        RelayStaysOff(s, steps[0], i);
        NobodyWrites(s, steps[0], i);
        CancelledIsLeftOnlyByProcessors(s, steps[0], i);
        CancelledBeforeStartIsFinal(Apply(s, steps[0]), steps[1..], i);
      } else {
        CancelledBeforeStartIsFinal(s, steps[1..], i);
      }
    }
  }

  /** The relay of a clean-up and its work, whatever became of the job. */
  lemma RelayAndWork(s: State, i: Id) returns (steps: seq<Step>)
    requires i in s.rows && RelayMayRun(s, i) && !Locked(s, i)
    ensures Run(s, steps) == WriteStatus(s, i, SUCCEEDED).(relayed := s.relayed + {i}, handled := s.handled + {i})
  {
    var t := s.(relayed := s.relayed + {i});
    steps := OneMore(s, [], s, Relay(i), t);
    steps := OneMore(s, steps, t, WorkRelayed(i), Apply(t, WorkRelayed(i)));
  }

  ghost predicate CancelledAfter(s: State, steps: seq<Step>, i: Id) {
    i in Run(s, steps).rows && Run(s, steps).rows[i].status == CANCELLED
  }

  /** The condition is exact. */
  lemma CancelledIsFinalIff(s: State, i: Id)
    requires Inv(s) && i in s.rows && s.rows[i].status == CANCELLED
    ensures (forall steps :: CancelledAfter(s, steps, i)) <==> i !in s.admitted && !RelayMayRun(s, i)
  {
    CancelledIsUnlocked(s, i);
    if i in s.admitted {
      var steps := OneMore(s, [], s, Work(i, RUNNING), Apply(s, Work(i, RUNNING)));
      assert !CancelledAfter(s, steps, i);
    } else if RelayMayRun(s, i) {
      var steps := RelayAndWork(s, i);
      assert !CancelledAfter(s, steps, i);
    } else {
      forall steps ensures CancelledAfter(s, steps, i) {
        CancelledBeforeStartIsFinal(s, steps, i);
      }
    }
  }

  /** A cancel leaves the job and each child that was not finished either CANCELLED or asked to stop. */
  lemma CancelReachesChildren(s: State, id: Id, now: int, c: Id)
    requires Inv(s) && Enabled(s, Cancel(id, now)) && !Terminal(s.rows[id].status)
    requires c == id || (c in s.rows && s.rows[c].parent == Some(id))
    ensures var r' := Apply(s, Cancel(id, now)).rows[c];
            if Terminal(s.rows[c].status) then r' == s.rows[c]
            else r'.requested && (r'.status == CANCELLED || r'.status == RUNNING == s.rows[c].status)
  {
  }

  /** After a cancel whatever is left to cancel is RUNNING and requested already. */
  lemma LeftToCancel(s: State, id: Id, now: int, c: Id)
    requires id in s.rows && c in Affected(CancelTx(s, id, now).rows, id)
    ensures var r := CancelTx(s, id, now).rows[c];
            r.status == RUNNING && r.requested
  {
  }

  /** Cancelling again changes nothing more, whatever the status. */
  lemma CancelTwice(s: State, id: Id, now: int, later: int)
    requires id in s.rows
    ensures CancelTx(CancelTx(s, id, now), id, later) == CancelTx(s, id, now)
  {
    var s1 := CancelTx(s, id, now);
    var hit := Affected(s1.rows, id);
    forall c | c in hit ensures Patch(s1.rows[c], later) == s1.rows[c] {
      LeftToCancel(s, id, now, c);
    }
    assert PatchAll(s1.rows, hit, later) == s1.rows;
    forall c | c in hit ensures !Immediate(s1.rows[c].status) {
      LeftToCancel(s, id, now, c);
    }
    assert Outright(s1.rows, hit) == {};
  }

  /**
   * When the gate stops a job whose cancellation was requested: exactly when it is already CANCELLED, or a Python
   * worker takes it, or Redis still has the flag, or Redis cannot be read.
   */
  lemma RequestedJobHalts(s: State, i: Id, redisUp: bool, now: int)
    requires Inv(s) && Enabled(s, Gate(i, redisUp, now)) && s.rows[i].requested
    ensures var s' := Apply(s, Gate(i, redisUp, now));
            && (s'.rows[i].status == CANCELLED
                <==> s.rows[i].status == CANCELLED || InPython(s.rows[i].queue) || i in s.flags || !redisUp)
            && (i !in s.admitted ==> (i in s'.admitted <==> s'.rows[i].status != CANCELLED))
  {
  }

  /** A finished job that is delivered again becomes CANCELLED exactly when its gate sees a request. */
  lemma FinishedJobAtGate(s: State, i: Id, redisUp: bool, now: int)
    requires Inv(s) && Enabled(s, Gate(i, redisUp, now)) && s.rows[i].status in {SUCCEEDED, FAILED, DEAD_LETTERED}
    ensures var s' := Apply(s, Gate(i, redisUp, now));
            && (s'.rows[i].status == CANCELLED
                <==> GateSees(s.rows[i].queue, redisUp, i in s.flags, s.rows[i].requested))
            && (s'.rows[i].status != CANCELLED ==> s'.rows[i] == s.rows[i])
  {
  }

  /**
   * The whole effect of a cancel on any row: a finished job, or one that is neither the job nor its child, is left
   * alone; a running one is asked to stop; any other is CANCELLED, with one event for it.
   */
  lemma CancelChangesExactly(s: State, id: Id, now: int, i: Id)
    requires Enabled(s, Cancel(id, now)) && i in s.rows
    ensures var t, r := Apply(s, Cancel(id, now)), s.rows[i];
            var hit := s.rows[id].status !in {SUCCEEDED, FAILED, CANCELLED, DEAD_LETTERED}
                       && (i == id || r.parent == Some(id))
                       && r.status !in {SUCCEEDED, FAILED, CANCELLED, DEAD_LETTERED};
            && t.rows.Keys == s.rows.Keys
            && t.rows[i] == (if !hit then r
                             else if r.status == RUNNING then r.(requested := true)
                             else r.(requested := true, status := CANCELLED, effectiveAt := Some(now)))
            && t.events[i] == s.events[i] + (if hit && r.status != RUNNING then 1 else 0)
            && (i in t.removable <==> i in s.removable || (hit && r.status != RUNNING))
            && t == s.(rows := t.rows, events := t.events, removable := t.removable)
  {
    var hit, dead := Affected(s.rows, id), Outright(s.rows, Affected(s.rows, id));
    assert i in hit <==> !Terminal(s.rows[id].status) && (i == id || s.rows[i].parent == Some(id))
                         && !Terminal(s.rows[i].status);
    var bag: multiset<Id> := multiset(dead);
    assert bag[i] == if i in dead then 1 else 0;
  }

  /** The whole effect of a gate: a job goes on as it is, or is stopped, with one event if it was not CANCELLED. */
  lemma GateChangesExactly(s: State, i: Id, redisUp: bool, now: int)
    requires Enabled(s, Gate(i, redisUp, now))
    ensures var t, r := Apply(s, Gate(i, redisUp, now)), s.rows[i];
            var sees := (if redisUp then i in s.flags else r.requested) || (r.queue in {Ai, Gpu} && r.requested);
            var stops := r.status != CANCELLED && sees;
            && t.rows == (if stops
                          then s.rows[i := r.(status := CANCELLED, requested := true, effectiveAt := Some(now))]
                          else s.rows)
            && t.events == (if stops then s.events + multiset{i} else s.events)
            && (i !in s.admitted ==> (i in t.admitted <==> r.status != CANCELLED && !sees))
            && t.broker == s.broker && t.flags == s.flags && t.delivered == s.delivered + {i}
  {
  }

  // ------------------------------------------------------------ witnesses --

  ghost const WITNESS := Row(0, Parse, None, 0, Some(Envelope(0, None, 0)), CREATED, None, false, None)

  /** A started job of the parse queue, alone in the system. */
  ghost predicate Alone(s: State, r: Row, flags: set<Id>) {
    && s.rows == map[0 := r] && s.flags == flags && s.sweeps == map[] && s.admitted == {0}
    && (Parse, 0) in s.broker
  }

  lemma AdmittedWitness() returns (steps: seq<Step>)
    ensures Alone(Run(Empty, steps), WITNESS, {})
  {
    var t0, t1, t2 := Create(0, 0, WITNESS), Enqueue(0), Gate(0, true, 0);
    var s1 := Empty.(rows := map[0 := WITNESS], dispatchers := map[0 := Dispatcher(0, Committed)]);
    var s2 := s1.(broker := map[(Parse, 0) := WITNESS.envelope.value], accepted := {0},
                  dispatchers := map[0 := Dispatcher(0, Enqueued)]);
    var s3 := s2.(delivered := {0}, admitted := {0});
    assert Apply(Empty, t0) == s1;
    assert Apply(s1, t1) == s2;
    assert Apply(s2, t2) == s3;
    steps := OneMore(Empty, [], Empty, t0, s1);
    steps := OneMore(Empty, steps, s1, t1, s2);
    steps := OneMore(Empty, steps, s2, t2, s3);
  }

  lemma StartedWitness() returns (steps: seq<Step>)
    ensures Alone(Run(Empty, steps), WITNESS.(status := RUNNING), {})
  {
    steps := AdmittedWitness();
    var s := Run(Empty, steps);
    steps := OneMore(Empty, steps, s, Work(0, RUNNING), Apply(s, Work(0, RUNNING)));
  }

  lemma CancelRunning(s: State, now: int)
    requires Alone(s, WITNESS.(status := RUNNING), {})
    ensures Enabled(s, Cancel(0, now))
    ensures Alone(Apply(s, Cancel(0, now)), WITNESS.(status := RUNNING, requested := true), {})
  {
  }

  lemma RequestedWitness(now: int) returns (steps: seq<Step>)
    ensures Alone(Run(Empty, steps), WITNESS.(status := RUNNING, requested := true), {})
  {
    steps := StartedWitness();
    var s := Run(Empty, steps);
    CancelRunning(s, now);
    steps := OneMore(Empty, steps, s, Cancel(0, now), Apply(s, Cancel(0, now)));
  }

  /**
   * The fallback to the column does not cover a flag that was never written or has expired while Redis answers: in
   * front of the parse queue a durable request is overlooked and the next attempt is let through all the same.
   */
  lemma RequestCanBeMissed(now: int) returns (steps: seq<Step>)
    ensures var s := Run(Empty, steps);
            && 0 in s.rows && s.rows[0].queue == Parse && s.rows[0].requested && s.rows[0].status == RUNNING
            && Enabled(s, Gate(0, true, now)) && !Halts(s, 0, true)
  {
    steps := RequestedWitness(now);
    GateOverlooks(Run(Empty, steps), WITNESS.(status := RUNNING, requested := true), now);
  }

  lemma GateOverlooks(s: State, r: Row, now: int)
    requires Alone(s, r, {}) && r.queue == Parse && r.status != CANCELLED
    ensures Enabled(s, Gate(0, true, now)) && !Halts(s, 0, true)
  {
  }

  /** A run in which a job that SUCCEEDED is CANCELLED by the gate of a later delivery, its flag having come late. */
  lemma SucceededThenCancelled(now: int) returns (steps: seq<Step>)
    ensures var s := Run(Empty, steps);
            && 0 in s.rows && s.rows[0].status == SUCCEEDED && Enabled(s, Gate(0, true, now))
            && 0 in Apply(s, Gate(0, true, now)).rows && Apply(s, Gate(0, true, now)).rows[0].status == CANCELLED
  {
    var r := WITNESS.(status := RUNNING, requested := true);
    steps := RequestedWitness(now);
    var s := Run(Empty, steps);
    FlagAlone(s, r);
    var flagged := Apply(s, SetFlag(0));
    steps := OneMore(Empty, steps, s, SetFlag(0), flagged);
    FinishAlone(flagged, r);
    steps := OneMore(Empty, steps, flagged, Work(0, SUCCEEDED), Apply(flagged, Work(0, SUCCEEDED)));
    GateStopsAlone(Run(Empty, steps), r.(status := SUCCEEDED), now);
  }

  lemma FlagAlone(s: State, r: Row)
    requires Alone(s, r, {}) && r.requested
    ensures Enabled(s, SetFlag(0)) && Alone(Apply(s, SetFlag(0)), r, {0})
  {
  }

  lemma FinishAlone(s: State, r: Row)
    requires Alone(s, r, {0})
    ensures Enabled(s, Work(0, SUCCEEDED)) && Alone(Apply(s, Work(0, SUCCEEDED)), r.(status := SUCCEEDED), {0})
  {
  }

  lemma GateStopsAlone(s: State, r: Row, now: int)
    requires Alone(s, r, {0}) && r.queue == Parse
    ensures Enabled(s, Gate(0, true, now))
    ensures 0 in Apply(s, Gate(0, true, now)).rows && Apply(s, Gate(0, true, now)).rows[0].status == CANCELLED
  {
  }

  /** A run in which a job is cancelled between its gate and its processor, which then writes RUNNING over CANCELLED. */
  lemma CancelledThenLeft(now: int) returns (steps: seq<Step>)
    ensures var s := Run(Empty, steps);
            && 0 in s.rows && s.rows[0].status == CANCELLED && 0 in s.admitted && Enabled(s, Work(0, RUNNING))
            && Apply(s, Work(0, RUNNING)).rows[0].status == RUNNING
  {
    steps := AdmittedWitness();
    var s := Run(Empty, steps);
    CancelAdmitted(s, now);
    steps := OneMore(Empty, steps, s, Cancel(0, now), Apply(s, Cancel(0, now)));
  }

  lemma CancelAdmitted(s: State, now: int)
    requires Alone(s, WITNESS, {})
    ensures Enabled(s, Cancel(0, now))
    ensures Alone(Apply(s, Cancel(0, now)), Patch(WITNESS, now), {})
  {
  }

  ghost const CLEANUP := Row(0, Maintenance, None, 0, None, CREATED, None, false, None)

  /**
   * A run in which a clean-up is cancelled before its work was relayed, and SUCCEEDED afterwards: the relay's envelope
   * names the outbox row, so the gate looks up no job and lets the work through.
   */
  lemma CleanUpRunsAfterCancel(now: int) returns (steps: seq<Step>, more: seq<Step>)
    ensures var s, s' := Run(Empty, steps), Run(Run(Empty, steps), more);
            && 0 in s.rows && s.rows[0].status == CANCELLED && s.admitted == {} && s.relayed == {}
            && 0 in s'.rows && s'.rows[0].status == SUCCEEDED && s'.admitted == {}
  {
    var s1 := Empty.(rows := map[0 := CLEANUP]);
    assert Apply(Empty, Create(0, 0, CLEANUP)) == s1;
    steps := OneMore(Empty, [], Empty, Create(0, 0, CLEANUP), s1);
    steps := OneMore(Empty, steps, s1, Cancel(0, now), Apply(s1, Cancel(0, now)));
    more := RelayAndWork(Run(Empty, steps), 0);
  }

  /** One step at the end of a run. */
  lemma OneMore(s: State, steps: seq<Step>, s': State, t: Step, next: State) returns (more: seq<Step>)
    requires Run(s, steps) == s' && Enabled(s', t) && next == Apply(s', t)
    ensures Run(s, more) == next
  {
    more := steps + [t];
    RunAppend(s, steps, [t]);
    Unroll(s', [t], next);
  }

  lemma {:induction false} RunAppend(s: State, a: seq<Step>, b: seq<Step>)
    ensures Run(s, a + b) == Run(Run(s, a), b)
    decreases |a|
  {
    if a == [] {
      assert a + b == b;
    } else {
      assert (a + b)[1..] == a[1..] + b;
      RunAppend(if Enabled(s, a[0]) then Apply(s, a[0]) else s, a[1..], b);
    }
  }

  lemma Unroll(s: State, steps: seq<Step>, s': State)
    requires steps != [] && Enabled(s, steps[0]) && s' == Apply(s, steps[0])
    ensures Run(s, steps) == Run(s', steps[1..])
  {
  }
}
