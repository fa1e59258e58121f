/**
 One iteration of `_worker` (src/build_engine/agent/job_loop.py) when nothing else moves.
 The build itself is an outcome; WorkerPool interleaves the same store calls.
 */
module JobLoop {
  import opened Outcomes
  import opened QueueTables
  import opened QueueSpec
  import opened QueueStore
  import opened CommandHandlers
  import WorkerPool

  // How `execute_job` ends: committed and returned, committed and then raised,
  // raised BuildExecutionError, or raised anything else.
  datatype Outcome =
    | Returns
    | RaisesAfterCommit
    | FailsWith(errorClass: string, message: string)
    | Raises(message: string)

  function TargetOf(errorClass: string): JobState {
    if errorClass == "EXEC_TIMEOUT" then TimedOut
    else if errorClass == "CANCELLED" then Cancelled
    else Failed
  }

  // The state that the outcome of a build should leave, for a row leased `attempts` times.
  function FinalState(outcome: Outcome, attempts: nat): JobState {
    match outcome
    case Returns => Succeeded
    case RaisesAfterCommit => Succeeded
    case FailsWith(errorClass, _) => TargetOf(errorClass)
    case Raises(_) => if attempts >= MAX_LOCAL_CRASHES then Failed else Queued
  }

  // The error column that it leaves: `transition` writes it in every case.
  function FinalError(outcome: Outcome): Option<string> {
    match outcome
    case Returns => None
    case RaisesAfterCommit => None
    case FailsWith(_, message) => Some(message)
    case Raises(message) => Some(message)
  }

  ghost predicate Unheld(jobs: Jobs, token: Token) {
    forall a | a in jobs :: jobs[a].token != Some(token)
  }

  predicate Holds(r: Row, build: BuildId, owner: Owner, token: Token) {
    r.build == build && r.state == Running && r.owner == Some(owner) && r.token == Some(token)
  }

  /**
   `_ensure_current_attempt`, with the outcome that its exception becomes: it passes exactly
   when the check of WorkerPool does, and reports a cancellation exactly when the flag is the
   only thing in the way.
   */
  method EnsureCurrentAttempt(store: SQLiteQueueStore, l: WorkerPool.Lease) returns (failure: Option<Outcome>)
    ensures failure == None <==> WorkerPool.StillMine(store.db.jobs, l)
    ensures failure.Some? && failure.value.Raises? <==>
              l.attempt !in store.db.jobs || store.db.jobs[l.attempt].build != l.build
    ensures failure.Some? && failure.value.FailsWith? && TargetOf(failure.value.errorClass) == Cancelled <==>
              && l.attempt in store.db.jobs && store.db.jobs[l.attempt].cancel
              && WorkerPool.StillMine(store.db.jobs[l.attempt := store.db.jobs[l.attempt].(cancel := false)], l)
  {
    var current := store.GetJob(l.build, l.attempt);
    var newest := store.IsCurrentAttempt(l.build, l.attempt);
    if newest.Err? {
      return Some(Raises("Cannot check freshness for unknown attempt"));
    }
    ghost var unflagged := store.db.jobs[l.attempt := store.db.jobs[l.attempt].(cancel := false)];
    assert Current(unflagged, l.attempt) == Current(store.db.jobs, l.attempt) by {
      assert forall b | b in unflagged :: unflagged[b].build == store.db.jobs[b].build && unflagged[b].rowid == store.db.jobs[b].rowid;
    }
    if !newest.value {
      return Some(FailsWith("STALE_ATTEMPT", "Build attempt was superseded by a newer assignment"));
    }
    if current.None? || current.value.state != Running {
      return Some(FailsWith("STALE_ATTEMPT", "Build attempt is no longer running"));
    }
    if current.value.owner != Some(l.owner) {
      return Some(FailsWith("STALE_ATTEMPT", "Build lease ownership was lost"));
    }
    if current.value.token != Some(l.token) {
      return Some(FailsWith("STALE_ATTEMPT", "Build lease token was replaced"));
    }
    if current.value.cancel {
      return Some(FailsWith("CANCELLED", "Build cancellation was requested"));
    }
    return None;
  }

  // What a build that raised BuildExecutionError of this class is.
  predicate StateOfClass(state: JobState, errorClass: string) {
    && (state == TimedOut <==> errorClass == "EXEC_TIMEOUT")
    && (state == Cancelled <==> errorClass == "CANCELLED")
    && (state == Failed <==> errorClass != "EXEC_TIMEOUT" && errorClass != "CANCELLED")
  }

  /**
   From the exit of `execute_job` to the end of the iteration. The worker reports a terminal
   state exactly when it left one, unless the report itself is what raised, and always the
   one that it left.
   */
  method SettleOutcome(store: SQLiteQueueStore, attempt: AttemptId, build: BuildId, owner: Owner, token: Token,
                       outcome: Outcome, now: Millis)
    returns (completed: bool, reported: Option<string>)
    requires attempt in store.db.jobs && Holds(store.db.jobs[attempt], build, owner, token)
    modifies store.db
    ensures attempt in store.db.jobs && store.db.jobs == old(store.db.jobs)[attempt := store.db.jobs[attempt]]
    ensures var was := old(store.db.jobs)[attempt]; var row := store.db.jobs[attempt];
            && row == Ended(was, FinalState(outcome, was.attempts), FinalError(outcome), now)
            && completed == row.state.Terminal()
            && (outcome.FailsWith? ==> StateOfClass(row.state, outcome.errorClass) && row.error == Some(outcome.message))
            && (outcome.Raises? ==> row.state == (if was.attempts >= 3 then Failed else Queued) && row.error == Some(outcome.message))
            && (outcome.Returns? || outcome.RaisesAfterCommit? ==> row.state == Succeeded && row.error == None)
            && reported == if completed && !outcome.RaisesAfterCommit? then Some(StateName(row.state)) else None
  {
    reported := None;
    match outcome {
      case Returns =>
        var _ := store.Transition(attempt, Succeeded, None, Some(Running), Some(owner), Some(token), now);
        reported := Some("SUCCEEDED");
        completed := true;
      case RaisesAfterCommit =>
        var _ := store.Transition(attempt, Succeeded, None, Some(Running), Some(owner), Some(token), now);
        var current := store.GetJob(build, attempt);
        completed := current.Some? && current.value.state.Terminal();
      case FailsWith(errorClass, message) =>
        var current := store.GetJob(build, attempt);
        if current.Some? && !current.value.state.Terminal() {
          var _ := store.Transition(attempt, TargetOf(errorClass), Some(message), Some(current.value.state),
                                    Some(owner), Some(token), now);
        }
        completed := true;
        reported := Some(if errorClass == "EXEC_TIMEOUT" then "TIMED_OUT"
                         else if errorClass == "CANCELLED" then "CANCELLED" else "FAILED");
      case Raises(message) =>
        var current := store.GetJob(build, attempt);
        if current.Some? && current.value.state.Terminal() {
          completed := true;
        } else {
          var recovered := store.RecordExecutorCrash(attempt, message, Some(owner), Some(token), now);
          completed := recovered.Ok? && recovered.value.state == Failed;
          if completed {
            reported := Some("FAILED");
          }
        }
    }
  }

  lemma LeaseOutcome(jobs: Jobs, owner: Owner, token: Token, timeout: int, now: Millis, target: AttemptId)
    requires NextLease(jobs, now) == Some(target)
    ensures var jobs' := Acquired(jobs, owner, token, timeout, now);
            && target in jobs && jobs'.Keys == jobs.Keys
            && jobs'[target] == GrantedRow(jobs[target], owner, token, timeout, now)
            && forall a | a in jobs && a != target ::
                 jobs'[a] == jobs[a] || (jobs[a].cancel && jobs'[a] == SweptRow(jobs[a], now))
  {
    NextLeaseIsLeast(jobs, now);
  }

  lemma NoLeaseOutcome(jobs: Jobs, owner: Owner, token: Token, timeout: int, now: Millis)
    requires NextLease(jobs, now) == None
    ensures var jobs' := Acquired(jobs, owner, token, timeout, now);
            && jobs'.Keys == jobs.Keys
            && forall a | a in jobs :: jobs'[a] == jobs[a] || (jobs[a].cancel && jobs'[a] == SweptRow(jobs[a], now))
  {
    NextLeaseIsLeast(jobs, now);
  }

  lemma StartsRunning(jobs: Jobs, a: AttemptId, owner: Owner, token: Token, now: Millis)
    requires a in jobs && jobs[a].state == Leased && jobs[a].owner == Some(owner) && jobs[a].token == Some(token)
    ensures Transitioned(jobs, a, Running, None, Some(Leased), Some(owner), Some(token), now)
         == Ok(jobs[a := MovedRow(jobs[a], Running, None, now)])
  {
  }

  lemma OthersUntouched(jobs: Jobs, leased: Jobs, final: Jobs, attempt: AttemptId, token: Token, now: Millis)
    requires Unheld(jobs, token) && attempt in jobs && leased.Keys == jobs.Keys
    requires forall a | a in jobs && a != attempt ::
               leased[a] == jobs[a] || (jobs[a].cancel && leased[a] == SweptRow(jobs[a], now))
    requires attempt in final && final == leased[attempt := final[attempt]] && final[attempt].token.None?
    ensures final.Keys == jobs.Keys && Unheld(final, token)
    ensures forall a | a in jobs && a != attempt ::
              final[a] == jobs[a] || (jobs[a].cancel && final[a] == SweptRow(jobs[a], now))
  {
  }

  method RunIteration(store: SQLiteQueueStore, owner: Owner, timeout: int, token: Token, outcome: Outcome, now: Millis)
    returns (ran: Option<AttemptId>, completed: bool, reported: Option<string>)
    requires Unheld(store.db.jobs, token)
    modifies store.db
    ensures ran == NextLease(old(store.db.jobs), now)
    ensures store.db.jobs.Keys == old(store.db.jobs).Keys && Unheld(store.db.jobs, token)
    ensures ran.Some? ==> ran.value in old(store.db.jobs)
    ensures ran.Some? ==>
              var attempts := old(store.db.jobs)[ran.value].attempts + 1;
              var row := store.db.jobs[ran.value];
              && row == Ended(old(store.db.jobs)[ran.value].(attempts := attempts), FinalState(outcome, attempts), FinalError(outcome), now)
              && completed == row.state.Terminal()
              && reported == if completed && !outcome.RaisesAfterCommit? then Some(StateName(row.state)) else None
    ensures forall a | a in old(store.db.jobs) && ran != Some(a) ::
              store.db.jobs[a] == old(store.db.jobs)[a]
              || (old(store.db.jobs)[a].cancel && store.db.jobs[a] == SweptRow(old(store.db.jobs)[a], now))
  {
    ghost var jobs := store.db.jobs;
    var lease := store.AcquireLease(owner, timeout, now, token);
    if lease.None? {
      NoLeaseOutcome(jobs, owner, token, timeout, now);
      return None, false, None;
    }
    var attempt, row := lease.value.0, lease.value.1;
    ghost var leased := store.db.jobs;
    LeaseOutcome(jobs, owner, token, timeout, now, attempt);
    assert leased == Acquired(jobs, owner, token, timeout, now);
    ghost var running := MovedRow(leased[attempt], Running, None, now);
    StartsRunning(leased, attempt, owner, token, now);
    var started := store.Transition(attempt, Running, None, Some(Leased), Some(owner), Some(token), now);
    assert store.db.jobs == leased[attempt := running];
    assert Holds(running, row.build, owner, token);
    completed, reported := SettleOutcome(store, attempt, row.build, owner, token, outcome, now);
    OthersUntouched(jobs, leased, store.db.jobs, attempt, token, now);
    return Some(attempt), completed, reported;
  }
}
