/** `SQLiteCommandHandlers` (src/build_engine/queue/handlers.py): backend commands as steps over the store. */
module CommandHandlers {
  import opened Outcomes
  import opened QueueTables
  import opened QueueSpec
  import opened QueueStore

  datatype CommandResult = CommandResult(accepted: bool, state: string, affected: set<AttemptId>)

  function StateName(state: JobState): string {
    match state
    case Queued => "QUEUED"
    case Leased => "LEASED"
    case Running => "RUNNING"
    case Succeeded => "SUCCEEDED"
    case Failed => "FAILED"
    case Cancelled => "CANCELLED"
    case TimedOut => "TIMED_OUT"
  }

  function StateOf(name: string): Option<JobState> {
    if name == "QUEUED" then Some(Queued) else if name == "LEASED" then Some(Leased)
    else if name == "RUNNING" then Some(Running) else if name == "SUCCEEDED" then Some(Succeeded)
    else if name == "FAILED" then Some(Failed) else if name == "CANCELLED" then Some(Cancelled)
    else if name == "TIMED_OUT" then Some(TimedOut) else None
  }

  // The state column and the states that are published are these seven names.
  lemma StateNameRead(state: JobState)
    ensures StateOf(StateName(state)) == Some(state)
  {
  }

  class SQLiteCommandHandlers {
    const store: SQLiteQueueStore
    var marker: bool
    var draining: bool

    constructor (store: SQLiteQueueStore, marker: bool)
      ensures this.store == store && this.marker == marker && draining == marker
    {
      this.store, this.marker, this.draining := store, marker, marker;
    }

    method Assign(build: BuildId, attempt: AttemptId, payload: Payload, now: Millis)
      returns (result: Result<CommandResult, QueueError>)
      modifies this, store, store.db
      ensures marker == old(marker) && draining == marker
      ensures marker ==> result == Ok(CommandResult(false, "FAILED", {})) && store.db.Value() == old(store.db.Value())
      ensures !marker ==>
                && attempt in store.db.jobs
                && (exists rowid: nat :: AboveAllRowids(old(store.db.jobs), rowid) &&
                      store.db.Value() == Apply(old(store.db.Value()), OpEnqueue(build, attempt, payload, rowid), now))
                && (if store.db.jobs[attempt].build == build
                    then result == Ok(CommandResult(true, StateName(store.db.jobs[attempt].state), {}))
                    else result == Err(UnknownAttempt))
    {
      draining := marker;
      if draining {
        return Ok(CommandResult(false, "FAILED", {}));
      }
      var enqueued := store.Enqueue(build, attempt, payload, now);
      match enqueued {
        case Ok(pair) => return Ok(CommandResult(true, StateName(pair.0.state), {}));
        case Err(e) => return Err(e);
      }
    }

    method Cancel(build: BuildId, attempt: Option<AttemptId>, now: Millis) returns (result: CommandResult)
      modifies store.db
      ensures store.db.Value() == Apply(old(store.db.Value()), OpCancel(build, attempt), now)
      ensures result.accepted && result.state == "CANCELLING"
      ensures result.affected == if attempt.Some? then {attempt.value}
                                 else set a | a in old(store.db.jobs) && CancelMatches(old(store.db.jobs)[a], a, build, None)
    {
      var ids := store.RequestCancel(build, attempt, now);
      return CommandResult(true, "CANCELLING", ids);
    }

    method Drain()
      modifies this
      ensures marker && draining
    {
      draining := true;
      marker := true;
    }

    method Resume()
      modifies this
      ensures !marker && !draining
    {
      draining := false;
      marker := false;
    }
  }
}
