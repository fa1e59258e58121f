/**
 `SQLiteQueueStore`: the durable queue, with its tables updated in place. The clock,
 the fresh lease token and the next rowid come in as arguments or are computed.
 */
module QueueStore {
  import opened Outcomes
  import opened QueueTables
  import opened QueueSpec

  /** The database file that the store and the event outbox both open. */
  class Database {
    var jobs: Jobs
    var events: seq<Event>
    var dlq: map<AttemptId, DeadLetter>

    constructor ()
      ensures Value() == Db(map[], [], map[])
    {
      jobs, events, dlq := map[], [], map[];
    }

    function Value(): Db
      reads this
    {
      Db(jobs, events, dlq)
    }
  }

  class SQLiteQueueStore {
    const db: Database
    var transient: map<AttemptId, Payload>

    constructor (db: Database)
      ensures this.db == db && transient == map[]
    {
      this.db := db;
      transient := map[];
    }

    /** The row as callers see it: the in-memory payload wins over the stored one. */
    function Presented(a: AttemptId, r: Row): Row
      reads this
    {
      if a in transient then r.(payload := transient[a]) else r
    }

    // INSERT takes the largest rowid plus one.
    method FreeRowid() returns (rowid: nat)
      ensures AboveAllRowids(db.jobs, rowid)
    {
      rowid := 1;
      var rest := db.jobs.Keys;
      while rest != {}
        invariant rest <= db.jobs.Keys
        invariant forall a | a in db.jobs && a !in rest :: db.jobs[a].rowid < rowid
        decreases |rest|
      {
        var a :| a in rest;
        if db.jobs[a].rowid >= rowid {
          rowid := db.jobs[a].rowid + 1;
        }
        rest := rest - {a};
      }
    }

    method Enqueue(build: BuildId, attempt: AttemptId, payload: Payload, now: Millis)
      returns (result: Result<(Row, bool), QueueError>)
      modifies this, db
      ensures transient == if attempt in old(transient) then old(transient) else old(transient)[attempt := payload]
      ensures exists rowid: nat :: AboveAllRowids(old(db.jobs), rowid) &&
                db.Value() == Apply(old(db.Value()), OpEnqueue(build, attempt, payload, rowid), now)
      ensures result == if db.jobs[attempt].build == build
                        then Ok((Presented(attempt, db.jobs[attempt]), attempt !in old(db.jobs)))
                        else Err(UnknownAttempt)
      ensures forall a | a in old(db.jobs) :: a in db.jobs && db.jobs[a] == old(db.jobs)[a]
      ensures attempt !in old(db.jobs) ==> FreshlyStored(db.jobs[attempt], build, payload, now)
      ensures attempt !in old(transient) && result.Ok? ==> result.value.0.payload == payload
    {
      if attempt !in transient {
        transient := transient[attempt := payload];
      }
      var rowid := FreeRowid();
      var inserted := attempt !in db.jobs;
      if inserted {
        db.jobs := db.jobs[attempt := NewRow(build, payload, now, rowid)];
      }
      if db.jobs[attempt].build != build {
        return Err(UnknownAttempt);
      }
      return Ok((Presented(attempt, db.jobs[attempt]), inserted));
    }

    method GetJob(build: BuildId, attempt: AttemptId) returns (row: Option<Row>)
      ensures row == if attempt in db.jobs && db.jobs[attempt].build == build
                     then Some(Presented(attempt, db.jobs[attempt])) else None
    {
      if attempt in db.jobs && db.jobs[attempt].build == build {
        return Some(Presented(attempt, db.jobs[attempt]));
      }
      return None;
    }

    method IsCurrentAttempt(build: BuildId, attempt: AttemptId) returns (current: Result<bool, QueueError>)
      ensures current == if attempt in db.jobs && db.jobs[attempt].build == build
                         then Ok(Current(db.jobs, attempt)) else Err(UnknownAttempt)
    {
      if attempt !in db.jobs || db.jobs[attempt].build != build {
        return Err(UnknownAttempt);
      }
      var newer := exists b :: b in db.jobs && db.jobs[b].build == build && db.jobs[b].rowid > db.jobs[attempt].rowid;
      return Ok(!newer);
    }

    // SELECT ... ORDER BY created_at, attempt_id LIMIT 1
    method OldestEligible(now: Millis) returns (oldest: Option<AttemptId>)
      ensures oldest.None? ==> forall a | a in db.jobs :: !Eligible(db.jobs[a], now)
      ensures oldest.Some? ==> oldest.value in db.jobs && Eligible(db.jobs[oldest.value], now)
      ensures oldest.Some? ==>
                forall a | a in db.jobs && Eligible(db.jobs[a], now) && a != oldest.value :: Before(db.jobs, oldest.value, a)
    {
      oldest := None;
      var rest := db.jobs.Keys;
      while rest != {}
        invariant rest <= db.jobs.Keys
        invariant oldest.None? ==> forall a | a in db.jobs && a !in rest :: !Eligible(db.jobs[a], now)
        invariant oldest.Some? ==> oldest.value in db.jobs && Eligible(db.jobs[oldest.value], now)
        invariant oldest.Some? ==>
                    forall a | a in db.jobs && a !in rest && Eligible(db.jobs[a], now) && a != oldest.value ::
                      Before(db.jobs, oldest.value, a)
        decreases |rest|
      {
        var a :| a in rest;
        if Eligible(db.jobs[a], now) && (oldest.None? || Before(db.jobs, a, oldest.value)) {
          oldest := Some(a);
        }
        rest := rest - {a};
      }
    }

    method AcquireLease(owner: Owner, timeout: int, now: Millis, token: Token)
      returns (leased: Option<(AttemptId, Row)>)
      modifies db
      ensures db.Value() == Apply(old(db.Value()), OpAcquire(owner, token, timeout), now)
      ensures leased.None? <==> NextLease(old(db.jobs), now) == None
      ensures leased.Some? ==>
                && NextLease(old(db.jobs), now) == Some(leased.value.0)
                && leased.value.0 in db.jobs
                && leased.value.1 == Presented(leased.value.0, db.jobs[leased.value.0])
                && leased.value.1.token == Some(token) && leased.value.1.expires == Some(now + timeout * 1000)
                && (leased.value.0 in transient ==> leased.value.1.payload == transient[leased.value.0])
    {
      ghost var before := db.jobs;
      ghost var done: set<AttemptId> := {};
      var row: Option<AttemptId>;
      while true
        invariant SweepState(before, done, now)
        invariant db.Value() == old(db.Value()).(jobs := SweepOf(before, done, now))
        decreases before.Keys - done
      {
        row := OldestEligible(now);
        if row.None? {
          EmptyChoice(before, done, now);
          return None;
        }
        if !db.jobs[row.value].cancel {
          break;
        }
        db.jobs := db.jobs[row.value := SweptRow(db.jobs[row.value], now)];
        done := done + {row.value};
        assert db.jobs == SweepOf(before, done, now);
      }
      var a := row.value;
      LeastChoice(before, done, now, a);
      db.jobs := db.jobs[a := GrantedRow(db.jobs[a], owner, token, timeout, now)];
      assert db.jobs == Acquired(before, owner, token, timeout, now);
      return Some((a, Presented(a, db.jobs[a])));
    }

    method RefreshLease(attempt: AttemptId, owner: Owner, token: Option<Token>, timeout: int, now: Millis)
      returns (result: Result<Row, QueueError>)
      modifies db
      ensures db.Value() == Apply(old(db.Value()), OpRefresh(attempt, owner, token, timeout), now)
      ensures result == match Refreshed(old(db.jobs), attempt, owner, token, timeout, now)
                        case Ok(jobs) => Ok(Presented(attempt, jobs[attempt]))
                        case Err(e) => Err(e)
      ensures result.Ok? <==>
                && attempt in old(db.jobs) && old(db.jobs)[attempt].state in {Leased, Running}
                && old(db.jobs)[attempt].owner == Some(owner) && (token.Some? ==> old(db.jobs)[attempt].token == token)
      ensures db.jobs == if result.Err? then old(db.jobs)
                         else old(db.jobs)[attempt := old(db.jobs)[attempt].(expires := Some(now + timeout * 1000), updated := now)]
    {
      if !RefreshAllowed(db.jobs, attempt, owner, token) {
        return Err(NotOwner);
      }
      db.jobs := db.jobs[attempt := db.jobs[attempt].(expires := Some(now + timeout * SECOND), updated := now)];
      return Ok(Presented(attempt, db.jobs[attempt]));
    }

    method Transition(attempt: AttemptId, target: JobState, error: Option<string>, expected: Option<JobState>,
                      owner: Option<Owner>, token: Option<Token>, now: Millis)
      returns (result: Result<Row, QueueError>)
      modifies db
      ensures db.Value() == Apply(old(db.Value()), OpTransition(attempt, target, error, expected, owner, token), now)
      ensures result == match Transitioned(old(db.jobs), attempt, target, error, expected, owner, token, now)
                        case Ok(jobs) => Ok(Presented(attempt, jobs[attempt]))
                        case Err(e) => Err(e)
      ensures result.Ok? && old(db.jobs)[attempt].state != target ==>
                db.jobs == old(db.jobs)[attempt := if target.Terminal() then Ended(old(db.jobs)[attempt], target, error, now)
                                                   else old(db.jobs)[attempt].(state := target, error := error, updated := now)]
    {
      ghost var spec := Transitioned(db.jobs, attempt, target, error, expected, owner, token, now);
      if attempt !in db.jobs {
        return Err(UnknownAttempt);
      }
      var r := db.jobs[attempt];
      if expected.Some? && r.state != expected.value {
        return Err(UnexpectedState);
      }
      if owner.Some? && r.owner != owner {
        return Err(NotOwner);
      }
      if token.Some? && r.token != token {
        return Err(StaleToken);
      }
      if r.state == target {
        if expected.None? && owner.None? && token.None? {
          return Ok(Presented(attempt, r));
        }
        return Err(IllegalTransition);
      }
      if r.state !in LegalPrevious(target) {
        return Err(IllegalTransition);
      }
      var terminal := target.Terminal();
      var moved := r.(
                 state := target,
                 error := error,
                 owner := if terminal then None else r.owner,
                 expires := if terminal then None else r.expires,
                 token := if terminal then None else r.token,
                 cancel := if terminal then false else r.cancel,
                 updated := now);
      assert moved == MovedRow(r, target, error, now);
      assert spec == Ok(db.jobs[attempt := moved]);
      db.jobs := db.jobs[attempt := moved];
      return Ok(Presented(attempt, moved));
    }

    method RequestCancel(build: BuildId, attempt: Option<AttemptId>, now: Millis) returns (ids: set<AttemptId>)
      modifies db
      ensures db.Value() == Apply(old(db.Value()), OpCancel(build, attempt), now)
      ensures ids == if attempt.Some? then {attempt.value}
                     else set a | a in old(db.jobs) && CancelMatches(old(db.jobs)[a], a, build, None)
      ensures db.jobs.Keys == old(db.jobs).Keys && forall a | a in old(db.jobs) ::
                var r := old(db.jobs)[a];
                db.jobs[a] == if r.build == build && (attempt == None || attempt == Some(a)) && r.state in {Queued, Leased, Running}
                              then r.(cancel := true, updated := now) else r
    {
      if attempt.None? {
        ids := set a | a in db.jobs && db.jobs[a].build == build && !db.jobs[a].state.Terminal();
        db.jobs := map a | a in db.jobs ::
          if db.jobs[a].build == build && !db.jobs[a].state.Terminal()
          then db.jobs[a].(cancel := true, updated := now) else db.jobs[a];
      } else {
        var a := attempt.value;
        ids := {a};
        if a in db.jobs && db.jobs[a].build == build && !db.jobs[a].state.Terminal() {
          db.jobs := db.jobs[a := db.jobs[a].(cancel := true, updated := now)];
        }
      }
      assert db.jobs == CancelRequested(old(db.jobs), build, attempt, now);
    }

    method RecordExecutorCrash(attempt: AttemptId, error: string, owner: Option<Owner>, token: Option<Token>, now: Millis)
      returns (result: Result<Row, QueueError>)
      modifies db
      ensures db.Value() == Apply(old(db.Value()), OpCrash(attempt, error, owner, token), now)
      ensures result == match Crashed(old(db.Value()), attempt, error, owner, token, now)
                        case Ok(after) => Ok(Presented(attempt, after.jobs[attempt]))
                        case Err(e) => Err(e)
      ensures result.Ok? ==>
                && attempt in old(db.jobs)
                && var r := old(db.jobs)[attempt]; var last := r.attempts >= 3;
                && db.jobs == old(db.jobs)[attempt := Ended(r, if last then Failed else Queued, Some(error), now)]
                && db.dlq == if !last || attempt in old(db.dlq) then old(db.dlq)
                             else old(db.dlq)[attempt := DeadLetter(r.build, r.payload, error, r.attempts, now)]
    {
      if !CrashAllowed(db.jobs, attempt, owner, token) {
        return Err(UnknownAttempt);
      }
      var r := db.jobs[attempt];
      if r.attempts >= MAX_LOCAL_CRASHES {
        if attempt !in db.dlq {
          db.dlq := db.dlq[attempt := DeadLetter(r.build, r.payload, error, r.attempts, now)];
        }
        db.jobs := db.jobs[attempt := FinishedRow(r, Failed, Some(error), now)];
      } else {
        db.jobs := db.jobs[attempt := FinishedRow(r, Queued, Some(error), now)];
      }
      return Ok(Presented(attempt, db.jobs[attempt]));
    }

    method PruneTerminal(days: int, now: Millis) returns (removed: nat)
      modifies db
      ensures db.Value() == Apply(old(db.Value()), OpPruneTerminal(days), now)
      ensures removed == |old(db.jobs)| - |db.jobs|
      ensures forall a :: a in db.jobs <==>
                a in old(db.jobs) && !(old(db.jobs)[a].state.Terminal() && old(db.jobs)[a].updated < now - days * 86_400_000)
      ensures forall a | a in db.jobs :: db.jobs[a] == old(db.jobs)[a]
      ensures forall e :: e in db.events <==> e in old(db.events) && e.attempt in db.jobs
    {
      var cutoff := now - days * DAY;
      var gone := set a | a in db.jobs && db.jobs[a].state.Terminal() && db.jobs[a].updated < cutoff;
      assert gone <= db.jobs.Keys;
      removed := |gone|;
      ghost var before := db.jobs;
      db.jobs := db.jobs - gone;
      assert db.jobs == UnexpiredJobs(before, days, now);
      assert before.Keys == db.jobs.Keys + gone;
      ghost var kept := db.jobs;
      SelectMembers(db.events, (e: Event) => e.attempt in kept);
      db.events := OwnedEvents(db.events, db.jobs);
    }
  }

  // ---------- columns, one by one ----------

  // A row that was inserted by this call.
  predicate FreshlyStored(r: Row, build: BuildId, given: Payload, now: Millis) {
    && r.build == build && r.state == Queued && r.attempts == 0 && r.cursor == 0 && !r.cancel
    && r.owner.None? && r.token.None? && r.expires.None? && r.error.None? && r.created == now && r.updated == now
    && r.payload.Keys == given.Keys - {"secrets", "source_download_url", "secret_env"}
    && forall key | key in r.payload :: r.payload[key] == given[key]
  }

  // A row whose lease has ended, one way or the other.
  function Ended(r: Row, state: JobState, error: Option<string>, now: Millis): Row {
    Row(r.build, r.payload, state, r.attempts, r.cursor, None, None, None, error, false, r.created, now, r.rowid)
  }

  // ---------- the acquire loop ----------

  // The rows after the loop has cancelled the attempts of `done`.
  ghost function SweepOf(before: Jobs, done: set<AttemptId>, now: Millis): Jobs {
    map a | a in before :: if a in done then SweptRow(before[a], now) else before[a]
  }

  // Only flagged eligible rows were cancelled, and always the least one that was left.
  ghost predicate SweepState(before: Jobs, done: set<AttemptId>, now: Millis) {
    && (forall a | a in done :: a in before && Eligible(before[a], now) && before[a].cancel)
    && (forall a, b | a in done && b in before && b !in done && Eligible(before[b], now) :: Before(before, a, b))
  }

  lemma EmptyChoice(before: Jobs, done: set<AttemptId>, now: Millis)
    requires SweepState(before, done, now)
    requires forall a | a in before :: !Eligible(SweepOf(before, done, now)[a], now)
    ensures NextLease(before, now) == None
    ensures forall owner, token, timeout :: SweepOf(before, done, now) == Acquired(before, owner, token, timeout, now)
  {
    NextLeaseIsLeast(before, now);
    assert forall a: AttemptId | a in before && a !in done :: SweepOf(before, done, now)[a] == before[a];
  }

  lemma LeastChoice(before: Jobs, done: set<AttemptId>, now: Millis, a: AttemptId)
    requires SweepState(before, done, now)
    requires a in before && Eligible(SweepOf(before, done, now)[a], now) && !SweepOf(before, done, now)[a].cancel
    requires forall b | b in before && b != a && Eligible(SweepOf(before, done, now)[b], now) ::
               Before(SweepOf(before, done, now), a, b)
    ensures a !in done && IsNext(before, now, a) && NextLease(before, now) == Some(a)
    ensures forall b | b in before && b != a :: b in done <==> Swept(before, now, Some(a), b)
  {
    assert forall b: AttemptId | b in before && b !in done :: SweepOf(before, done, now)[b] == before[b];
    NextLeaseIsLeast(before, now);
  }
}
