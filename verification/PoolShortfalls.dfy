/**
 A run of one worker from an empty database in which a cancel request is forgotten.
 The exact condition is `PoolTheorems.CancelForgottenExactly`.
 */
module PoolShortfalls {
  import opened Outcomes
  import opened QueueTables
  import opened QueueSpec
  import opened WorkerPool

  const ATTEMPT: AttemptId := 7
  const BUILD: BuildId := 1

  // One row, and one worker at one place in its loop.
  ghost predicate At(s: Pool, r: Row, worker: Worker) {
    s.db.jobs == map[ATTEMPT := r] && s.workers == [worker] && s.now == 0 && r.build == BUILD
  }

  predicate HeldBy(r: Row, l: Lease) {
    r.owner == Some(l.owner) && r.token == Some(l.token) && l.attempt == ATTEMPT && l.build == BUILD
  }

  // ---------- the steps ----------

  lemma Enqueues(s: Pool) returns (s': Pool)
    requires Init(s) && s.now == 0 && s.workers == [Idle]
    ensures Next(s, Environment(OpEnqueue(BUILD, ATTEMPT, map[], 1)), s')
    ensures At(s', NewRow(BUILD, map[], 0, 1), Idle) && s'.issued == map[]
  {
    s' := Perform(s, OpEnqueue(BUILD, ATTEMPT, map[], 1));
  }

  lemma Leases(s: Pool, r: Row, token: Token) returns (s': Pool, l: Lease)
    requires At(s, r, Idle) && r.state == Queued && !r.cancel && token !in s.issued
    ensures l == Lease(ATTEMPT, BUILD, WorkerName(0), token, 120)
    ensures Next(s, TakeLease(0, token, 120), s') && s'.issued.Keys == s.issued.Keys + {token}
    ensures At(s', GrantedRow(r, WorkerName(0), token, 120, 0), Starting(l))
  {
    var owner := WorkerName(0);
    l := Lease(ATTEMPT, BUILD, owner, token, 120);
    assert IsNext(s.db.jobs, 0, ATTEMPT);
    NextLeaseIsLeast(s.db.jobs, 0);
    assert Acquired(s.db.jobs, owner, token, 120, 0) == map[ATTEMPT := GrantedRow(r, owner, token, 120, 0)];
    s' := Goto(Perform(s, OpAcquire(owner, token, 120)), 0, Starting(l)).(
      issued := s.issued[token := Grantee(ATTEMPT, 0, s.epoch, 120)]);
  }

  lemma Starts(s: Pool, r: Row, l: Lease) returns (s': Pool)
    requires At(s, r, Starting(l)) && r.state == Leased && HeldBy(r, l)
    ensures Next(s, StartRunning(0), s') && s'.issued == s.issued
    ensures At(s', MovedRow(r, Running, None, 0), Executing(l))
  {
    s' := Goto(Perform(s, MoveOp(l, Running, None, Leased)), 0, Executing(l));
  }

  lemma Flags(s: Pool, r: Row, at: Worker) returns (s': Pool)
    requires At(s, r, at) && !r.state.Terminal()
    ensures Next(s, Environment(OpCancel(BUILD, None)), s') && s'.issued == s.issued
    ensures At(s', r.(cancel := true, updated := 0), at)
  {
    s' := Perform(s, OpCancel(BUILD, None));
  }

  lemma ReadsCrash(s: Pool, r: Row, l: Lease) returns (s': Pool)
    requires At(s, r, Raising(l, "boom")) && r.state == Running && l.attempt == ATTEMPT && l.build == BUILD
    ensures Next(s, ReadAfterCrash(0), s') && s'.issued == s.issued && At(s', r, CrashCommit(l, "boom"))
  {
    assert SeenState(s, l) == Some(Running);
    s' := Goto(s, 0, CrashCommit(l, "boom"));
  }

  lemma RecordsCrash(s: Pool, r: Row, l: Lease) returns (s': Pool)
    requires At(s, r, CrashCommit(l, "boom")) && r.state == Running && HeldBy(r, l)
    ensures Next(s, RecordCrash(0), s') && s'.issued == s.issued && At(s', CrashedRow(r, "boom", 0), Reporting(l))
  {
    s' := Goto(Perform(s, OpCrash(ATTEMPT, "boom", Some(l.owner), Some(l.token))), 0, Reporting(l));
  }

  lemma Moves(s: Pool, r: Row, at: Worker, step: Step, to: Worker) returns (s': Pool)
    requires At(s, r, at) && (step == Raise(0, "boom") || step == EndIteration(0))
    requires step.Raise? ==> at.Executing? && to == Raising(at.lease, "boom")
    requires step.EndIteration? ==> at.Reporting? && to == Idle
    ensures Next(s, step, s') && s'.issued == s.issued && At(s', r, to)
  {
    s' := Goto(s, 0, to);
  }

  lemma Crashes(s: Pool, r: Row, l: Lease) returns (s': Pool)
    requires At(s, r, Executing(l)) && r.state == Running && HeldBy(r, l)
    ensures Leads(s, s') && s'.issued == s.issued && At(s', CrashedRow(r, "boom", 0), Idle)
  {
    LeadsHere(s);
    var raising := Moves(s, r, Executing(l), Raise(0, "boom"), Raising(l, "boom"));
    LeadsFurther(s, s, Raise(0, "boom"), raising);
    var crashing := ReadsCrash(raising, r, l);
    LeadsFurther(s, raising, ReadAfterCrash(0), crashing);
    var reporting := RecordsCrash(crashing, r, l);
    LeadsFurther(s, crashing, RecordCrash(0), reporting);
    s' := Moves(reporting, CrashedRow(r, "boom", 0), Reporting(l), EndIteration(0), Idle);
    LeadsFurther(s, reporting, EndIteration(0), s');
  }

  lemma Checks(s: Pool, r: Row, l: Lease) returns (s': Pool)
    requires At(s, r, Executing(l)) && r.state == Running && !r.cancel && HeldBy(r, l)
    ensures Next(s, CheckCurrent(0), s') && At(s', r, Uploading(l))
  {
    s' := Goto(s, 0, Uploading(l));
  }

  lemma Commits(s: Pool, r: Row, l: Lease) returns (s': Pool)
    requires At(s, r, Uploading(l)) && r.state == Running && HeldBy(r, l)
    ensures Next(s, CommitSuccess(0), s') && At(s', FinishedRow(r, Succeeded, None, 0), Committed(l))
  {
    s' := Goto(Perform(s, MoveOp(l, Succeeded, None, Running)), 0, Committed(l));
  }

  lemma Succeeds(s: Pool, r: Row, l: Lease) returns (s': Pool)
    requires At(s, r, Executing(l)) && r.state == Running && !r.cancel && HeldBy(r, l)
    ensures Leads(s, s') && At(s', FinishedRow(r, Succeeded, None, 0), Committed(l))
  {
    LeadsHere(s);
    var checked := Checks(s, r, l);
    LeadsFurther(s, s, CheckCurrent(0), checked);
    s' := Commits(checked, r, l);
    LeadsFurther(s, checked, CommitSuccess(0), s');
  }

  // ---------- the run ----------

  lemma FirstLease() returns (s: Pool, r: Row, l: Lease)
    ensures Reachable(s) && At(s, r, Executing(l)) && r.state == Running && !r.cancel && HeldBy(r, l) && r.attempts == 1
    ensures s.issued.Keys == {"first"}
  {
    var s0 := Pool(Db(map[], [], map[]), 0, 0, [Idle], map[], map[], 0, {});
    LeadsHere(s0);
    var s1 := Enqueues(s0);
    LeadsFurther(s0, s0, Environment(OpEnqueue(BUILD, ATTEMPT, map[], 1)), s1);
    s, r, l := LeasedRunning(s1, NewRow(BUILD, map[], 0, 1), "first");
    LeadsOn(s0, s1, s);
  }

  lemma LeasedRunning(s: Pool, r: Row, token: Token) returns (s': Pool, r': Row, l: Lease)
    requires At(s, r, Idle) && r.state == Queued && !r.cancel && token !in s.issued
    ensures Leads(s, s') && At(s', r', Executing(l)) && r'.state == Running && !r'.cancel && HeldBy(r', l)
    ensures r'.attempts == r.attempts + 1 && s'.issued.Keys == s.issued.Keys + {token}
  {
    LeadsHere(s);
    var leased, lease := Leases(s, r, token);
    LeadsFurther(s, s, TakeLease(0, token, 120), leased);
    l := lease;
    var granted := GrantedRow(r, WorkerName(0), token, 120, 0);
    s' := Starts(leased, granted, l);
    LeadsFurther(s, leased, StartRunning(0), s');
    r' := MovedRow(granted, Running, None, 0);
  }

  /** A running attempt is cancelled, its worker crashes, and the attempt is leased again and SUCCEEDS. */
  lemma CancelledRunSucceeds() returns (flagged: Pool, done: Pool)
    ensures Reachable(flagged) && ATTEMPT in flagged.db.jobs
    ensures flagged.db.jobs[ATTEMPT].cancel && flagged.db.jobs[ATTEMPT].state == Running && flagged.db.jobs[ATTEMPT].attempts == 1
    ensures Leads(flagged, done) && ATTEMPT in done.db.jobs
    ensures done.db.jobs[ATTEMPT].state == Succeeded && done.db.jobs[ATTEMPT].attempts == 2
  {
    var s, r, l := FirstLease();
    flagged := Flags(s, r, Executing(l));
    var start :| Init(start) && Leads(start, s);
    LeadsFurther(start, s, Environment(OpCancel(BUILD, None)), flagged);
    var doomed := r.(cancel := true, updated := 0);
    var queued := Crashes(flagged, doomed, l);
    var again, row, lease := LeasedRunning(queued, CrashedRow(doomed, "boom", 0), "second");
    LeadsOn(flagged, queued, again);
    done := Succeeds(again, row, lease);
    LeadsOn(flagged, again, done);
  }
}
