/**
 The worker pool as a state machine: N copies of `_worker`, each moving one store call
 at a time, interleaved with command handlers, the outbox, the clock and restarts.
 */
module WorkerPool {
  import opened Outcomes
  import opened QueueTables
  import opened QueueSpec
  import opened OutboxSpec
  import opened AttemptLife

  datatype Lease = Lease(attempt: AttemptId, build: BuildId, owner: Owner, token: Token, timeout: int)

  // Where a worker stands inside one iteration of its loop.
  datatype Worker =
    | Idle
    | Starting(lease: Lease)
    | Executing(lease: Lease)
    | Uploading(lease: Lease)
    | Committed(lease: Lease)
    | Failing(lease: Lease, target: JobState, message: string)
    | FailCommit(lease: Lease, target: JobState, message: string, seen: JobState)
    | Raising(lease: Lease, message: string)
    | CrashCommit(lease: Lease, message: string)
    | Reporting(lease: Lease)
  {
    // The worker may still hold its lease.
    predicate Holding() {
      !Idle? && !Committed? && !Reporting?
    }
  }

  // Who got a token: the attempt, the worker slot and the process that asked, and for how long.
  datatype Grantee = Grantee(attempt: AttemptId, worker: nat, epoch: nat, timeout: int)

  datatype Pool = Pool(
    db: Db,
    now: Millis,
    epoch: nat,
    workers: seq<Worker>,
    issued: map<Token, Grantee>,
    lives: map<AttemptId, Life>,
    nextLife: nat,
    buried: set<(AttemptId, nat)>)

  function WorkerName(w: nat): Owner {
    if w < 10 then ['w', '0' + w as char] else WorkerName(w / 10) + ['0' + (w % 10) as char]
  }

  // ---------- steps ----------

  datatype Step =
    | Tick(later: Millis)
    | Environment(command: QueueOp)
    | Outbox(statement: OutboxOp)
    | Restart(size: nat)
    | TakeLease(w: nat, token: Token, timeout: int)
    | StartRunning(w: nat)
    | KeepAlive(w: nat)
    | CheckCurrent(w: nat)
    | CommitSuccess(w: nat)
    | Fail(w: nat, target: JobState, message: string)
    | Raise(w: nat, message: string)
    | ReadAfterFailure(w: nat)
    | CommitFailure(w: nat)
    | ReadAfterCrash(w: nat)
    | RecordCrash(w: nat)
    | EndIteration(w: nat)

  // Lives follow the rows: a new row starts one, a deleted row ends one.
  function NextLives(jobs: Jobs, jobs': Jobs, lives: map<AttemptId, Life>, id: nat): map<AttemptId, Life> {
    map a | a in jobs' ::
      if a in jobs && a in lives then Aged(lives[a], jobs[a], jobs'[a]) else NewLife(id)
  }

  // The lives that an accepted crash report dead-letters.
  function Burials(s: Pool, op: QueueOp): set<(AttemptId, nat)> {
    if op.OpCrash? && CrashAllowed(s.db.jobs, op.attempt, op.owner, op.token)
       && s.db.jobs[op.attempt].attempts >= MAX_LOCAL_CRASHES && op.attempt in s.lives
    then {(op.attempt, s.lives[op.attempt].id)} else {}
  }

  ghost function Perform(s: Pool, op: QueueOp): Pool {
    var db' := Apply(s.db, op, s.now);
    s.(db := db', lives := NextLives(s.db.jobs, db'.jobs, s.lives, s.nextLife),
       nextLife := s.nextLife + 1, buried := s.buried + Burials(s, op))
  }

  function PerformOutbox(s: Pool, op: OutboxOp): Pool {
    var db' := ApplyOutbox(s.db, op, s.now);
    s.(db := db', lives := NextLives(s.db.jobs, db'.jobs, s.lives, s.nextLife), nextLife := s.nextLife + 1)
  }

  function Goto(s: Pool, w: nat, at: Worker): Pool
    requires w < |s.workers|
  {
    s.(workers := s.workers[w := at])
  }

  // Commands that reach the store without a lease.
  predicate Unleased(op: QueueOp) {
    op.OpEnqueue? || op.OpCancel? || op.OpPruneTerminal?
  }

  function MoveOp(l: Lease, target: JobState, note: Option<string>, expected: JobState): QueueOp {
    OpTransition(l.attempt, target, note, Some(expected), Some(l.owner), Some(l.token))
  }

  predicate MoveAccepted(s: Pool, l: Lease, target: JobState, expected: JobState) {
    Transitioned(s.db.jobs, l.attempt, target, None, Some(expected), Some(l.owner), Some(l.token), s.now).Ok?
  }

  // get_job(build_job_id, attempt_id)
  function SeenState(s: Pool, l: Lease): Option<JobState> {
    if l.attempt in s.db.jobs && s.db.jobs[l.attempt].build == l.build then Some(s.db.jobs[l.attempt].state) else None
  }

  // `_ensure_current_attempt` raises nothing.
  predicate StillMine(jobs: Jobs, l: Lease) {
    && l.attempt in jobs
    && var r := jobs[l.attempt];
    r.build == l.build && Current(jobs, l.attempt) && r.state == Running
    && r.owner == Some(l.owner) && r.token == Some(l.token) && !r.cancel
  }

  ghost predicate Next(s: Pool, step: Step, s': Pool) {
    match step
    case Tick(later) => s.now <= later && s' == s.(now := later)
    case Environment(op) =>
      Unleased(op) && (op.OpEnqueue? ==> AboveAllRowids(s.db.jobs, op.rowid)) && s' == Perform(s, op)
    case Outbox(op) => s' == PerformOutbox(s, op)
    case Restart(size) => s' == s.(epoch := s.epoch + 1, workers := seq(size, _ => Idle))
    case TakeLease(w, token, timeout) =>
      && w < |s.workers| && s.workers[w].Idle? && token !in s.issued
      && var after := Perform(s, OpAcquire(WorkerName(w), token, timeout));
      (match NextLease(s.db.jobs, s.now)
       case None => s' == after
       case Some(a) =>
         a in s.db.jobs &&
         s' == Goto(after, w, Starting(Lease(a, s.db.jobs[a].build, WorkerName(w), token, timeout))).(
           issued := s.issued[token := Grantee(a, w, s.epoch, timeout)]))
    case StartRunning(w) =>
      && w < |s.workers| && s.workers[w].Starting?
      && var l := s.workers[w].lease;
      s' == Goto(Perform(s, MoveOp(l, Running, None, Leased)), w,
                 if MoveAccepted(s, l, Running, Leased) then Executing(l) else Idle)
    case KeepAlive(w) =>
      && w < |s.workers| && !s.workers[w].Idle? && !s.workers[w].Starting?
      && var l := s.workers[w].lease;
      s' == Perform(s, OpRefresh(l.attempt, l.owner, Some(l.token), l.timeout))
    case CheckCurrent(w) =>
      && w < |s.workers| && s.workers[w].Executing?
      && StillMine(s.db.jobs, s.workers[w].lease)
      && s' == Goto(s, w, Uploading(s.workers[w].lease))
    case CommitSuccess(w) =>
      && w < |s.workers| && s.workers[w].Uploading?
      && var l := s.workers[w].lease;
      s' == Goto(Perform(s, MoveOp(l, Succeeded, None, Running)), w,
                 if MoveAccepted(s, l, Succeeded, Running) then Committed(l) else Raising(l, "QueueError"))
    case Fail(w, target, message) =>
      && w < |s.workers| && (s.workers[w].Executing? || s.workers[w].Uploading?)
      && target in {Failed, Cancelled, TimedOut}
      && s' == Goto(s, w, Failing(s.workers[w].lease, target, message))
    case Raise(w, message) =>
      && w < |s.workers| && (s.workers[w].Executing? || s.workers[w].Uploading? || s.workers[w].Committed?)
      && s' == Goto(s, w, Raising(s.workers[w].lease, message))
    case ReadAfterFailure(w) =>
      && w < |s.workers| && s.workers[w].Failing?
      && var at := s.workers[w]; var seen := SeenState(s, at.lease);
      s' == Goto(s, w, if seen.Some? && !seen.value.Terminal()
                       then FailCommit(at.lease, at.target, at.message, seen.value) else Reporting(at.lease))
    case CommitFailure(w) =>
      && w < |s.workers| && s.workers[w].FailCommit?
      && var at := s.workers[w];
      s' == Goto(Perform(s, MoveOp(at.lease, at.target, Some(at.message), at.seen)), w, Reporting(at.lease))
    case ReadAfterCrash(w) =>
      && w < |s.workers| && s.workers[w].Raising?
      && var at := s.workers[w]; var seen := SeenState(s, at.lease);
      s' == Goto(s, w, if seen.Some? && seen.value.Terminal()
                       then Reporting(at.lease) else CrashCommit(at.lease, at.message))
    case RecordCrash(w) =>
      && w < |s.workers| && s.workers[w].CrashCommit?
      && var at := s.workers[w];
      s' == Goto(Perform(s, OpCrash(at.lease.attempt, at.message, Some(at.lease.owner), Some(at.lease.token))),
                 w, Reporting(at.lease))
    case EndIteration(w) =>
      && w < |s.workers| && (s.workers[w].Reporting? || s.workers[w].Committed?)
      && s' == Goto(s, w, Idle)
  }

  ghost predicate Init(s: Pool) {
    && s.db == Db(map[], [], map[])
    && s.issued == map[] && s.lives == map[] && s.nextLife == 0 && s.buried == {}
    && forall w | 0 <= w < |s.workers| :: s.workers[w] == Idle
  }

  // ---------- runs ----------

  ghost predicate IsRun(states: seq<Pool>, steps: seq<Step>) {
    && |states| == |steps| + 1
    && forall i | 0 <= i < |steps| :: Next(states[i], steps[i], states[i + 1])
  }

  ghost predicate Leads(s: Pool, s': Pool) {
    exists states, steps :: IsRun(states, steps) && states[0] == s && states[|steps|] == s'
  }

  ghost predicate Reachable(s: Pool) {
    exists start :: Init(start) && Leads(start, s)
  }

  lemma LeadsHere(s: Pool)
    ensures Leads(s, s)
  {
    var steps: seq<Step> := [];
    assert IsRun([s], steps) && [s][|steps|] == s;
  }

  lemma LeadsFurther(s: Pool, middle: Pool, step: Step, s': Pool)
    requires Leads(s, middle) && Next(middle, step, s')
    ensures Leads(s, s')
  {
    var states, steps :| IsRun(states, steps) && states[0] == s && states[|steps|] == middle;
    Appended(states, steps, step, s');
  }

  lemma Appended(states: seq<Pool>, steps: seq<Step>, step: Step, s': Pool)
    requires IsRun(states, steps) && Next(states[|steps|], step, s')
    ensures Leads(states[0], s')
  {
    var states', steps' := states + [s'], steps + [step];
    forall i | 0 <= i < |steps'|
      ensures Next(states'[i], steps'[i], states'[i + 1])
    {
      if i < |steps| {
        assert states'[i] == states[i] && states'[i + 1] == states[i + 1] && steps'[i] == steps[i];
      }
    }
    assert IsRun(states', steps') && states'[0] == states[0] && states'[|steps'|] == s';
  }

  lemma LeadsOn(s: Pool, middle: Pool, s': Pool)
    requires Leads(s, middle) && Leads(middle, s')
    ensures Leads(s, s')
  {
    var states, steps :| IsRun(states, steps) && states[0] == middle && states[|steps|] == s';
    for k := 0 to |steps|
      invariant Leads(s, states[k])
    {
      LeadsFurther(s, states[k], steps[k], states[k + 1]);
    }
  }
}
