/** The invariant of the worker pool, kept by every step. */
module PoolInvariant {
  import opened Outcomes
  import opened QueueTables
  import opened QueueSpec
  import opened OutboxSpec
  import opened AttemptLife
  import opened WorkerPool

  // ---------- the store call inside a step ----------

  function Command(s: Pool, step: Step): Option<QueueOp> {
    match step
    case Environment(op) => Some(op)
    case TakeLease(w, token, timeout) => Some(OpAcquire(WorkerName(w), token, timeout))
    case StartRunning(w) =>
      if w < |s.workers| && s.workers[w].Starting?
      then Some(MoveOp(s.workers[w].lease, Running, None, Leased)) else None
    case KeepAlive(w) =>
      if w < |s.workers| && !s.workers[w].Idle?
      then var l := s.workers[w].lease; Some(OpRefresh(l.attempt, l.owner, Some(l.token), l.timeout)) else None
    case CommitSuccess(w) =>
      if w < |s.workers| && s.workers[w].Uploading?
      then Some(MoveOp(s.workers[w].lease, Succeeded, None, Running)) else None
    case CommitFailure(w) =>
      if w < |s.workers| && s.workers[w].FailCommit?
      then var at := s.workers[w]; Some(MoveOp(at.lease, at.target, Some(at.message), at.seen)) else None
    case RecordCrash(w) =>
      if w < |s.workers| && s.workers[w].CrashCommit?
      then var at := s.workers[w]; Some(OpCrash(at.lease.attempt, at.message, Some(at.lease.owner), Some(at.lease.token)))
      else None
    case _ => None
  }

  // Same tables and histories; only workers and tokens may differ.
  predicate SameTables(s: Pool, s': Pool) {
    s'.db == s.db && s'.lives == s.lives && s'.nextLife == s.nextLife && s'.buried == s.buried && s'.now == s.now
  }

  // A step does its command, or its outbox statement, or lets time pass.
  ghost predicate Effect(s: Pool, step: Step, s': Pool) {
    match Command(s, step)
    case Some(op) =>
      && Supported(op) && SameTables(Perform(s, op), s')
      && (op.OpEnqueue? ==> AboveAllRowids(s.db.jobs, op.rowid))
    case None =>
      if step.Outbox? then SameTables(PerformOutbox(s, step.statement), s')
      else SameTables(s.(now := s'.now), s') && s.now <= s'.now
  }

  // Where in the worker loop the step stands, as far as its command goes.
  predicate Asked(s: Pool, step: Step) {
    && (step.Environment? ==> Unleased(step.command))
    && (step.TakeLease? ==> step.token !in s.issued)
    && (step.RecordCrash? ==> step.w < |s.workers| && s.workers[step.w].CrashCommit?)
  }

  lemma StepEffect(s: Pool, step: Step, s': Pool)
    requires TokensInv(s) && Next(s, step, s')
    ensures Effect(s, step, s') && Asked(s, step)
  {
  }

  lemma StepIssues(s: Pool, step: Step, s': Pool)
    requires Next(s, step, s')
    ensures step.TakeLease? && NextLease(s.db.jobs, s.now).Some? ==>
              s'.issued.Keys == s.issued.Keys + {step.token} && s'.issued[step.token].timeout == step.timeout
    ensures !step.TakeLease? ==> s'.issued == s.issued
    ensures forall t | t in s.issued :: t in s'.issued && s'.issued[t] == s.issued[t]
  {
  }

  // ---------- rows and their lives ----------

  ghost predicate RowsInv(s: Pool) {
    && s.lives.Keys == s.db.jobs.Keys
    && forall a | a in s.db.jobs :: RowInv(s.db.jobs[a], s.lives[a], s.now) && s.lives[a].id < s.nextLife
  }

  // Insertion order is a strict order: no rowid is shared.
  ghost predicate RowidsInv(jobs: Jobs) {
    forall a, b | a in jobs && b in jobs && a != b :: jobs[a].rowid != jobs[b].rowid
  }

  lemma RowidsPerform(db: Db, op: QueueOp, now: Millis)
    requires RowidsInv(db.jobs) && Supported(op)
    requires op.OpEnqueue? ==> AboveAllRowids(db.jobs, op.rowid)
    ensures RowidsInv(Apply(db, op, now).jobs)
  {
    var jobs' := Apply(db, op, now).jobs;
    forall a: AttemptId | a in jobs'
      ensures a in db.jobs ==> jobs'[a].rowid == db.jobs[a].rowid
      ensures a !in db.jobs ==> op.OpEnqueue? && a == op.attempt && jobs'[a].rowid == op.rowid
    {
      QueueOpChanges(db, op, now, a);
      if a !in db.jobs && !op.OpEnqueue? {
        NextLeaseIsLeast(db.jobs, now);
      }
    }
  }

  lemma RowsChange(s: Pool, db': Db, s': Pool)
    requires RowsInv(s)
    requires forall a: AttemptId :: RowNext(RowOf(s.db.jobs, a), RowOf(db'.jobs, a), s.now)
    requires s'.db.jobs == db'.jobs && s'.now == s.now && s'.nextLife == s.nextLife + 1
    requires s'.lives == NextLives(s.db.jobs, db'.jobs, s.lives, s.nextLife)
    ensures RowsInv(s')
  {
    forall a | a in db'.jobs
      ensures RowInv(s'.db.jobs[a], s'.lives[a], s'.now) && s'.lives[a].id < s'.nextLife
    {
      assert RowNext(RowOf(s.db.jobs, a), RowOf(db'.jobs, a), s.now);
      if a in s.db.jobs {
        RowInvStep(s.db.jobs[a], db'.jobs[a], s.lives[a], s.now);
      } else {
        RowInvStart(db'.jobs[a], s.nextLife, s.now);
      }
    }
  }

  lemma RowsPerform(s: Pool, op: QueueOp)
    requires RowsInv(s) && Supported(op)
    ensures RowsInv(Perform(s, op))
  {
    forall a: AttemptId { QueueOpChanges(s.db, op, s.now, a); }
    RowsChange(s, Apply(s.db, op, s.now), Perform(s, op));
  }

  lemma RowsPerformOutbox(s: Pool, op: OutboxOp)
    requires RowsInv(s)
    ensures RowsInv(PerformOutbox(s, op))
  {
    forall a: AttemptId { OutboxOpChanges(s.db, op, s.now, a); }
    RowsChange(s, ApplyOutbox(s.db, op, s.now), PerformOutbox(s, op));
  }

  // ---------- tokens and workers ----------

  // Worker `w` of this process holds the lease that row `a` carries.
  ghost predicate Bound(s: Pool, a: AttemptId, w: nat)
    requires a in s.db.jobs
  {
    && w < |s.workers| && s.workers[w].Holding()
    && var l := s.workers[w].lease; var r := s.db.jobs[a];
    && r.token == Some(l.token) && r.owner == Some(l.owner) && l.attempt == a && l.build == r.build
    && r.state == (if s.workers[w].Starting? then Leased else Running)
    && (s.workers[w].FailCommit? ==> s.workers[w].seen == Running)
  }

  ghost predicate Tied(s: Pool, a: AttemptId)
    requires a in s.db.jobs
  {
    s.db.jobs[a].token.Some? ==>
      && var t := s.db.jobs[a].token.value;
      && t in s.issued && s.issued[t].attempt == a && s.issued[t].epoch <= s.epoch
      && (s.issued[t].epoch == s.epoch ==> Bound(s, a, s.issued[t].worker))
  }

  ghost predicate TokensInv(s: Pool) {
    && (forall a | a in s.db.jobs :: Tied(s, a))
    && (forall w | 0 <= w < |s.workers| && !s.workers[w].Idle? ::
          var l := s.workers[w].lease;
          l.token in s.issued && s.issued[l.token] == Grantee(l.attempt, w, s.epoch, l.timeout))
    && (forall w | 0 <= w < |s.workers| && s.workers[w].FailCommit? :: !s.workers[w].seen.Terminal())
    && (forall w | 0 <= w < |s.workers| && (s.workers[w].Failing? || s.workers[w].FailCommit?) :: s.workers[w].target in {Failed, Cancelled, TimedOut})
  }

  // ---------- dead letters ----------

  ghost predicate LettersInv(s: Pool) {
    && (forall p | p in s.buried :: p.1 < s.nextLife && p.0 in s.db.dlq)
    && (forall p | p in s.buried && p.0 in s.db.jobs && p.0 in s.lives && s.lives[p.0].id == p.1 ::
          s.db.jobs[p.0].state == Failed)
    && (forall a | a in s.db.dlq ::
          && s.db.dlq[a].attempts >= MAX_LOCAL_CRASHES
          && s.db.dlq[a].payload.Keys !! TRANSIENT_KEYS
          && exists id: nat :: (a, id) in s.buried)
  }

  ghost predicate Inv(s: Pool) {
    RowsInv(s) && RowidsInv(s.db.jobs) && TokensInv(s) && LettersInv(s)
  }

  lemma InitInv(s: Pool)
    requires Init(s)
    ensures Inv(s)
  {
  }

  // ---------- rows ----------

  lemma RowsKept(p: Pool, s: Pool)
    requires RowsInv(p) && SameTables(p, s)
    ensures RowsInv(s)
  {
  }

  lemma RowsStep(s: Pool, step: Step, s': Pool)
    requires RowsInv(s) && Effect(s, step, s')
    ensures RowsInv(s')
  {
    match Command(s, step)
    case Some(op) =>
      RowsPerform(s, op);
      RowsKept(Perform(s, op), s');
    case None =>
      if step.Outbox? {
        RowsPerformOutbox(s, step.statement);
        RowsKept(PerformOutbox(s, step.statement), s');
      }
  }

  lemma RowidsStep(s: Pool, step: Step, s': Pool)
    requires RowidsInv(s.db.jobs) && Effect(s, step, s')
    ensures RowidsInv(s'.db.jobs)
  {
    match Command(s, step)
    case Some(op) => RowidsPerform(s.db, op, s.now);
    case None =>
  }

  // ---------- tokens ----------

  // An operation under a token that its attempt does not carry changes nothing.
  lemma StaleTokenRefused(db: Db, op: QueueOp, now: Millis)
    requires op.OpRefresh? || op.OpTransition? || op.OpCrash?
    requires op.token.Some? && (op.attempt in db.jobs ==> db.jobs[op.attempt].token != op.token)
    ensures Apply(db, op, now) == db
  {
  }

  // Everything a tie looks at.
  ghost predicate SameHold(r: Row, q: Row) {
    q.token == r.token && q.owner == r.owner && q.state == r.state && q.build == r.build
  }

  ghost predicate Quiet(jobs: Jobs, jobs': Jobs, except: AttemptId) {
    forall a | a in jobs' && jobs'[a].token.Some? && a != except :: a in jobs && SameHold(jobs[a], jobs'[a])
  }

  ghost predicate AllQuiet(jobs: Jobs, jobs': Jobs) {
    forall a | a in jobs' && jobs'[a].token.Some? :: a in jobs && SameHold(jobs[a], jobs'[a])
  }

  lemma TokensQuiet(s: Pool, s': Pool)
    requires TokensInv(s) && AllQuiet(s.db.jobs, s'.db.jobs)
    requires s'.epoch == s.epoch && s'.workers == s.workers && s'.issued == s.issued
    ensures TokensInv(s')
  {
    forall a | a in s'.db.jobs
      ensures Tied(s', a)
    {
      if s'.db.jobs[a].token.Some? {
        assert Tied(s, a);
      }
    }
  }

  // One worker moves and only its own row may change.
  lemma TokensMove(s: Pool, w: nat, at: Worker, s': Pool)
    requires TokensInv(s) && w < |s.workers| && !s.workers[w].Idle?
    requires Quiet(s.db.jobs, s'.db.jobs, s.workers[w].lease.attempt)
    requires s'.epoch == s.epoch && s'.issued == s.issued && s'.workers == s.workers[w := at]
    requires !at.Idle? ==> at.lease == s.workers[w].lease
    requires at.FailCommit? ==> !at.seen.Terminal()
    requires at.Failing? || at.FailCommit? ==> at.target in {Failed, Cancelled, TimedOut}
    requires var a := s.workers[w].lease.attempt;
             a in s'.db.jobs && s'.db.jobs[a].token.Some? ==>
               a in s.db.jobs && (if s'.db.jobs[a].token == Some(s.workers[w].lease.token) then Bound(s', a, w)
                                  else SameHold(s.db.jobs[a], s'.db.jobs[a]))
    ensures TokensInv(s')
  {
    forall a | a in s'.db.jobs
      ensures Tied(s', a)
    {
      if s'.db.jobs[a].token.Some? {
        assert a in s.db.jobs && Tied(s, a);
      }
    }
  }

  lemma AcquireEffect(s: Pool, w: nat, token: Token, timeout: int, a: AttemptId)
    requires a in s.db.jobs
    ensures var r := s.db.jobs[a];
            var q := Acquired(s.db.jobs, WorkerName(w), token, timeout, s.now)[a];
            if NextLease(s.db.jobs, s.now) == Some(a) then q == GrantedRow(r, WorkerName(w), token, timeout, s.now)
            else q == r || q.token.None?
  {
    NextLeaseIsLeast(s.db.jobs, s.now);
  }

  // Idle worker `w` takes row `target` under a token never issued before.
  lemma TokensGranted(s: Pool, w: nat, token: Token, timeout: int, target: Option<AttemptId>, s': Pool)
    requires TokensInv(s) && w < |s.workers| && s.workers[w].Idle? && token !in s.issued
    requires target.Some? ==> target.value in s.db.jobs
    requires s'.db.jobs.Keys == s.db.jobs.Keys && s'.epoch == s.epoch
    requires forall a | a in s.db.jobs && target != Some(a) ::
               s'.db.jobs[a] == s.db.jobs[a] || s'.db.jobs[a].token.None?
    requires match target
             case None => s'.workers == s.workers && s'.issued == s.issued
             case Some(a) =>
               var r := s.db.jobs[a]; var q := s'.db.jobs[a];
               && s'.workers == s.workers[w := Starting(Lease(a, r.build, WorkerName(w), token, timeout))]
               && s'.issued == s.issued[token := Grantee(a, w, s.epoch, timeout)]
               && q.owner == Some(WorkerName(w)) && q.token == Some(token) && q.state == Leased && q.build == r.build
    ensures TokensInv(s')
  {
    forall a | a in s'.db.jobs
      ensures Tied(s', a)
    {
      assert Tied(s, a);
    }
  }

  lemma TokensTake(s: Pool, w: nat, token: Token, timeout: int, s': Pool)
    requires TokensInv(s) && Next(s, TakeLease(w, token, timeout), s')
    ensures TokensInv(s')
  {
    forall a | a in s.db.jobs { AcquireEffect(s, w, token, timeout, a); }
    TokensGranted(s, w, token, timeout, NextLease(s.db.jobs, s.now), s');
  }

  // ---------- the guarded calls of a worker ----------

  lemma MoveOutcome(s: Pool, l: Lease, target: JobState, note: Option<string>, expected: JobState)
    requires expected != target
    ensures var db' := Apply(s.db, MoveOp(l, target, note, expected), s.now);
            if MoveAccepted(s, l, target, expected)
            then l.attempt in s.db.jobs
                 && db' == s.db.(jobs := s.db.jobs[l.attempt := MovedRow(s.db.jobs[l.attempt], target, note, s.now)])
            else db' == s.db
    ensures MoveAccepted(s, l, target, expected) <==>
              && l.attempt in s.db.jobs && s.db.jobs[l.attempt].state == expected
              && s.db.jobs[l.attempt].owner == Some(l.owner) && s.db.jobs[l.attempt].token == Some(l.token)
              && expected in LegalPrevious(target)
  {
  }

  lemma CrashOutcome(s: Pool, l: Lease, message: string)
    ensures var db' := Apply(s.db, OpCrash(l.attempt, message, Some(l.owner), Some(l.token)), s.now);
            if CrashAllowed(s.db.jobs, l.attempt, Some(l.owner), Some(l.token))
            then l.attempt in s.db.jobs
                 && db'.jobs == s.db.jobs[l.attempt := CrashedRow(s.db.jobs[l.attempt], message, s.now)]
            else db' == s.db
  {
  }

  // One accepted or refused `transition` of worker `w`, and where it goes from there.
  lemma TokensMoved(s: Pool, w: nat, target: JobState, note: Option<string>, expected: JobState, at: Worker, s': Pool)
    requires TokensInv(s) && w < |s.workers| && s.workers[w].Holding() && expected != target
    requires s' == Goto(Perform(s, MoveOp(s.workers[w].lease, target, note, expected)), w, at)
    requires at.Idle? || (at.lease == s.workers[w].lease && !at.FailCommit? && !at.Failing?)
    requires MoveAccepted(s, s.workers[w].lease, target, expected) ==>
               target.Terminal() || (target == Running && at.Executing?)
    requires !MoveAccepted(s, s.workers[w].lease, target, expected) ==>
               var a := s.workers[w].lease.attempt;
               a in s.db.jobs ==> !Bound(s, a, w)
    ensures TokensInv(s')
  {
    var l := s.workers[w].lease;
    MoveOutcome(s, l, target, note, expected);
    if l.attempt in s.db.jobs {
      assert Tied(s, l.attempt);
    }
    TokensMove(s, w, at, s');
  }

  // A bound worker's request is always accepted, so a refusal means that the lease is gone.
  lemma TokensStoreStep(s: Pool, step: Step, w: nat, s': Pool)
    requires TokensInv(s) && Next(s, step, s') && w < |s.workers|
    requires step == StartRunning(w) || step == CommitSuccess(w) || step == CommitFailure(w)
    ensures TokensInv(s')
  {
    var at := s.workers[w];
    match step {
      case StartRunning(_) =>
        MoveOutcome(s, at.lease, Running, None, Leased);
        TokensMoved(s, w, Running, None, Leased, s'.workers[w], s');
      case CommitSuccess(_) =>
        MoveOutcome(s, at.lease, Succeeded, None, Running);
        TokensMoved(s, w, Succeeded, None, Running, s'.workers[w], s');
      case CommitFailure(_) =>
        MoveOutcome(s, at.lease, at.target, Some(at.message), at.seen);
        TokensMoved(s, w, at.target, Some(at.message), at.seen, s'.workers[w], s');
    }
  }

  lemma TokensCrashed(s: Pool, w: nat, s': Pool)
    requires TokensInv(s) && Next(s, RecordCrash(w), s')
    ensures TokensInv(s')
  {
    var at := s.workers[w];
    CrashOutcome(s, at.lease, at.message);
    if at.lease.attempt in s.db.jobs {
      assert Tied(s, at.lease.attempt);
    }
    TokensMove(s, w, s'.workers[w], s');
  }

  lemma UnleasedQuiet(db: Db, op: QueueOp, now: Millis)
    requires Unleased(op) || op.OpRefresh?
    ensures AllQuiet(db.jobs, Apply(db, op, now).jobs)
  {
  }

  lemma OutboxQuiet(db: Db, op: OutboxOp, now: Millis)
    ensures AllQuiet(db.jobs, ApplyOutbox(db, op, now).jobs)
  {
  }

  // A worker moves without touching the store.
  lemma TokensLocal(s: Pool, step: Step, s': Pool)
    requires TokensInv(s) && Next(s, step, s')
    requires step.CheckCurrent? || step.Fail? || step.Raise? || step.EndIteration?
    ensures TokensInv(s')
  {
    var a := s.workers[step.w].lease.attempt;
    if a in s.db.jobs {
      assert Tied(s, a);
    }
    TokensMove(s, step.w, s'.workers[step.w], s');
  }

  lemma TokensRead(s: Pool, step: Step, s': Pool)
    requires TokensInv(s) && Next(s, step, s') && (step.ReadAfterFailure? || step.ReadAfterCrash?)
    ensures TokensInv(s')
  {
    var a := s.workers[step.w].lease.attempt;
    if a in s.db.jobs {
      assert Tied(s, a);
    }
    TokensMove(s, step.w, s'.workers[step.w], s');
  }

  // A step that moves no worker.
  lemma TokensTables(s: Pool, step: Step, s': Pool)
    requires TokensInv(s) && Next(s, step, s')
    requires step.Tick? || step.Environment? || step.Outbox? || step.KeepAlive?
    ensures TokensInv(s')
  {
    match step {
      case Tick(_) =>
      case Environment(op) => UnleasedQuiet(s.db, op, s.now);
      case Outbox(op) => OutboxQuiet(s.db, op, s.now);
      case KeepAlive(w) =>
        var l := s.workers[w].lease;
        UnleasedQuiet(s.db, OpRefresh(l.attempt, l.owner, Some(l.token), l.timeout), s.now);
    }
    TokensQuiet(s, s');
  }

  lemma TokensRestart(s: Pool, size: nat, s': Pool)
    requires TokensInv(s) && Next(s, Restart(size), s')
    ensures TokensInv(s')
  {
    forall a | a in s'.db.jobs ensures Tied(s', a) { assert Tied(s, a); }
  }

  lemma TokensStep(s: Pool, step: Step, s': Pool)
    requires TokensInv(s) && Next(s, step, s')
    ensures TokensInv(s')
  {
    match step
    case TakeLease(w, token, timeout) => TokensTake(s, w, token, timeout, s');
    case StartRunning(w) => TokensStoreStep(s, step, w, s');
    case CommitSuccess(w) => TokensStoreStep(s, step, w, s');
    case CommitFailure(w) => TokensStoreStep(s, step, w, s');
    case RecordCrash(w) => TokensCrashed(s, w, s');
    case Restart(size) => TokensRestart(s, size, s');
    case _ =>
      if step.Tick? || step.Environment? || step.Outbox? || step.KeepAlive? {
        TokensTables(s, step, s');
      } else if step.ReadAfterFailure? || step.ReadAfterCrash? {
        TokensRead(s, step, s');
      } else {
        TokensLocal(s, step, s');
      }
  }

  // ---------- dead letters ----------

  // A step on the jobs table that buries nobody.
  lemma LettersQuiet(s: Pool, op: QueueOp)
    requires RowsInv(s) && LettersInv(s) && Supported(op) && !op.OpCrash?
    ensures LettersInv(Perform(s, op))
  {
    var s' := Perform(s, op);
    assert s'.db.dlq == s.db.dlq;
    BuriedStay(s, op);
  }

  lemma BuriedStay(s: Pool, op: QueueOp)
    requires RowsInv(s) && LettersInv(s) && Supported(op)
    ensures var s' := Perform(s, op);
            forall p | p in s.buried && p.0 in s'.db.jobs && s'.lives[p.0].id == p.1 :: s'.db.jobs[p.0].state == Failed
  {
    var s' := Perform(s, op);
    forall p | p in s.buried && p.0 in s'.db.jobs && s'.lives[p.0].id == p.1
      ensures s'.db.jobs[p.0].state == Failed
    {
      QueueOpChanges(s.db, op, s.now, p.0);
      if p.0 in s.db.jobs {
        assert RowInv(s.db.jobs[p.0], s.lives[p.0], s.now);
        TerminalAbsorbs(s.db.jobs[p.0], s'.db.jobs[p.0], s.now);
      }
    }
  }

  lemma LettersCrash(s: Pool, op: QueueOp)
    requires RowsInv(s) && LettersInv(s) && op.OpCrash?
    ensures LettersInv(Perform(s, op))
  {
    var s' := Perform(s, op);
    BuriedStay(s, op);
    forall a | a in s'.db.dlq
      ensures s'.db.dlq[a].attempts >= MAX_LOCAL_CRASHES && s'.db.dlq[a].payload.Keys !! TRANSIENT_KEYS
      ensures exists id: nat :: (a, id) in s'.buried
    {
      if a in s.db.dlq {
        var id: nat :| (a, id) in s.buried;
        assert (a, id) in s'.buried;
      } else {
        assert RowInv(s.db.jobs[a], s.lives[a], s.now);
        assert (a, s.lives[a].id) in s'.buried;
      }
    }
  }

  lemma LettersPerform(s: Pool, op: QueueOp)
    requires RowsInv(s) && LettersInv(s) && Supported(op)
    ensures LettersInv(Perform(s, op))
  {
    if op.OpCrash? { LettersCrash(s, op); } else { LettersQuiet(s, op); }
  }

  lemma LettersPerformOutbox(s: Pool, op: OutboxOp)
    requires RowsInv(s) && LettersInv(s)
    ensures LettersInv(PerformOutbox(s, op))
  {
    assert PerformOutbox(s, op).db.dlq == s.db.dlq;
    BuriedStayInOutbox(s, op);
  }

  lemma BuriedStayInOutbox(s: Pool, op: OutboxOp)
    requires RowsInv(s) && LettersInv(s)
    ensures var s' := PerformOutbox(s, op);
            forall p | p in s.buried && p.0 in s'.db.jobs && s'.lives[p.0].id == p.1 :: s'.db.jobs[p.0].state == Failed
  {
    var s' := PerformOutbox(s, op);
    assert s'.db.jobs.Keys == s.db.jobs.Keys;
    forall p | p in s'.buried && p.0 in s'.db.jobs && s'.lives[p.0].id == p.1
      ensures s'.db.jobs[p.0].state == Failed
    {
      OutboxOpChanges(s.db, op, s.now, p.0);
      assert RowInv(s.db.jobs[p.0], s.lives[p.0], s.now);
      TerminalAbsorbs(s.db.jobs[p.0], s'.db.jobs[p.0], s.now);
    }
  }

  lemma LettersStep(s: Pool, step: Step, s': Pool)
    requires RowsInv(s) && LettersInv(s) && Effect(s, step, s')
    ensures LettersInv(s')
  {
    if Command(s, step).Some? {
      LettersPerform(s, Command(s, step).value);
    } else if step.Outbox? {
      LettersPerformOutbox(s, step.statement);
    }
  }

  /** Every step of the pool keeps the invariant. */
  lemma InvStep(s: Pool, step: Step, s': Pool)
    requires Inv(s) && Next(s, step, s')
    ensures Inv(s')
  {
    StepEffect(s, step, s');
    RowsStep(s, step, s');
    RowidsStep(s, step, s');
    TokensStep(s, step, s');
    LettersStep(s, step, s');
  }

  lemma {:induction false} InvRun(states: seq<Pool>, steps: seq<Step>)
    requires IsRun(states, steps) && Inv(states[0])
    ensures forall i | 0 <= i < |states| :: Inv(states[i])
  {
    for i := 0 to |steps|
      invariant forall j | 0 <= j <= i :: Inv(states[j])
    {
      InvStep(states[i], steps[i], states[i + 1]);
    }
  }

  /** So it holds in every reachable state. */
  lemma InvReachable(s: Pool)
    requires Reachable(s)
    ensures Inv(s)
  {
    var start :| Init(start) && Leads(start, s);
    var states, steps :| IsRun(states, steps) && states[0] == start && states[|steps|] == s;
    InitInv(states[0]);
    InvRun(states, steps);
  }
}
