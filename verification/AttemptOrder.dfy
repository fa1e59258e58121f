/**
 What runs of the pool owe to the order in which attempts were enqueued: who is the
 current attempt of a build, who is leased first, and what a stored row still says.
 */
module AttemptOrder {
  import opened Outcomes
  import opened QueueTables
  import opened QueueSpec
  import opened OutboxSpec
  import opened AttemptLife
  import opened WorkerPool
  import opened PoolInvariant
  import opened PoolTheorems

  // The step is the enqueue that inserts row `a`.
  predicate Inserts(s: Pool, step: Step, a: AttemptId) {
    step.Environment? && step.command.OpEnqueue? && step.command.attempt == a && a !in s.db.jobs
  }

  ghost predicate Stays(states: seq<Pool>, a: AttemptId, i: nat, j: nat)
    requires j < |states|
  {
    forall k | i <= k <= j :: a in states[k].db.jobs
  }

  // ---------- what a row keeps for life ----------

  predicate SameIdentity(r: Row, q: Row) {
    q.build == r.build && q.payload == r.payload && q.created == r.created && q.rowid == r.rowid
  }

  lemma IdentityStays(s: Pool, step: Step, s': Pool, a: AttemptId)
    requires Effect(s, step, s') && a in s.db.jobs && a in s'.db.jobs
    ensures SameIdentity(s.db.jobs[a], s'.db.jobs[a])
  {
    match Command(s, step)
    case Some(op) =>
      assert s'.db == Apply(s.db, op, s.now);
      QueueOpChanges(s.db, op, s.now, a);
    case None =>
      if step.Outbox? {
        assert s'.db == ApplyOutbox(s.db, step.statement, s.now);
        OutboxOpChanges(s.db, step.statement, s.now, a);
      }
  }

  lemma {:induction false} IdentityAlong(states: seq<Pool>, steps: seq<Step>, a: AttemptId, i: nat, j: nat)
    requires IsRun(states, steps) && Init(states[0]) && i <= j < |states| && Stays(states, a, i, j)
    ensures a in states[i].db.jobs && a in states[j].db.jobs && SameIdentity(states[i].db.jobs[a], states[j].db.jobs[a])
  {
    InitInv(states[0]);
    InvRun(states, steps);
    for k := i to j
      invariant SameIdentity(states[i].db.jobs[a], states[k].db.jobs[a])
    {
      StepEffect(states[k], steps[k], states[k + 1]);
      IdentityStays(states[k], steps[k], states[k + 1], a);
    }
  }

  // A row that appears was enqueued by this step, above all others.
  lemma OnlyEnqueueInserts(s: Pool, step: Step, s': Pool, a: AttemptId)
    requires Effect(s, step, s') && a !in s.db.jobs && a in s'.db.jobs
    ensures Inserts(s, step, a)
  {
    match Command(s, step)
    case Some(op) =>
      assert s'.db == Apply(s.db, op, s.now);
      if op.OpAcquire? { NextLeaseIsLeast(s.db.jobs, s.now); }
    case None =>
  }

  lemma InsertEffect(s: Pool, step: Step, s': Pool, a: AttemptId)
    requires Effect(s, step, s') && Inserts(s, step, a)
    ensures a in s'.db.jobs && s'.db.jobs.Keys == s.db.jobs.Keys + {a}
    ensures s'.db.jobs[a] == NewRow(step.command.build, step.command.payload, s.now, step.command.rowid)
    ensures AboveAllRowids(s.db.jobs, step.command.rowid)
    ensures forall b | b in s.db.jobs :: s'.db.jobs[b] == s.db.jobs[b]
  {
    assert s'.db == Apply(s.db, step.command, s.now);
  }

  lemma InsertedRow(states: seq<Pool>, steps: seq<Step>, i: nat, j: nat, a: AttemptId)
    requires IsRun(states, steps) && Init(states[0]) && i < j < |states|
    requires Inserts(states[i], steps[i], a) && Stays(states, a, i + 1, j)
    ensures a in states[j].db.jobs
    ensures SameIdentity(NewRow(steps[i].command.build, steps[i].command.payload, states[i].now, steps[i].command.rowid),
                         states[j].db.jobs[a])
  {
    InitInv(states[0]);
    InvRun(states, steps);
    StepEffect(states[i], steps[i], states[i + 1]);
    InsertEffect(states[i], steps[i], states[i + 1], a);
    IdentityAlong(states, steps, a, i + 1, j);
  }

  // ---------- the current attempt ----------

  /**
   Once a newer attempt of its build has been enqueued, an attempt is never current again
   as long as both rows remain: no freshness check of a worker passes for it.
   */
  lemma Superseded(states: seq<Pool>, steps: seq<Step>, i: nat, j: nat, a: AttemptId, b: AttemptId)
    requires IsRun(states, steps) && Init(states[0]) && i < j < |states|
    requires Inserts(states[i], steps[i], b) && Stays(states, b, i + 1, j)
    requires Stays(states, a, i, j) && states[i].db.jobs[a].build == steps[i].command.build
    ensures !Current(states[j].db.jobs, a)
    ensures forall l: Lease | l.attempt == a :: !StillMine(states[j].db.jobs, l)
    ensures j < |steps| && steps[j].CheckCurrent? ==> NotCheckedFor(states[j], steps[j], a)
  {
    InitInv(states[0]);
    InvRun(states, steps);
    StepEffect(states[i], steps[i], states[i + 1]);
    InsertEffect(states[i], steps[i], states[i + 1], b);
    IdentityAlong(states, steps, a, i, j);
    IdentityAlong(states, steps, b, i + 1, j);
    assert states[j].db.jobs[b].build == states[j].db.jobs[a].build;
    assert states[j].db.jobs[b].rowid > states[j].db.jobs[a].rowid;
    if j < |steps| && steps[j].CheckCurrent? { CheckIsMine(states[j], steps[j], states[j + 1]); }
  }

  predicate NotCheckedFor(s: Pool, step: Step, a: AttemptId)
    requires step.CheckCurrent?
  {
    step.w < |s.workers| && s.workers[step.w].Executing? && s.workers[step.w].lease.attempt != a
  }

  lemma CheckIsMine(s: Pool, step: Step, s': Pool)
    requires Next(s, step, s') && step.CheckCurrent?
    ensures step.w < |s.workers| && s.workers[step.w].Executing? && StillMine(s.db.jobs, s.workers[step.w].lease)
  {
  }

  // Until `j` the build gets no row after the one that step `i` inserts.
  predicate LastOfBuild(states: seq<Pool>, steps: seq<Step>, i: nat, j: nat)
    requires |states| == |steps| + 1 && i < j < |states| && steps[i].Environment? && steps[i].command.OpEnqueue?
  {
    forall k | i < k < j && steps[k].Environment? && steps[k].command.OpEnqueue? ::
      steps[k].command.attempt in states[k].db.jobs || steps[k].command.build != steps[i].command.build
  }

  /** The attempt of a build that was enqueued last is current, so its check asks only for its own row. */
  lemma {:induction false} LastInsertedIsCurrent(states: seq<Pool>, steps: seq<Step>, i: nat, j: nat, b: AttemptId)
    requires IsRun(states, steps) && Init(states[0]) && i < j < |states|
    requires Inserts(states[i], steps[i], b) && Stays(states, b, i + 1, j) && LastOfBuild(states, steps, i, j)
    ensures Current(states[j].db.jobs, b)
    ensures forall l: Lease | l.attempt == b ::
              StillMine(states[j].db.jobs, l) <==>
                var r := states[j].db.jobs[b];
                r.build == l.build && r.state == Running && r.owner == Some(l.owner) && r.token == Some(l.token) && !r.cancel
  {
    InitInv(states[0]);
    InvRun(states, steps);
    var build := steps[i].command.build;
    StepEffect(states[i], steps[i], states[i + 1]);
    InsertEffect(states[i], steps[i], states[i + 1], b);
    for k := i + 1 to j
      invariant b in states[k].db.jobs && Tops(states[k].db.jobs, b, build)
    {
      StepEffect(states[k], steps[k], states[k + 1]);
      StaysTop(states[k], steps[k], states[k + 1], b, build);
    }
  }

  ghost predicate Tops(jobs: Jobs, b: AttemptId, build: BuildId)
    requires b in jobs
  {
    jobs[b].build == build && forall c | c in jobs && jobs[c].build == build :: jobs[c].rowid <= jobs[b].rowid
  }

  lemma StaysTop(s: Pool, step: Step, s': Pool, b: AttemptId, build: BuildId)
    requires Effect(s, step, s') && b in s.db.jobs && b in s'.db.jobs && Tops(s.db.jobs, b, build)
    requires step.Environment? && step.command.OpEnqueue? ==>
               step.command.attempt in s.db.jobs || step.command.build != build
    ensures Tops(s'.db.jobs, b, build)
  {
    IdentityStays(s, step, s', b);
    forall c | c in s'.db.jobs && s'.db.jobs[c].build == build
      ensures s'.db.jobs[c].rowid <= s'.db.jobs[b].rowid
    {
      if c in s.db.jobs {
        IdentityStays(s, step, s', c);
      } else {
        OnlyEnqueueInserts(s, step, s', c);
        InsertEffect(s, step, s', c);
      }
    }
  }

  // ---------- first come, first served ----------

  /** While an attempt waits unflagged, no worker is given one that was enqueued later. */
  lemma FirstComeFirstServed(states: seq<Pool>, steps: seq<Step>, i: nat, k: nat, j: nat, a: AttemptId, b: AttemptId)
    requires IsRun(states, steps) && Init(states[0]) && i < j && k < j < |steps|
    requires Inserts(states[i], steps[i], a) && Stays(states, a, i + 1, j)
    requires Inserts(states[k], steps[k], b) && Stays(states, b, k + 1, j)
    requires states[i].now < states[k].now || (states[i].now == states[k].now && a < b)
    requires states[j].db.jobs[a].state == Queued && !states[j].db.jobs[a].cancel
    requires steps[j].TakeLease?
    ensures var w := steps[j].w;
            w < |states[j + 1].workers| && (states[j + 1].workers[w].Starting? ==> states[j + 1].workers[w].lease.attempt != b)
  {
    InsertedRow(states, steps, i, j, a);
    InsertedRow(states, steps, k, j, b);
    NextLeaseIsLeast(states[j].db.jobs, states[j].now);
    assert Candidate(states[j].db.jobs, states[j].now, a);
    TakesTheNext(states[j], steps[j], states[j + 1]);
  }

  lemma TakesTheNext(s: Pool, step: Step, s': Pool)
    requires Next(s, step, s') && step.TakeLease?
    ensures step.w < |s'.workers|
    ensures s'.workers[step.w].Starting? ==> NextLease(s.db.jobs, s.now) == Some(s'.workers[step.w].lease.attempt)
  {
  }

  // ---------- what the stored row and its dead letter tell ----------

  ghost predicate StoredPayload(given: Payload, stored: Payload) {
    && (forall key :: key in stored <==>
          key in given && key != "secrets" && key != "source_download_url" && key != "secret_env")
    && (forall key | key in stored :: stored[key] == given[key])
  }

  /** From its insertion to its deletion a row stores what was assigned, less the secrets and the expiring URL. */
  lemma PayloadKept(states: seq<Pool>, steps: seq<Step>, i: nat, j: nat, a: AttemptId)
    requires IsRun(states, steps) && Init(states[0]) && i < j < |states|
    requires Inserts(states[i], steps[i], a) && Stays(states, a, i + 1, j)
    ensures StoredPayload(steps[i].command.payload, states[j].db.jobs[a].payload)
    ensures states[j].db.jobs[a].build == steps[i].command.build && states[j].db.jobs[a].created == states[i].now
  {
    InsertedRow(states, steps, i, j, a);
    DurableIsStored(steps[i].command.payload);
  }

  lemma DurableIsStored(payload: Payload)
    ensures StoredPayload(payload, DurablePayload(payload))
  {
  }

  /** A dead letter is written by the crash report of the holder, says what its row and worker said then, and never changes. */
  lemma {:induction false} LetterTells(states: seq<Pool>, steps: seq<Step>, i: nat, j: nat, a: AttemptId)
    requires IsRun(states, steps) && Init(states[0]) && i < j < |states|
    requires a !in states[i].db.dlq && a in states[i + 1].db.dlq
    ensures Releases(states[i], steps[i], a) && steps[i].RecordCrash? && states[i].workers[steps[i].w].CrashCommit?
    ensures a in states[j].db.dlq
    ensures var r := states[i].db.jobs[a];
            states[j].db.dlq[a] == DeadLetter(r.build, r.payload, states[i].workers[steps[i].w].message, r.attempts, states[i].now)
    ensures states[i].db.jobs[a].attempts >= 3
  {
    InitInv(states[0]);
    InvRun(states, steps);
    StepEffect(states[i], steps[i], states[i + 1]);
    LetterWritten(states[i], steps[i], states[i + 1], a);
    for k := i + 1 to j
      invariant a in states[k].db.dlq && states[k].db.dlq[a] == states[i + 1].db.dlq[a]
    {
      StepEffect(states[k], steps[k], states[k + 1]);
      LetterStays(states[k], steps[k], states[k + 1], a);
    }
  }

  lemma LetterWritten(s: Pool, step: Step, s': Pool, a: AttemptId)
    requires Effect(s, step, s') && Asked(s, step) && a !in s.db.dlq && a in s'.db.dlq
    ensures Releases(s, step, a) && step.RecordCrash? && s.workers[step.w].CrashCommit?
    ensures var r := s.db.jobs[a];
            s'.db.dlq[a] == DeadLetter(r.build, r.payload, s.workers[step.w].message, r.attempts, s.now)
    ensures s.db.jobs[a].attempts >= 3
  {
    match Command(s, step)
    case Some(op) => assert s'.db == Apply(s.db, op, s.now);
    case None =>
  }

  lemma LetterStays(s: Pool, step: Step, s': Pool, a: AttemptId)
    requires Effect(s, step, s') && a in s.db.dlq
    ensures a in s'.db.dlq && s'.db.dlq[a] == s.db.dlq[a]
  {
    match Command(s, step)
    case Some(op) => assert s'.db == Apply(s.db, op, s.now);
    case None => if step.Outbox? { assert s'.db == ApplyOutbox(s.db, step.statement, s.now); }
  }
}
