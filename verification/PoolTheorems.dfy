/** What every run of the worker pool guarantees. */
module PoolTheorems {
  import opened Outcomes
  import opened QueueTables
  import opened QueueSpec
  import opened OutboxSpec
  import opened AttemptLife
  import opened WorkerPool
  import opened PoolInvariant

  // ---------- fencing ----------

  // Issued once, and no row carries it any more.
  ghost predicate Dead(s: Pool, t: Token) {
    t in s.issued && forall a | a in s.db.jobs :: s.db.jobs[a].token != Some(t)
  }

  // A token only ever sits on the row it was issued for.
  lemma DeadExactly(s: Pool, t: Token)
    requires Inv(s) && t in s.issued
    ensures Dead(s, t) <==> s.issued[t].attempt !in s.db.jobs || s.db.jobs[s.issued[t].attempt].token != Some(t)
  {
    forall a | a in s.db.jobs && s.db.jobs[a].token == Some(t)
      ensures a == s.issued[t].attempt
    {
      assert Tied(s, a);
    }
  }

  // A step puts no token on a row but a fresh one.
  lemma TokenOrigin(s: Pool, step: Step, s': Pool, a: AttemptId)
    requires Effect(s, step, s') && Asked(s, step)
    requires a in s'.db.jobs && s'.db.jobs[a].token.Some?
    ensures (a in s.db.jobs && s.db.jobs[a].token == s'.db.jobs[a].token) || s'.db.jobs[a].token.value !in s.issued
  {
    match Command(s, step)
    case Some(op) =>
      assert s'.db == Apply(s.db, op, s.now);
      CommandTokens(s.db, op, s.now, a);
    case None => if step.Outbox? { OutboxQuiet(s.db, step.statement, s.now); }
  }

  lemma CommandTokens(db: Db, op: QueueOp, now: Millis, a: AttemptId)
    ensures var jobs' := Apply(db, op, now).jobs;
            a in jobs' && jobs'[a].token.Some? ==>
              || (a in db.jobs && db.jobs[a].token == jobs'[a].token)
              || (op.OpAcquire? && jobs'[a].token == Some(op.freshToken))
  {
    NextLeaseIsLeast(db.jobs, now);
  }

  lemma DeadStaysDead(s: Pool, step: Step, s': Pool, t: Token)
    requires Inv(s) && Next(s, step, s') && Dead(s, t)
    ensures Dead(s', t)
  {
    StepEffect(s, step, s');
    StepIssues(s, step, s');
    forall a | a in s'.db.jobs
      ensures s'.db.jobs[a].token != Some(t)
    {
      if s'.db.jobs[a].token.Some? { TokenOrigin(s, step, s', a); }
    }
  }

  lemma {:induction false} DeadLater(states: seq<Pool>, steps: seq<Step>, k: nat, j: nat, t: Token)
    requires IsRun(states, steps) && Inv(states[0]) && k <= j < |states| && Dead(states[k], t)
    ensures Dead(states[j], t)
  {
    InvRun(states, steps);
    for i := k to j
      invariant Dead(states[i], t)
    {
      DeadStaysDead(states[i], steps[i], states[i + 1], t);
    }
  }

  predicate GuardedBy(op: QueueOp, t: Token) {
    (op.OpRefresh? || op.OpTransition? || op.OpCrash?) && op.token == Some(t)
  }

  // The store raises QueueError.
  predicate Refused(db: Db, op: QueueOp, now: Millis)
    requires op.OpRefresh? || op.OpTransition? || op.OpCrash?
  {
    match op
    case OpRefresh(a, owner, token, timeout) => Refreshed(db.jobs, a, owner, token, timeout, now).Err?
    case OpTransition(a, target, note, expected, owner, token) =>
      Transitioned(db.jobs, a, target, note, expected, owner, token, now).Err?
    case OpCrash(a, error, owner, token) => Crashed(db, a, error, owner, token, now).Err?
  }

  /**
   Fencing over whole runs. Once the attempt of a token carries another token or none,
   every later guarded call with that token is refused and changes nothing, whatever
   the caller, the attempt it names and the rest of its arguments.
   */
  lemma {:induction false} Fencing(states: seq<Pool>, steps: seq<Step>, i: nat, j: nat, t: Token, op: QueueOp)
    requires IsRun(states, steps) && Init(states[0]) && i <= j < |states|
    requires t in states[i].issued
    requires var a := states[i].issued[t].attempt;
             a !in states[i].db.jobs || states[i].db.jobs[a].token != Some(t)
    requires GuardedBy(op, t)
    ensures Refused(states[j].db, op, states[j].now)
    ensures Apply(states[j].db, op, states[j].now) == states[j].db
  {
    InitInv(states[0]);
    InvRun(states, steps);
    DeadExactly(states[i], t);
    DeadLater(states, steps, i, j, t);
    StaleTokenRefused(states[j].db, op, states[j].now);
  }

  // ---------- terminal commits ----------

  // Step `step` is worker `w` asking for the end of its own lease.
  ghost predicate Releases(s: Pool, step: Step, a: AttemptId) {
    && (step.CommitSuccess? || step.CommitFailure? || step.RecordCrash?)
    && step.w < |s.workers| && !s.workers[step.w].Idle?
    && a in s.db.jobs && s.workers[step.w].lease.attempt == a
    && s.db.jobs[a].token == Some(s.workers[step.w].lease.token)
  }

  /**
   A row life gets at most one terminal commit. It comes from the worker that holds the
   newest token issued in that life, or from the acquire loop on a flagged row.
   */
  lemma CommitAuthority(s: Pool, step: Step, s': Pool, a: AttemptId)
    requires Reachable(s) && Next(s, step, s')
    requires a in s.db.jobs && a in s'.db.jobs && !s.db.jobs[a].state.Terminal() && s'.db.jobs[a].state.Terminal()
    ensures a in s.lives && s.lives[a].commits == 0
    ensures || (Releases(s, step, a) && s.lives[a].newest == Some(s.workers[step.w].lease.token))
            || (step.TakeLease? && s.db.jobs[a].cancel && s'.db.jobs[a].state == Cancelled)
  {
    InvReachable(s);
    assert RowInv(s.db.jobs[a], s.lives[a], s.now);
    StepEffect(s, step, s');
    CommitEffect(s, step, s', a);
    if !step.TakeLease? { EndsIsRelease(s, step, a); }
  }

  lemma CommitEffect(s: Pool, step: Step, s': Pool, a: AttemptId)
    requires Effect(s, step, s') && Asked(s, step)
    requires a in s.db.jobs && a in s'.db.jobs && !s.db.jobs[a].state.Terminal() && s'.db.jobs[a].state.Terminal()
    ensures if step.TakeLease? then s.db.jobs[a].cancel && s'.db.jobs[a].state == Cancelled
            else Command(s, step).Some? && Ends(s.db, Command(s, step).value, a)
  {
    match Command(s, step)
    case Some(op) =>
      assert s'.db == Apply(s.db, op, s.now);
      CommandCommits(s.db, op, s.now, a);
    case None =>
  }

  lemma CommandCommits(db: Db, op: QueueOp, now: Millis, a: AttemptId)
    requires a in db.jobs && a in Apply(db, op, now).jobs
    requires !db.jobs[a].state.Terminal() && Apply(db, op, now).jobs[a].state.Terminal()
    ensures if op.OpAcquire? then db.jobs[a].cancel && Apply(db, op, now).jobs[a].state == Cancelled else Ends(db, op, a)
  {
    NextLeaseIsLeast(db.jobs, now);
  }

  lemma OneCommit(s: Pool, a: AttemptId)
    requires Reachable(s) && a in s.db.jobs
    ensures a in s.lives && s.lives[a].commits == (if s.db.jobs[a].state.Terminal() then 1 else 0)
  {
    InvReachable(s);
    assert RowInv(s.db.jobs[a], s.lives[a], s.now);
  }

  // ---------- concurrency bound ----------

  // The attempts that a token of the running process holds.
  function HeldHere(s: Pool): set<AttemptId> {
    set a | a in s.db.jobs && s.db.jobs[a].token.Some? && s.db.jobs[a].token.value in s.issued
            && s.issued[s.db.jobs[a].token.value].epoch == s.epoch
  }

  /** A live token of this process is in the hands of the worker it was issued to, inside its iteration. */
  lemma LiveTokenHasItsWorker(s: Pool, t: Token)
    requires Reachable(s) && t in s.issued && s.issued[t].epoch == s.epoch && !Dead(s, t)
    ensures var w := s.issued[t].worker;
            w < |s.workers| && s.workers[w].Holding() && s.workers[w].lease.token == t
  {
    InvReachable(s);
    DeadExactly(s, t);
    assert Tied(s, s.issued[t].attempt);
  }

  /** So an iteration that has ended, or that is only reporting, leaves its token dead. */
  lemma IterationEndsDead(s: Pool, step: Step, s': Pool, w: nat)
    requires Reachable(s) && Next(s, step, s') && !step.Restart?
    requires w < |s.workers| && s.workers[w].Holding()
    requires w < |s'.workers| && !s'.workers[w].Holding()
    ensures Dead(s', s.workers[w].lease.token)
  {
    InvReachable(s);
    InvStep(s, step, s');
    StepEffect(s, step, s');
    StepIssues(s, step, s');
    EpochStays(s, step, s');
    NotHeldIsDead(s', s.workers[w].lease.token);
  }

  lemma EpochStays(s: Pool, step: Step, s': Pool)
    requires Next(s, step, s') && !step.Restart?
    ensures s'.epoch == s.epoch && |s'.workers| == |s.workers|
  {
  }

  lemma NotHeldIsDead(s: Pool, t: Token)
    requires Inv(s) && t in s.issued && s.issued[t].epoch == s.epoch
    requires var w := s.issued[t].worker; w < |s.workers| ==> !s.workers[w].Holding()
    ensures Dead(s, t)
  {
    DeadExactly(s, t);
    var a := s.issued[t].attempt;
    if a in s.db.jobs {
      assert Tied(s, a);
    }
  }

  lemma {:induction false} Pigeonhole(pool: set<AttemptId>, slot: map<AttemptId, nat>, n: nat)
    requires pool <= slot.Keys && forall a | a in pool :: slot[a] < n
    requires forall a, b | a in pool && b in pool && a != b :: slot[a] != slot[b]
    ensures |pool| <= n
    decreases n
  {
    if n == 0 {
      assert pool == {};
    } else if a :| a in pool && slot[a] == n - 1 {
      Pigeonhole(pool - {a}, slot, n - 1);
    } else {
      Pigeonhole(pool, slot, n - 1);
    }
  }

  /** At most N attempts are leased to this process, N being its number of workers. */
  lemma ConcurrencyBound(s: Pool)
    requires Reachable(s)
    ensures |HeldHere(s)| <= |s.workers|
    ensures forall a, b | a in HeldHere(s) && b in HeldHere(s) && a != b ::
              s.issued[s.db.jobs[a].token.value].worker != s.issued[s.db.jobs[b].token.value].worker
  {
    InvReachable(s);
    var held := HeldHere(s);
    forall a | a in held
      ensures Bound(s, a, s.issued[s.db.jobs[a].token.value].worker)
    {
      assert Tied(s, a);
    }
    Pigeonhole(held, map a | a in held :: s.issued[s.db.jobs[a].token.value].worker, |s.workers|);
  }

  // ---------- crash budget ----------

  lemma CrashBudget(s: Pool, a: AttemptId)
    requires Reachable(s) && a in s.db.jobs
    ensures a in s.lives
    ensures s.db.jobs[a].state == Queued ==> s.db.jobs[a].attempts < 3
    ensures s.lives[a].requeues <= 2
    ensures s.db.jobs[a].attempts <= 3 + s.lives[a].reclaims
  {
    InvReachable(s);
    assert RowInv(s.db.jobs[a], s.lives[a], s.now);
  }

  /** A dead letter was earned by at least three leases, and in that life the row is FAILED for good. */
  lemma DeadLetters(s: Pool, a: AttemptId)
    requires Reachable(s)
    ensures a in s.db.dlq ==> s.db.dlq[a].attempts >= 3
    ensures a in s.db.dlq <==> exists id: nat :: (a, id) in s.buried
    ensures forall id: nat | (a, id) in s.buried && a in s.db.jobs && a in s.lives && s.lives[a].id == id ::
              s.db.jobs[a].state == Failed
  {
    InvReachable(s);
    if id: nat :| (a, id) in s.buried {
      assert (a, id).0 in s.db.dlq;
    }
  }

  // ---------- lease columns, exclusivity ----------

  lemma LeaseColumns(s: Pool, a: AttemptId)
    requires Reachable(s) && a in s.db.jobs
    ensures var r := s.db.jobs[a];
            if r.state.Held() then r.owner.Some? && r.token.Some? && r.expires.Some?
            else r.owner.None? && r.token.None? && r.expires.None?
  {
    InvReachable(s);
    assert RowInv(s.db.jobs[a], s.lives[a], s.now);
  }

  // A request to end the lease of row `a` under its own token.
  predicate Ends(db: Db, op: QueueOp, a: AttemptId) {
    && ((op.OpTransition? && op.target.Terminal()) || op.OpCrash?)
    && op.attempt == a && a in db.jobs && (op.token.Some? ==> db.jobs[a].token == op.token)
  }

  lemma CommandKeepsLive(db: Db, op: QueueOp, now: Millis, a: AttemptId)
    requires a in db.jobs && Shaped(db.jobs[a]) && Supported(op)
    requires db.jobs[a].state.Held() && db.jobs[a].expires.Some? && now < db.jobs[a].expires.value
    requires !Ends(db, op, a)
    ensures var jobs' := Apply(db, op, now).jobs;
            && a in jobs' && jobs'[a].state.Held()
            && jobs'[a].token == db.jobs[a].token && jobs'[a].owner == db.jobs[a].owner
  {
    NextLeaseIsLeast(db.jobs, now);
  }

  lemma EndsIsRelease(s: Pool, step: Step, a: AttemptId)
    requires Asked(s, step) && Command(s, step).Some? && Ends(s.db, Command(s, step).value, a)
    ensures Releases(s, step, a)
  {
  }

  lemma OnlyTheHolderEnds(s: Pool, step: Step, s': Pool, a: AttemptId)
    requires Inv(s) && Next(s, step, s')
    requires a in s.db.jobs && s.db.jobs[a].state.Held()
    requires s.db.jobs[a].expires.Some? && s.now < s.db.jobs[a].expires.value
    requires !Releases(s, step, a)
    ensures a in s'.db.jobs && s'.db.jobs[a].state.Held()
    ensures s'.db.jobs[a].token == s.db.jobs[a].token && s'.db.jobs[a].owner == s.db.jobs[a].owner
  {
    assert RowInv(s.db.jobs[a], s.lives[a], s.now);
    StepEffect(s, step, s');
    if Command(s, step).Some? && Ends(s.db, Command(s, step).value, a) { EndsIsRelease(s, step, a); }
    LiveEffect(s, step, s', a);
  }

  lemma LiveEffect(s: Pool, step: Step, s': Pool, a: AttemptId)
    requires Effect(s, step, s')
    requires a in s.db.jobs && Shaped(s.db.jobs[a]) && s.db.jobs[a].state.Held() && s.now < s.db.jobs[a].expires.value
    requires Command(s, step).Some? ==> !Ends(s.db, Command(s, step).value, a)
    ensures a in s'.db.jobs && s'.db.jobs[a].state.Held()
    ensures s'.db.jobs[a].token == s.db.jobs[a].token && s'.db.jobs[a].owner == s.db.jobs[a].owner
  {
    match Command(s, step)
    case Some(op) =>
      assert s'.db == Apply(s.db, op, s.now);
      CommandKeepsLive(s.db, op, s.now, a);
    case None =>
      if step.Outbox? { OutboxOpChanges(s.db, step.statement, s.now, a); }
  }

  /** Exclusivity: a lease that is kept alive stays with its holder until the holder gives it up. */
  lemma {:induction false} Exclusivity(states: seq<Pool>, steps: seq<Step>, i: nat, j: nat, a: AttemptId)
    requires IsRun(states, steps) && Init(states[0]) && i <= j < |states|
    requires a in states[i].db.jobs && states[i].db.jobs[a].state.Held()
    requires forall k | i <= k < j ::
               && !Releases(states[k], steps[k], a)
               && (a in states[k].db.jobs && states[k].db.jobs[a].expires.Some? ==>
                     states[k].now < states[k].db.jobs[a].expires.value)
    ensures a in states[j].db.jobs && states[j].db.jobs[a].state.Held()
    ensures states[j].db.jobs[a].token == states[i].db.jobs[a].token
    ensures states[j].db.jobs[a].owner == states[i].db.jobs[a].owner
  {
    InitInv(states[0]);
    InvRun(states, steps);
    for k := i to j
      invariant a in states[k].db.jobs && states[k].db.jobs[a].state.Held()
      invariant states[k].db.jobs[a].token == states[i].db.jobs[a].token
      invariant states[k].db.jobs[a].owner == states[i].db.jobs[a].owner
    {
      assert RowInv(states[k].db.jobs[a], states[k].lives[a], states[k].now);
      OnlyTheHolderEnds(states[k], steps[k], states[k + 1], a);
    }
  }

  // A step moves the expiry of a lease only to the full timeout of that lease from now.
  lemma ExpiryMoves(s: Pool, step: Step, s': Pool, a: AttemptId)
    requires Inv(s) && Next(s, step, s')
    requires a in s.db.jobs && a in s'.db.jobs && s.db.jobs[a].state.Held()
    requires s.db.jobs[a].token.Some? && s'.db.jobs[a].token == s.db.jobs[a].token
    ensures s.db.jobs[a].token.value in s.issued
    ensures || s'.db.jobs[a].expires == s.db.jobs[a].expires
            || s'.db.jobs[a].expires == Some(s.now + s.issued[s.db.jobs[a].token.value].timeout * SECOND)
  {
    assert Tied(s, a);
    StepEffect(s, step, s');
    ExpiryEffect(s, step, s', a);
  }

  lemma ExpiryEffect(s: Pool, step: Step, s': Pool, a: AttemptId)
    requires TokensInv(s) && Effect(s, step, s') && Asked(s, step)
    requires a in s.db.jobs && a in s'.db.jobs && s.db.jobs[a].state.Held()
    requires s.db.jobs[a].token.Some? && s'.db.jobs[a].token == s.db.jobs[a].token
    requires s.db.jobs[a].token.value in s.issued
    ensures || s'.db.jobs[a].expires == s.db.jobs[a].expires
            || s'.db.jobs[a].expires == Some(s.now + s.issued[s.db.jobs[a].token.value].timeout * SECOND)
  {
    match Command(s, step)
    case Some(op) =>
      assert s'.db == Apply(s.db, op, s.now);
      CommandExpiry(s.db, op, s.now, a);
      if op.OpRefresh? {
        var l := s.workers[step.w].lease;
        assert s.issued[l.token].timeout == l.timeout;
      }
    case None =>
      if step.Outbox? { assert s'.db == ApplyOutbox(s.db, step.statement, s.now); }
  }

  lemma CommandExpiry(db: Db, op: QueueOp, now: Millis, a: AttemptId)
    requires a in db.jobs && a in Apply(db, op, now).jobs && db.jobs[a].state.Held()
    requires db.jobs[a].token.Some? && Apply(db, op, now).jobs[a].token == db.jobs[a].token
    ensures var r := db.jobs[a]; var q := Apply(db, op, now).jobs[a];
            || q.expires == r.expires
            || (op.OpAcquire? && r.token == Some(op.freshToken))
            || (op.OpRefresh? && op.attempt == a && (op.token.Some? ==> r.token == op.token)
                && q.expires == Some(now + op.timeout * SECOND))
  {
    NextLeaseIsLeast(db.jobs, now);
  }

  /** A lease taken for T seconds is nobody else's for T seconds, refreshed or not, unless its holder ends it. */
  lemma {:induction false} LeaseLastsItsTimeout(states: seq<Pool>, steps: seq<Step>, i: nat, j: nat, a: AttemptId)
    requires IsRun(states, steps) && Init(states[0]) && i < j < |states|
    requires steps[i].TakeLease? && NextLease(states[i].db.jobs, states[i].now) == Some(a)
    requires forall k | i < k < j ::
               && !Releases(states[k], steps[k], a)
               && states[k].now < states[i].now + steps[i].timeout * SECOND
    ensures a in states[j].db.jobs && states[j].db.jobs[a].token == Some(steps[i].token)
  {
    InitInv(states[0]);
    InvRun(states, steps);
    var t, limit := steps[i].token, states[i].now + steps[i].timeout * SECOND;
    FreshLease(states[i], steps[i], states[i + 1], a);
    for k := i + 1 to j
      invariant a in states[k].db.jobs && states[k].db.jobs[a].token == Some(t) && states[k].db.jobs[a].state.Held()
      invariant states[k].db.jobs[a].expires.Some? && states[k].db.jobs[a].expires.value >= limit
      invariant t in states[k].issued && states[k].issued[t].timeout == steps[i].timeout
      invariant states[i].now <= states[k].now
    {
      OnlyTheHolderEnds(states[k], steps[k], states[k + 1], a);
      ExpiryMoves(states[k], steps[k], states[k + 1], a);
      StepEffect(states[k], steps[k], states[k + 1]);
      StepIssues(states[k], steps[k], states[k + 1]);
      assert RowInv(states[k + 1].db.jobs[a], states[k + 1].lives[a], states[k + 1].now);
    }
  }

  lemma FreshLease(s: Pool, step: Step, s': Pool, a: AttemptId)
    requires Inv(s) && Next(s, step, s') && step.TakeLease? && NextLease(s.db.jobs, s.now) == Some(a)
    ensures a in s'.db.jobs && s'.db.jobs[a].token == Some(step.token) && s'.db.jobs[a].state.Held()
    ensures s'.db.jobs[a].expires == Some(s.now + step.timeout * SECOND) && s'.now == s.now
    ensures step.token in s'.issued && s'.issued[step.token].timeout == step.timeout
  {
    StepEffect(s, step, s');
    StepIssues(s, step, s');
    GrantEffect(s, step, s', a);
  }

  lemma GrantEffect(s: Pool, step: Step, s': Pool, a: AttemptId)
    requires Effect(s, step, s') && step.TakeLease? && NextLease(s.db.jobs, s.now) == Some(a)
    ensures a in s'.db.jobs && s'.db.jobs[a].token == Some(step.token) && s'.db.jobs[a].state.Held()
    ensures s'.db.jobs[a].expires == Some(s.now + step.timeout * SECOND) && s'.now == s.now
  {
    NextLeaseIsLeast(s.db.jobs, s.now);
    assert s'.db.jobs == Acquired(s.db.jobs, WorkerName(step.w), step.token, step.timeout, s.now);
  }

  /** No open attempt is stuck: nothing can be leased exactly when every open attempt is flagged or under a live lease. */
  lemma NothingToLeaseExactly(s: Pool)
    requires Reachable(s)
    ensures NextLease(s.db.jobs, s.now) == None <==>
              forall a | a in s.db.jobs && !s.db.jobs[a].state.Terminal() ::
                s.db.jobs[a].cancel || (s.db.jobs[a].expires.Some? && s.now < s.db.jobs[a].expires.value)
  {
    InvReachable(s);
    NextLeaseIsLeast(s.db.jobs, s.now);
    forall a | a in s.db.jobs
      ensures Candidate(s.db.jobs, s.now, a) <==>
                !s.db.jobs[a].state.Terminal() && !s.db.jobs[a].cancel
                && !(s.db.jobs[a].expires.Some? && s.now < s.db.jobs[a].expires.value)
    {
      assert RowInv(s.db.jobs[a], s.lives[a], s.now);
    }
  }

  // ---------- cancellation ----------

  // The holder reports a crash and the row still has crash budget.
  ghost predicate CrashRequeues(s: Pool, step: Step, a: AttemptId) {
    step.RecordCrash? && Releases(s, step, a) && a in s.db.jobs && s.db.jobs[a].attempts < MAX_LOCAL_CRASHES
  }

  /**
   A cancel request on an open attempt is forgotten by exactly one step: the crash
   requeue. Every other step keeps the flag or brings the attempt to a terminal state.
   */
  lemma CancelForgottenExactly(s: Pool, step: Step, s': Pool, a: AttemptId)
    requires Inv(s) && Next(s, step, s')
    requires a in s.db.jobs && s.db.jobs[a].cancel
    ensures !s.db.jobs[a].state.Terminal() && a in s'.db.jobs && s'.db.jobs[a].attempts == s.db.jobs[a].attempts
    ensures !s'.db.jobs[a].cancel && !s'.db.jobs[a].state.Terminal() <==> CrashRequeues(s, step, a)
  {
    assert RowInv(s.db.jobs[a], s.lives[a], s.now);
    StepEffect(s, step, s');
    RequeueAsked(s, step, a);
    FlagEffect(s, step, s', a);
  }

  predicate AsksRequeue(db: Db, op: QueueOp, a: AttemptId) {
    op.OpCrash? && op.attempt == a && CrashAllowed(db.jobs, a, op.owner, op.token) && db.jobs[a].attempts < MAX_LOCAL_CRASHES
  }

  lemma RequeueAsked(s: Pool, step: Step, a: AttemptId)
    requires TokensInv(s) && Asked(s, step) && a in s.db.jobs
    ensures CrashRequeues(s, step, a) <==> Command(s, step).Some? && AsksRequeue(s.db, Command(s, step).value, a)
  {
    if step.RecordCrash? {
      assert Tied(s, a);
    }
  }

  lemma FlagEffect(s: Pool, step: Step, s': Pool, a: AttemptId)
    requires Effect(s, step, s')
    requires a in s.db.jobs && s.db.jobs[a].cancel && Shaped(s.db.jobs[a])
    ensures a in s'.db.jobs && s'.db.jobs[a].attempts == s.db.jobs[a].attempts
    ensures !s'.db.jobs[a].cancel && !s'.db.jobs[a].state.Terminal() <==>
              Command(s, step).Some? && AsksRequeue(s.db, Command(s, step).value, a)
  {
    var r := s.db.jobs[a];
    match Command(s, step)
    case Some(op) =>
      assert s'.db == Apply(s.db, op, s.now);
      QueueOpChanges(s.db, op, s.now, a);
      FlagDropped(r, s'.db.jobs[a], s.now);
      CommandRequeues(s.db, op, s.now, a);
    case None =>
      if step.Outbox? {
        assert s'.db == ApplyOutbox(s.db, step.statement, s.now);
        OutboxOpChanges(s.db, step.statement, s.now, a);
        FlagDropped(r, s'.db.jobs[a], s.now);
      }
  }

  lemma CommandRequeues(db: Db, op: QueueOp, now: Millis, a: AttemptId)
    requires a in db.jobs && a in Apply(db, op, now).jobs && Supported(op)
    requires db.jobs[a].cancel && !db.jobs[a].state.Terminal() && Shaped(db.jobs[a])
    ensures !Apply(db, op, now).jobs[a].cancel && !Apply(db, op, now).jobs[a].state.Terminal() <==>
              AsksRequeue(db, op, a)
  {
    NextLeaseIsLeast(db.jobs, now);
  }

  /** Over runs: until a crash requeue, a flagged attempt is never leased again and ends only in a terminal state. */
  lemma {:induction false} CancelSticks(states: seq<Pool>, steps: seq<Step>, i: nat, j: nat, a: AttemptId)
    requires IsRun(states, steps) && Init(states[0]) && i <= j < |states|
    requires a in states[i].db.jobs && states[i].db.jobs[a].cancel
    requires forall k | i <= k < j :: !CrashRequeues(states[k], steps[k], a)
    ensures || (a in states[j].db.jobs && states[j].db.jobs[a].cancel
                && states[j].db.jobs[a].attempts == states[i].db.jobs[a].attempts)
            || exists k :: i < k <= j && a in states[k].db.jobs && states[k].db.jobs[a].state.Terminal()
  {
    InitInv(states[0]);
    InvRun(states, steps);
    forall k | i <= k < j
      ensures FlagKept(states[k], states[k + 1], a)
    {
      if Flagged(states[k], a) {
        CancelForgottenExactly(states[k], steps[k], states[k + 1], a);
      }
    }
    FlagKeptAlong(states, i, j, a);
  }

  predicate Flagged(s: Pool, a: AttemptId) {
    a in s.db.jobs && s.db.jobs[a].cancel
  }

  predicate FlagKept(s: Pool, s': Pool, a: AttemptId) {
    Flagged(s, a) ==>
      && a in s'.db.jobs && s'.db.jobs[a].attempts == s.db.jobs[a].attempts
      && (s'.db.jobs[a].cancel || s'.db.jobs[a].state.Terminal())
  }

  lemma {:induction false} FlagKeptAlong(states: seq<Pool>, i: nat, j: nat, a: AttemptId)
    requires i <= j < |states| && Flagged(states[i], a)
    requires forall k | i <= k < j :: FlagKept(states[k], states[k + 1], a)
    ensures || (Flagged(states[j], a) && states[j].db.jobs[a].attempts == states[i].db.jobs[a].attempts)
            || exists k :: i < k <= j && a in states[k].db.jobs && states[k].db.jobs[a].state.Terminal()
  {
    var k := i;
    while k < j
      invariant i <= k <= j && Flagged(states[k], a)
      invariant states[k].db.jobs[a].attempts == states[i].db.jobs[a].attempts
    {
      assert FlagKept(states[k], states[k + 1], a);
      if !states[k + 1].db.jobs[a].cancel {
        return;
      }
      k := k + 1;
    }
  }

  /** The forgotten request: any flagged running attempt that crashes within budget can still be leased and SUCCEED. */
  lemma CancelledAttemptSucceeds(r: Row, a: AttemptId, owner: Owner, t: Token, second: Token, now: Millis)
    returns (final: Db)
    requires r.state == Running && r.cancel && r.owner == Some(owner) && r.token == Some(t) && r.attempts < MAX_LOCAL_CRASHES
    ensures var db := Db(map[a := r], [], map[]);
            var requeued := Apply(db, OpCrash(a, "boom", Some(owner), Some(t)), now);
            var leased := Apply(requeued, OpAcquire(owner, second, 120), now);
            var running := Apply(leased, OpTransition(a, Running, None, Some(Leased), Some(owner), Some(second)), now);
            final == Apply(running, OpTransition(a, Succeeded, None, Some(Running), Some(owner), Some(second)), now)
    ensures final.jobs.Keys == {a} && final.jobs[a].state == Succeeded
  {
    var db := Db(map[a := r], [], map[]);
    var requeued := Apply(db, OpCrash(a, "boom", Some(owner), Some(t)), now);
    assert requeued.jobs == map[a := CrashedRow(r, "boom", now)];
    assert IsNext(requeued.jobs, now, a);
    NextLeaseIsLeast(requeued.jobs, now);
    var leased := Apply(requeued, OpAcquire(owner, second, 120), now);
    assert leased.jobs[a] == GrantedRow(requeued.jobs[a], owner, second, 120, now);
    var running := Apply(leased, OpTransition(a, Running, None, Some(Leased), Some(owner), Some(second)), now);
    assert running.jobs[a].state == Running;
    final := Apply(running, OpTransition(a, Succeeded, None, Some(Running), Some(owner), Some(second)), now);
  }

  // ---------- the freshness check before a success ----------

  // `_ensure_current_attempt` passed for worker `w` and its lease.
  predicate CheckedAt(s: Pool, step: Step, w: nat, l: Lease) {
    step == CheckCurrent(w) && w < |s.workers| && s.workers[w] == Executing(l) && StillMine(s.db.jobs, l)
  }

  lemma UploadingEntered(s: Pool, step: Step, s': Pool, w: nat)
    requires Next(s, step, s') && w < |s'.workers| && s'.workers[w].Uploading?
    ensures w < |s.workers|
    ensures s.workers[w] == s'.workers[w] || CheckedAt(s, step, w, s'.workers[w].lease)
  {
  }

  lemma {:induction false} CheckedBefore(states: seq<Pool>, steps: seq<Step>, j: nat, w: nat) returns (i: nat)
    requires IsRun(states, steps) && Init(states[0]) && j < |states|
    requires w < |states[j].workers| && states[j].workers[w].Uploading?
    ensures i < j && CheckedAt(states[i], steps[i], w, states[j].workers[w].lease)
    ensures forall k | i < k <= j :: w < |states[k].workers| && states[k].workers[w] == states[j].workers[w]
  {
    UploadingEntered(states[j - 1], steps[j - 1], states[j], w);
    if states[j - 1].workers[w] == states[j].workers[w] {
      i := CheckedBefore(states, steps, j - 1, w);
    } else {
      i := j - 1;
    }
  }

  ghost predicate RunningUnder(jobs: Jobs, l: Lease) {
    l.attempt in jobs && jobs[l.attempt].state == Running && jobs[l.attempt].token == Some(l.token) && jobs[l.attempt].owner == Some(l.owner)
  }

  lemma LiveIsRunning(s: Pool, w: nat)
    requires Inv(s) && w < |s.workers| && s.workers[w].Uploading? && !Dead(s, s.workers[w].lease.token)
    ensures RunningUnder(s.db.jobs, s.workers[w].lease)
  {
    var l := s.workers[w].lease;
    DeadExactly(s, l.token);
    assert Tied(s, l.attempt);
  }

  /**
   Every SUCCEEDED that a worker commits was checked under the same lease: at the check the
   attempt was the newest of its build and not flagged, and from there to the commit its row
   was RUNNING under that owner and token without a break.
   */
  lemma CommitFollowsCheck(states: seq<Pool>, steps: seq<Step>, j: nat, w: nat) returns (i: nat)
    requires IsRun(states, steps) && Init(states[0]) && j < |steps| && steps[j] == CommitSuccess(w)
    requires w < |states[j].workers| && states[j].workers[w].Uploading?
    requires MoveAccepted(states[j], states[j].workers[w].lease, Succeeded, Running)
    ensures i < j && CheckedAt(states[i], steps[i], w, states[j].workers[w].lease)
    ensures forall k | i < k <= j :: RunningUnder(states[k].db.jobs, states[j].workers[w].lease)
  {
    InitInv(states[0]);
    InvRun(states, steps);
    var l := states[j].workers[w].lease;
    i := CheckedBefore(states, steps, j, w);
    MoveOutcome(states[j], l, Succeeded, None, Running);
    forall k | i < k <= j
      ensures RunningUnder(states[k].db.jobs, l)
    {
      if Dead(states[k], l.token) { DeadLater(states, steps, k, j, l.token); }
      LiveIsRunning(states[k], w);
    }
  }

  // ---------- secrets, freshness ----------

  /** No stored payload has a key that holds secret values or expiring URLs. */
  lemma NoSecretOnDisk(s: Pool)
    requires Reachable(s)
    ensures forall a | a in s.db.jobs :: s.db.jobs[a].payload.Keys !! TRANSIENT_KEYS
    ensures forall a | a in s.db.dlq :: s.db.dlq[a].payload.Keys !! TRANSIENT_KEYS
  {
    InvReachable(s);
    forall a | a in s.db.jobs
      ensures s.db.jobs[a].payload.Keys !! TRANSIENT_KEYS
    {
      assert RowInv(s.db.jobs[a], s.lives[a], s.now);
    }
  }

  lemma {:induction false} NewestOf(jobs: Jobs, pool: set<AttemptId>) returns (newest: AttemptId)
    requires pool != {} && pool <= jobs.Keys
    ensures newest in pool && forall b | b in pool :: jobs[b].rowid <= jobs[newest].rowid
    decreases |pool|
  {
    var some :| some in pool;
    newest := some;
    var rest := pool - {some};
    assert pool == rest + {some};
    if rest != {} {
      var other := NewestOf(jobs, rest);
      if jobs[some].rowid < jobs[other].rowid {
        newest := other;
      }
    }
  }

  /** Of the attempts of one build exactly one is current. */
  lemma OneCurrentAttempt(s: Pool, build: BuildId) returns (newest: AttemptId)
    requires Reachable(s) && exists a :: a in s.db.jobs && s.db.jobs[a].build == build
    ensures newest in s.db.jobs && s.db.jobs[newest].build == build
    ensures forall a | a in s.db.jobs && s.db.jobs[a].build == build :: Current(s.db.jobs, a) <==> a == newest
  {
    InvReachable(s);
    var pool := set a | a in s.db.jobs && s.db.jobs[a].build == build;
    var some :| some in s.db.jobs && s.db.jobs[some].build == build;
    assert some in pool;
    newest := NewestOf(s.db.jobs, pool);
  }
}
