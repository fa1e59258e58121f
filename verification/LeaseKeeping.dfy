/** A worker that refreshes in time keeps its lease: the heartbeat of `_refresh_lease` over whole runs. */
module LeaseKeeping {
  import opened Outcomes
  import opened QueueTables
  import opened QueueSpec
  import opened AttemptLife
  import opened WorkerPool
  import opened PoolInvariant
  import opened PoolTheorems

  // The worker of this step refreshes the lease of token `t`.
  predicate Refreshes(s: Pool, step: Step, t: Token) {
    step.KeepAlive? && step.w < |s.workers| && !s.workers[step.w].Idle? && s.workers[step.w].lease.token == t
  }

  // At `k` the lease that step `i` took was taken or refreshed less than its timeout ago.
  predicate InTime(states: seq<Pool>, steps: seq<Step>, i: nat, k: nat)
    requires |states| == |steps| + 1 && i < k < |states| && steps[i].TakeLease?
  {
    exists m :: i <= m < k && (m == i || Refreshes(states[m], steps[m], steps[i].token))
      && states[k].now < states[m].now + steps[i].timeout * 1000
  }

  predicate HeldUnder(s: Pool, a: AttemptId, owner: Owner, t: Token) {
    a in s.db.jobs && s.db.jobs[a].state.Held() && s.db.jobs[a].token == Some(t) && s.db.jobs[a].owner == Some(owner)
  }

  // The lease lasts at least as long as every refresh since `i` asked for.
  ghost predicate Lasting(states: seq<Pool>, steps: seq<Step>, i: nat, k: nat, a: AttemptId)
    requires |states| == |steps| + 1 && i < k < |states| && steps[i].TakeLease?
  {
    && a in states[k].db.jobs && states[k].db.jobs[a].expires.Some?
    && forall m | i <= m < k && (m == i || Refreshes(states[m], steps[m], steps[i].token)) ::
         states[m].now <= states[k].now
         && states[k].db.jobs[a].expires.value >= states[m].now + steps[i].timeout * 1000
  }

  /** A refresh by the worker that still holds the lease is accepted, and moves the expiry to exactly its timeout from now. */
  lemma HolderRefreshes(s: Pool, step: Step, s': Pool)
    requires Inv(s) && Next(s, step, s') && step.KeepAlive?
    requires var l := s.workers[step.w].lease; l.attempt in s.db.jobs && s.db.jobs[l.attempt].token == Some(l.token)
    ensures var l := s.workers[step.w].lease;
            && !Refused(s.db, OpRefresh(l.attempt, l.owner, Some(l.token), l.timeout), s.now)
            && l.attempt in s'.db.jobs && s'.db.jobs[l.attempt].expires == Some(s.now + l.timeout * 1000)
            && s'.now == s.now
  {
    var l := s.workers[step.w].lease;
    assert Tied(s, l.attempt);
    assert RowInv(s.db.jobs[l.attempt], s.lives[l.attempt], s.now);
    StepEffect(s, step, s');
    RefreshEffect(s, step, s');
  }

  lemma RefreshEffect(s: Pool, step: Step, s': Pool)
    requires Effect(s, step, s') && step.KeepAlive? && step.w < |s.workers| && !s.workers[step.w].Idle?
    requires var l := s.workers[step.w].lease; RefreshAllowed(s.db.jobs, l.attempt, l.owner, Some(l.token))
    ensures var l := s.workers[step.w].lease;
            && !Refused(s.db, OpRefresh(l.attempt, l.owner, Some(l.token), l.timeout), s.now)
            && l.attempt in s'.db.jobs && s'.db.jobs[l.attempt].expires == Some(s.now + l.timeout * 1000)
            && s'.now == s.now
  {
    var l := s.workers[step.w].lease;
    assert s'.db == Apply(s.db, OpRefresh(l.attempt, l.owner, Some(l.token), l.timeout), s.now);
  }

  /**
   As long as, at every moment, the lease was taken or refreshed by its worker less than
   its timeout ago, and nobody releases it, the attempt stays with that owner and token.
   */
  lemma {:induction false} KeptAlive(states: seq<Pool>, steps: seq<Step>, i: nat, j: nat, a: AttemptId)
    requires IsRun(states, steps) && Init(states[0]) && i < j < |states|
    requires steps[i].TakeLease? && NextLease(states[i].db.jobs, states[i].now) == Some(a)
    requires forall k | i < k < j :: !Releases(states[k], steps[k], a) && InTime(states, steps, i, k)
    ensures HeldUnder(states[j], a, WorkerName(steps[i].w), steps[i].token)
  {
    InitInv(states[0]);
    InvRun(states, steps);
    LeaseBegins(states, steps, i, a);
    forall k | i < k < j
      ensures Kept(states, steps, i, k, a) ==> Kept(states, steps, i, k + 1, a)
    {
      if Kept(states, steps, i, k, a) { KeptOn(states, steps, i, k, a); }
    }
    KeptAlong(states, steps, i, j, a);
  }

  lemma {:induction false} KeptAlong(states: seq<Pool>, steps: seq<Step>, i: nat, j: nat, a: AttemptId)
    requires |states| == |steps| + 1 && i < j < |states| && steps[i].TakeLease? && Kept(states, steps, i, i + 1, a)
    requires forall k | i < k < j :: Kept(states, steps, i, k, a) ==> Kept(states, steps, i, k + 1, a)
    ensures Kept(states, steps, i, j, a)
  {
    for k := i + 1 to j
      invariant Kept(states, steps, i, k, a)
    {
    }
  }

  ghost predicate Kept(states: seq<Pool>, steps: seq<Step>, i: nat, k: nat, a: AttemptId)
    requires |states| == |steps| + 1 && i < k < |states| && steps[i].TakeLease?
  {
    && HeldUnder(states[k], a, WorkerName(steps[i].w), steps[i].token)
    && Lasting(states, steps, i, k, a) && Issued(states[k], steps[i], a)
  }

  // The token still stands for this attempt and this timeout.
  predicate Issued(s: Pool, take: Step, a: AttemptId)
    requires take.TakeLease?
  {
    take.token in s.issued && s.issued[take.token].attempt == a && s.issued[take.token].timeout == take.timeout
  }

  lemma LeaseBegins(states: seq<Pool>, steps: seq<Step>, i: nat, a: AttemptId)
    requires |states| == |steps| + 1 && i < |steps| && Next(states[i], steps[i], states[i + 1])
    requires Inv(states[i]) && Inv(states[i + 1])
    requires steps[i].TakeLease? && NextLease(states[i].db.jobs, states[i].now) == Some(a)
    ensures Kept(states, steps, i, i + 1, a)
  {
    FreshLease(states[i], steps[i], states[i + 1], a);
    StepEffect(states[i], steps[i], states[i + 1]);
    GrantOwner(states[i], steps[i], states[i + 1], a);
    assert Tied(states[i + 1], a);
  }

  lemma GrantOwner(s: Pool, step: Step, s': Pool, a: AttemptId)
    requires Effect(s, step, s') && step.TakeLease? && NextLease(s.db.jobs, s.now) == Some(a)
    ensures a in s'.db.jobs && s'.db.jobs[a].owner == Some(WorkerName(step.w))
  {
    NextLeaseIsLeast(s.db.jobs, s.now);
    assert s'.db.jobs == Acquired(s.db.jobs, WorkerName(step.w), step.token, step.timeout, s.now);
  }

  lemma KeptOn(states: seq<Pool>, steps: seq<Step>, i: nat, k: nat, a: AttemptId)
    requires |states| == |steps| + 1 && i < k < |steps| && Next(states[k], steps[k], states[k + 1])
    requires Inv(states[k]) && Inv(states[k + 1]) && steps[i].TakeLease?
    requires Kept(states, steps, i, k, a) && !Releases(states[k], steps[k], a) && InTime(states, steps, i, k)
    ensures Kept(states, steps, i, k + 1, a)
  {
    NotExpired(states, steps, i, k, a);
    OneStepOn(states[k], steps[k], states[k + 1], a, steps[i]);
    LastsOn(states, steps, i, k, a);
  }

  lemma NotExpired(states: seq<Pool>, steps: seq<Step>, i: nat, k: nat, a: AttemptId)
    requires |states| == |steps| + 1 && i < k < |states| && steps[i].TakeLease?
    requires Lasting(states, steps, i, k, a) && InTime(states, steps, i, k)
    ensures states[k].now < states[k].db.jobs[a].expires.value
  {
  }

  lemma LastsOn(states: seq<Pool>, steps: seq<Step>, i: nat, k: nat, a: AttemptId)
    requires |states| == |steps| + 1 && i < k < |steps| && steps[i].TakeLease? && Lasting(states, steps, i, k, a)
    requires states[k].now <= states[k + 1].now && a in states[k + 1].db.jobs && states[k + 1].db.jobs[a].expires.Some?
    requires || states[k + 1].db.jobs[a].expires == states[k].db.jobs[a].expires
             || states[k + 1].db.jobs[a].expires.value == states[k].now + steps[i].timeout * 1000
    requires Refreshes(states[k], steps[k], steps[i].token) ==>
               states[k + 1].db.jobs[a].expires.value == states[k].now + steps[i].timeout * 1000
    ensures Lasting(states, steps, i, k + 1, a)
  {
  }

  lemma OneStepOn(s: Pool, step: Step, s': Pool, a: AttemptId, take: Step)
    requires Inv(s) && Inv(s') && Next(s, step, s') && take.TakeLease?
    requires HeldUnder(s, a, WorkerName(take.w), take.token) && Issued(s, take, a) && !Releases(s, step, a)
    requires s.db.jobs[a].expires.Some? && s.now < s.db.jobs[a].expires.value
    ensures HeldUnder(s', a, WorkerName(take.w), take.token) && Issued(s', take, a) && s.now <= s'.now
    ensures s'.db.jobs[a].expires.Some?
    ensures s'.db.jobs[a].expires == s.db.jobs[a].expires || s'.db.jobs[a].expires.value == s.now + take.timeout * 1000
    ensures Refreshes(s, step, take.token) ==> s'.db.jobs[a].expires.value == s.now + take.timeout * 1000
  {
    OnlyTheHolderEnds(s, step, s', a);
    ExpiryMoves(s, step, s', a);
    StepIssues(s, step, s');
    TimePasses(s, step, s');
    assert RowInv(s'.db.jobs[a], s'.lives[a], s'.now);
    if Refreshes(s, step, take.token) {
      HolderRefreshes(s, step, s');
    }
  }

  lemma TimePasses(s: Pool, step: Step, s': Pool)
    requires Next(s, step, s')
    ensures s.now <= s'.now
  {
  }
}
