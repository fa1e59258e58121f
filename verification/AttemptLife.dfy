/**
 What may happen to one attempt: the changes of its row, whichever operation makes
 them, and the counters of one row life (from its insertion to its deletion).
 */
module AttemptLife {
  import opened Outcomes
  import opened QueueTables
  import opened QueueSpec
  import opened OutboxSpec

  function RowOf(jobs: Jobs, a: AttemptId): Option<Row> {
    if a in jobs then Some(jobs[a]) else None
  }

  // ---------- the changes of one row ----------

  ghost predicate Flag(r: Row, q: Row, now: Millis) {
    !r.state.Terminal() && q == r.(cancel := true, updated := now)
  }

  ghost predicate Grant(r: Row, q: Row, now: Millis) {
    && Eligible(r, now) && !r.cancel
    && q.owner.Some? && q.token.Some? && q.expires.Some?
    && q == r.(state := Leased, owner := q.owner, token := q.token, expires := q.expires,
               attempts := r.attempts + 1, updated := now)
  }

  ghost predicate Sweep(r: Row, q: Row, now: Millis) {
    Eligible(r, now) && r.cancel && q == SweptRow(r, now)
  }

  ghost predicate Extend(r: Row, q: Row, now: Millis) {
    r.state.Held() && q.expires.Some? && q == r.(expires := q.expires, updated := now)
  }

  ghost predicate StartRun(r: Row, q: Row, now: Millis) {
    r.state == Leased && q == r.(state := Running, error := q.error, updated := now)
  }

  ghost predicate Finish(r: Row, q: Row, now: Millis) {
    !r.state.Terminal() && q.state.Terminal() && q == FinishedRow(r, q.state, q.error, now)
  }

  ghost predicate Requeue(r: Row, q: Row, now: Millis) {
    r.state.Held() && r.attempts < MAX_LOCAL_CRASHES && q == FinishedRow(r, Queued, q.error, now)
  }

  // The outbox touches only these two columns.
  ghost predicate Number(r: Row, q: Row, now: Millis) {
    r.cursor <= q.cursor && q == r.(cursor := q.cursor, updated := now)
  }

  ghost predicate RowNext(before: Option<Row>, after: Option<Row>, now: Millis) {
    match (before, after)
    case (None, None) => true
    case (None, Some(q)) => exists build, payload, rowid :: q == NewRow(build, payload, now, rowid)
    case (Some(r), None) => r.state.Terminal()
    case (Some(r), Some(q)) =>
      q == r || Flag(r, q, now) || Grant(r, q, now) || Sweep(r, q, now) || Extend(r, q, now)
      || StartRun(r, q, now) || Finish(r, q, now) || Requeue(r, q, now) || Number(r, q, now)
  }

  // What `transition` to QUEUED or LEASED does: the lease columns stay as they were.
  ghost predicate Relabel(r: Row, q: Row, now: Millis) {
    && ((r.state.Held() && q.state == Queued) || (r.state == Queued && q.state == Leased))
    && q == r.(state := q.state, error := q.error, updated := now)
  }

  // ---------- counters of one life ----------

  // `first` counts leases of a queued row, `reclaims` leases of an expired one.
  datatype Life = Life(id: nat, first: nat, reclaims: nat, requeues: nat, commits: nat, newest: Option<Token>)

  function NewLife(id: nat): Life {
    Life(id, 0, 0, 0, 0, None)
  }

  function Aged(life: Life, r: Row, q: Row): Life {
    if q.attempts > r.attempts then
      if r.state == Queued then life.(first := life.first + 1, newest := q.token)
      else life.(reclaims := life.reclaims + 1, newest := q.token)
    else if r.state != Queued && q.state == Queued then life.(requeues := life.requeues + 1)
    else if !r.state.Terminal() && q.state.Terminal() then life.(commits := life.commits + 1)
    else life
  }

  // Lease columns are set together, and only while a worker holds the attempt.
  ghost predicate Shaped(r: Row) {
    && (r.state.Held() ==> r.owner.Some? && r.token.Some? && r.expires.Some?)
    && (!r.state.Held() ==> r.owner.None? && r.token.None? && r.expires.None?)
    && (r.state.Terminal() ==> !r.cancel)
  }

  ghost predicate WithinBudget(r: Row, life: Life) {
    && r.attempts == life.first + life.reclaims
    && life.requeues < MAX_LOCAL_CRASHES
    && (r.state == Queued ==> life.first == life.requeues && r.attempts < MAX_LOCAL_CRASHES)
    && (r.state.Held() ==> life.first == life.requeues + 1)
    && (r.state.Terminal() ==> life.first <= life.requeues + 1)
  }

  ghost predicate RowInv(r: Row, life: Life, now: Millis) {
    && Shaped(r)
    && WithinBudget(r, life)
    && life.commits == (if r.state.Terminal() then 1 else 0)
    && (r.token.Some? ==> life.newest == r.token)
    && r.created <= r.updated <= now
    && r.payload.Keys !! TRANSIENT_KEYS
  }

  /** Every change keeps the row invariant and its counters. */
  lemma RowInvStep(r: Row, q: Row, life: Life, now: Millis)
    requires RowInv(r, life, now) && RowNext(Some(r), Some(q), now)
    ensures RowInv(q, Aged(life, r, q), now)
  {
  }

  lemma RowInvStart(r: Row, id: nat, now: Millis)
    requires RowNext(None, Some(r), now)
    ensures RowInv(r, NewLife(id), now)
  {
    var build, payload, rowid :| r == NewRow(build, payload, now, rowid);
  }

  // ---------- what a change can and cannot do ----------

  /** Terminal states absorb: no change but the outbox columns, until the row is deleted. */
  lemma TerminalAbsorbs(r: Row, q: Row, now: Millis)
    requires RowNext(Some(r), Some(q), now) && r.state.Terminal() && Shaped(r)
    ensures q == r.(cursor := q.cursor, updated := q.updated)
  {
  }

  /** A cancel flag is dropped by a terminal commit or by the crash requeue, and by nothing else. */
  lemma FlagDropped(r: Row, q: Row, now: Millis)
    requires RowNext(Some(r), Some(q), now) && r.cancel && Shaped(r)
    ensures !q.cancel <==> (q.state.Terminal() || Requeue(r, q, now))
    ensures q.attempts == r.attempts
  {
  }

  /** A live lease passes to nobody: its token goes only by a commit or a crash requeue. */
  lemma LiveLeaseStays(r: Row, q: Row, now: Millis)
    requires RowNext(Some(r), Some(q), now) && Shaped(r)
    requires r.state.Held() && now < r.expires.value
    ensures (q.token == r.token && q.owner == r.owner && q.state.Held()) || Finish(r, q, now) || Requeue(r, q, now)
    ensures q.state.Held() ==> !Grant(r, q, now) && !Sweep(r, q, now)
  {
  }

  // ---------- the operations make only these changes ----------

  lemma QueueOpChanges(db: Db, op: QueueOp, now: Millis, a: AttemptId)
    ensures var jobs' := Apply(db, op, now).jobs;
            || RowNext(RowOf(db.jobs, a), RowOf(jobs', a), now)
            || (!Supported(op) && op.attempt == a && a in db.jobs && a in jobs' && Relabel(db.jobs[a], jobs'[a], now))
  {
    var jobs := db.jobs;
    match op
    case OpEnqueue(build, b, payload, rowid) =>
    case OpCancel(build, only) =>
    case OpAcquire(owner, token, timeout) =>
      NextLeaseIsLeast(jobs, now);
      if a in jobs {
        var q := Acquired(jobs, owner, token, timeout, now)[a];
        assert q == jobs[a] || Grant(jobs[a], q, now) || Sweep(jobs[a], q, now);
      }
    case OpRefresh(b, owner, token, timeout) =>
    case OpTransition(b, target, note, expected, owner, token) =>
    case OpCrash(b, error, owner, token) =>
    case OpPruneTerminal(days) =>
  }

  /** An operation keeps the lease columns in step with the state exactly when it is not an effective `transition` to QUEUED or LEASED. */
  lemma ShapeKeptExactly(db: Db, op: QueueOp, now: Millis, a: AttemptId)
    requires a in db.jobs && Shaped(db.jobs[a]) && a in Apply(db, op, now).jobs
    ensures Shaped(Apply(db, op, now).jobs[a]) <==> Supported(op) || Apply(db, op, now).jobs[a] == db.jobs[a]
  {
    QueueOpChanges(db, op, now, a);
    if Supported(op) { ShapeStep(db.jobs[a], Apply(db, op, now).jobs[a], now); }
  }

  lemma ShapeStep(r: Row, q: Row, now: Millis)
    requires RowNext(Some(r), Some(q), now) && Shaped(r)
    ensures Shaped(q)
  {
  }

  lemma OutboxOpChanges(db: Db, op: OutboxOp, now: Millis, a: AttemptId)
    ensures RowNext(RowOf(db.jobs, a), RowOf(ApplyOutbox(db, op, now).jobs, a), now)
  {
  }
}
