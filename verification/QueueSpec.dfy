/**
 What each operation of `SQLiteQueueStore` does to the tables, as functions of the
 tables before it, the clock and the arguments.
 */
module QueueSpec {
  import opened Outcomes
  import opened QueueTables

  const MAX_LOCAL_CRASHES: nat := 3

  function LegalPrevious(target: JobState): set<JobState> {
    match target
    case Queued => {Leased, Running}
    case Leased => {Queued}
    case Running => {Leased}
    case Succeeded => {Running}
    case _ => {Queued, Leased, Running}
  }

  // ---------- enqueue ----------

  // Keys that hold expiring URLs or secret values.
  const TRANSIENT_KEYS: set<string> := {"secrets", "source_download_url", "secret_env"}

  function DurablePayload(payload: Payload): Payload {
    payload - TRANSIENT_KEYS
  }

  predicate AboveAllRowids(jobs: Jobs, rowid: nat) {
    forall a | a in jobs :: jobs[a].rowid < rowid
  }

  function NewRow(build: BuildId, payload: Payload, now: Millis, rowid: nat): Row {
    Row(build, DurablePayload(payload), Queued, 0, 0, None, None, None, None, false, now, now, rowid)
  }

  function Enqueued(jobs: Jobs, build: BuildId, a: AttemptId, payload: Payload, now: Millis, rowid: nat): Jobs {
    if a in jobs then jobs else jobs[a := NewRow(build, payload, now, rowid)]
  }

  // ---------- acquire_lease ----------

  predicate Eligible(r: Row, now: Millis) {
    r.state == Queued || (r.state.Held() && r.expires.Some? && r.expires.value <= now)
  }

  // ORDER BY created_at, attempt_id
  predicate Before(jobs: Jobs, a: AttemptId, b: AttemptId)
    requires a in jobs && b in jobs
  {
    jobs[a].created < jobs[b].created || (jobs[a].created == jobs[b].created && a < b)
  }

  predicate Candidate(jobs: Jobs, now: Millis, a: AttemptId) {
    a in jobs && Eligible(jobs[a], now) && !jobs[a].cancel
  }

  ghost predicate IsNext(jobs: Jobs, now: Millis, a: AttemptId) {
    && Candidate(jobs, now, a)
    && forall b | Candidate(jobs, now, b) && b != a :: Before(jobs, a, b)
  }

  ghost function NextLease(jobs: Jobs, now: Millis): Option<AttemptId> {
    if a :| IsNext(jobs, now, a) then Some(a) else None
  }

  // The flagged rows that the acquire loop meets before it stops.
  ghost predicate Swept(jobs: Jobs, now: Millis, target: Option<AttemptId>, a: AttemptId)
    requires target.Some? ==> target.value in jobs
  {
    && a in jobs && Eligible(jobs[a], now) && jobs[a].cancel
    && (target.Some? ==> Before(jobs, a, target.value))
  }

  function FinishedRow(r: Row, state: JobState, error: Option<string>, now: Millis): Row {
    r.(state := state, error := error, owner := None, token := None, expires := None,
       cancel := false, updated := now)
  }

  // The sweep keeps the error column.
  function SweptRow(r: Row, now: Millis): Row {
    FinishedRow(r, Cancelled, r.error, now)
  }

  function GrantedRow(r: Row, owner: Owner, token: Token, timeout: int, now: Millis): Row {
    r.(state := Leased, owner := Some(owner), token := Some(token),
       expires := Some(now + timeout * SECOND), attempts := r.attempts + 1, updated := now)
  }

  ghost function Acquired(jobs: Jobs, owner: Owner, token: Token, timeout: int, now: Millis): Jobs {
    var target := NextLease(jobs, now);
    map a | a in jobs ::
      if target == Some(a) then GrantedRow(jobs[a], owner, token, timeout, now)
      else if Swept(jobs, now, target, a) then SweptRow(jobs[a], now)
      else jobs[a]
  }

  // ---------- guarded updates ----------

  // SQL: (? IS NULL OR column = ?)
  predicate Matches<T(==)>(wanted: Option<T>, column: Option<T>) {
    wanted.Some? ==> column == wanted
  }

  predicate RefreshAllowed(jobs: Jobs, a: AttemptId, owner: Owner, token: Option<Token>) {
    a in jobs && jobs[a].owner == Some(owner) && Matches(token, jobs[a].token) && jobs[a].state.Held()
  }

  function Refreshed(jobs: Jobs, a: AttemptId, owner: Owner, token: Option<Token>, timeout: int, now: Millis)
    : Result<Jobs, QueueError>
  {
    if RefreshAllowed(jobs, a, owner, token)
    then Ok(jobs[a := jobs[a].(expires := Some(now + timeout * SECOND), updated := now)])
    else Err(NotOwner)
  }

  function MovedRow(r: Row, target: JobState, error: Option<string>, now: Millis): Row {
    if target.Terminal() then FinishedRow(r, target, error, now)
    else r.(state := target, error := error, updated := now)
  }

  function Transitioned(jobs: Jobs, a: AttemptId, target: JobState, error: Option<string>,
                        expected: Option<JobState>, owner: Option<Owner>, token: Option<Token>, now: Millis)
    : Result<Jobs, QueueError>
  {
    if a !in jobs then Err(UnknownAttempt)
    else if expected.Some? && jobs[a].state != expected.value then Err(UnexpectedState)
    else if !Matches(owner, jobs[a].owner) then Err(NotOwner)
    else if !Matches(token, jobs[a].token) then Err(StaleToken)
    else if jobs[a].state == target then
      if expected.None? && owner.None? && token.None? then Ok(jobs) else Err(IllegalTransition)
    else if jobs[a].state !in LegalPrevious(target) then Err(IllegalTransition)
    else Ok(jobs[a := MovedRow(jobs[a], target, error, now)])
  }

  predicate CancelMatches(r: Row, a: AttemptId, build: BuildId, attempt: Option<AttemptId>) {
    r.build == build && (attempt.Some? ==> a == attempt.value) && !r.state.Terminal()
  }

  function CancelRequested(jobs: Jobs, build: BuildId, attempt: Option<AttemptId>, now: Millis): Jobs {
    map a | a in jobs ::
      if CancelMatches(jobs[a], a, build, attempt)
      then jobs[a].(cancel := true, updated := now)
      else jobs[a]
  }

  // ---------- record_executor_crash ----------

  predicate CrashAllowed(jobs: Jobs, a: AttemptId, owner: Option<Owner>, token: Option<Token>) {
    a in jobs && jobs[a].state.Held() && Matches(owner, jobs[a].owner) && Matches(token, jobs[a].token)
  }

  function CrashedRow(r: Row, error: string, now: Millis): Row {
    FinishedRow(r, if r.attempts >= MAX_LOCAL_CRASHES then Failed else Queued, Some(error), now)
  }

  function Crashed(db: Db, a: AttemptId, error: string, owner: Option<Owner>, token: Option<Token>, now: Millis)
    : Result<Db, QueueError>
  {
    if !CrashAllowed(db.jobs, a, owner, token) then Err(UnknownAttempt)
    else
      var r := db.jobs[a];
      var letter := DeadLetter(r.build, r.payload, error, r.attempts, now);
      Ok(db.(
         jobs := db.jobs[a := CrashedRow(r, error, now)],
         dlq := if r.attempts >= MAX_LOCAL_CRASHES && a !in db.dlq then db.dlq[a := letter] else db.dlq))
  }

  // ---------- prune_terminal ----------

  predicate Expired(r: Row, days: int, now: Millis) {
    r.state.Terminal() && r.updated < now - days * DAY
  }

  // ON DELETE CASCADE: only the events of remaining rows stay.
  function OwnedEvents(events: seq<Event>, jobs: Jobs): seq<Event> {
    Select(events, (e: Event) => e.attempt in jobs)
  }

  function UnexpiredJobs(jobs: Jobs, days: int, now: Millis): Jobs {
    map a | a in jobs && !Expired(jobs[a], days, now) :: jobs[a]
  }

  function PrunedTerminal(db: Db, days: int, now: Millis): Db {
    var kept := UnexpiredJobs(db.jobs, days, now);
    db.(jobs := kept, events := OwnedEvents(db.events, kept))
  }

  // ---------- is_current_attempt ----------

  predicate Current(jobs: Jobs, a: AttemptId)
    requires a in jobs
  {
    forall b | b in jobs && jobs[b].build == jobs[a].build :: jobs[b].rowid <= jobs[a].rowid
  }

  // ---------- the store as one alphabet of operations ----------

  datatype QueueOp =
    | OpEnqueue(build: BuildId, attempt: AttemptId, payload: Payload, rowid: nat)
    | OpCancel(build: BuildId, only: Option<AttemptId>)
    | OpAcquire(leaseOwner: Owner, freshToken: Token, timeout: int)
    | OpRefresh(attempt: AttemptId, leaseOwner: Owner, token: Option<Token>, timeout: int)
    | OpTransition(attempt: AttemptId, target: JobState, note: Option<string>,
                   expected: Option<JobState>, owner: Option<Owner>, token: Option<Token>)
    | OpCrash(attempt: AttemptId, error: string, owner: Option<Owner>, token: Option<Token>)
    | OpPruneTerminal(days: int)

  // A refused operation leaves the tables as they were.
  ghost function Apply(db: Db, op: QueueOp, now: Millis): Db {
    match op
    case OpEnqueue(build, a, payload, rowid) => db.(jobs := Enqueued(db.jobs, build, a, payload, now, rowid))
    case OpCancel(build, only) => db.(jobs := CancelRequested(db.jobs, build, only, now))
    case OpAcquire(owner, token, timeout) => db.(jobs := Acquired(db.jobs, owner, token, timeout, now))
    case OpRefresh(a, owner, token, timeout) =>
      (match Refreshed(db.jobs, a, owner, token, timeout, now)
       case Ok(jobs) => db.(jobs := jobs)
       case Err(_) => db)
    case OpTransition(a, target, note, expected, owner, token) =>
      (match Transitioned(db.jobs, a, target, note, expected, owner, token, now)
       case Ok(jobs) => db.(jobs := jobs)
       case Err(_) => db)
    case OpCrash(a, error, owner, token) =>
      (match Crashed(db, a, error, owner, token, now)
       case Ok(db') => db'
       case Err(_) => db)
    case OpPruneTerminal(days) => PrunedTerminal(db, days, now)
  }

  // Targets that the repository never passes to `transition`.
  predicate Supported(op: QueueOp) {
    op.OpTransition? ==> op.target == Running || op.target.Terminal()
  }

  // ---------- facts about the acquire choice ----------

  lemma {:induction false} LeastExists(jobs: Jobs, now: Millis, pool: set<AttemptId>) returns (least: AttemptId)
    requires pool != {} && forall a | a in pool :: Candidate(jobs, now, a)
    ensures least in pool && Candidate(jobs, now, least)
    ensures forall b | b in pool && b != least :: Candidate(jobs, now, b) && Before(jobs, least, b)
    decreases |pool|
  {
    least :| least in pool;
    var rest := pool - {least};
    if rest != {} {
      var other := LeastExists(jobs, now, rest);
      assert pool == rest + {least};
      if Before(jobs, other, least) {
        least := other;
      }
    }
  }

  // The store leases exactly when some eligible row is not flagged, and then the
  // least such row by (created_at, attempt_id).
  lemma NextLeaseIsLeast(jobs: Jobs, now: Millis)
    ensures forall a: AttemptId :: NextLease(jobs, now) == Some(a) <==> IsNext(jobs, now, a)
    ensures NextLease(jobs, now) == None <==> forall a: AttemptId :: !Candidate(jobs, now, a)
  {
    var pool := set a | a in jobs && Candidate(jobs, now, a);
    if pool != {} {
      var least := LeastExists(jobs, now, pool);
      assert IsNext(jobs, now, least);
    }
    forall a: AttemptId | IsNext(jobs, now, a)
      ensures NextLease(jobs, now) == Some(a)
    {
      var b := NextLease(jobs, now).value;
      assert IsNext(jobs, now, b);
    }
    if exists a: AttemptId :: Candidate(jobs, now, a) {
      var a: AttemptId :| Candidate(jobs, now, a);
      assert a in pool;
    }
  }

  predicate CancelledOnTheWay(r: Row, q: Row, now: Millis) {
    q == r.(state := Cancelled, owner := None, token := None, expires := None, cancel := false, updated := now)
  }

  /** The acquire step, row by row: who is leased, who is cancelled on the way, who is left alone. */
  lemma AcquireExactly(jobs: Jobs, owner: Owner, token: Token, timeout: int, now: Millis)
    ensures var jobs' := Acquired(jobs, owner, token, timeout, now);
            match NextLease(jobs, now)
            case None =>
              jobs'.Keys == jobs.Keys && forall b | b in jobs ::
                if Eligible(jobs[b], now) then jobs[b].cancel && CancelledOnTheWay(jobs[b], jobs'[b], now)
                else jobs'[b] == jobs[b]
            case Some(a) =>
              && a in jobs && jobs'.Keys == jobs.Keys && Eligible(jobs[a], now) && !jobs[a].cancel
              && jobs'[a] == jobs[a].(state := Leased, owner := Some(owner), token := Some(token),
                                      expires := Some(now + timeout * 1000), attempts := jobs[a].attempts + 1, updated := now)
              && forall b | b in jobs && b != a ::
                   if Eligible(jobs[b], now) && Before(jobs, b, a)
                   then jobs[b].cancel && CancelledOnTheWay(jobs[b], jobs'[b], now)
                   else jobs'[b] == jobs[b]
  {
    NextLeaseIsLeast(jobs, now);
  }

  function Rank(state: JobState): nat {
    match state
    case Queued => 0
    case Leased => 1
    case Running => 2
    case _ => 3
  }

  /**
   An unguarded `transition` to another state is accepted exactly along the life cycle:
   forward, LEASED, RUNNING and SUCCEEDED only from the state just before, and back to
   QUEUED from a worker's hands.
   */
  lemma TransitionFollowsLifeCycle(jobs: Jobs, a: AttemptId, target: JobState, error: Option<string>, now: Millis)
    requires a in jobs && jobs[a].state != target
    ensures Transitioned(jobs, a, target, error, None, None, None, now).Ok? <==>
              if target == Queued then jobs[a].state.Held()
              else && Rank(jobs[a].state) < Rank(target)
                   && (target in {Leased, Running, Succeeded} ==> Rank(jobs[a].state) + 1 == Rank(target))
  {
  }
}
