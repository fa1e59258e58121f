/** What each statement of `SQLiteEventOutbox` does to the tables. */
module OutboxSpec {
  import opened Outcomes
  import opened QueueTables

  const MAX_TIMESTAMP_SKEW: Millis := 5 * 60 * SECOND

  // ORDER BY created_at, attempt_id, seq
  predicate Precedes(e: Event, f: Event) {
    || e.created < f.created
    || (e.created == f.created && e.attempt < f.attempt)
    || (e.created == f.created && e.attempt == f.attempt && e.num < f.num)
  }

  ghost predicate InOrder(events: seq<Event>) {
    forall i, j | 0 <= i < j < |events| :: Precedes(events[i], events[j])
  }

  // ---------- append ----------

  function Placed(events: seq<Event>, e: Event): seq<Event> {
    if events == [] || Precedes(e, events[0]) then [e] + events
    else [events[0]] + Placed(events[1..], e)
  }

  predicate Holds(events: seq<Event>, a: AttemptId, n: nat) {
    exists i | 0 <= i < |events| :: events[i].attempt == a && events[i].num == n
  }

  predicate HoldsSame(events: seq<Event>, e: Event) {
    exists i | 0 <= i < |events| :: events[i].attempt == e.attempt && events[i].num == e.num && events[i].json == e.json
  }

  // FOREIGN KEY (attempt_id) and PRIMARY KEY (id)
  predicate Insertable(db: Db, e: Event) {
    e.attempt in db.jobs && forall i | 0 <= i < |db.events| :: db.events[i].id != e.id
  }

  datatype AppendCase = Fresh | Repeated | Refused(error: QueueError)

  function Classify(db: Db, e: Event): AppendCase {
    if Holds(db.events, e.attempt, e.num) then
      if HoldsSame(db.events, e) then Repeated else Refused(Conflict)
    else if Insertable(db, e) then Fresh else Refused(Integrity)
  }

  function AfterInsert(db: Db, e: Event): Db {
    db.(events := Placed(db.events, e))
  }

  function AfterBump(db: Db, a: AttemptId, n: nat, now: Millis): Db {
    if a !in db.jobs then db
    else
      var r := db.jobs[a];
      db.(jobs := db.jobs[a := r.(cursor := if r.cursor < n then n else r.cursor, updated := now)])
  }

  function NextSeq(db: Db, a: AttemptId): Result<nat, QueueError> {
    if a in db.jobs then Ok(db.jobs[a].cursor + 1) else Err(UnknownAttempt)
  }

  // ---------- prune ----------

  function Bytes(events: seq<Event>): nat {
    if events == [] then 0 else |events[0].json| + Bytes(events[1..])
  }

  predicate AgedOut(e: Event, jobs: Jobs, days: int, now: Millis) {
    e.created < now - days * DAY && e.attempt in jobs && jobs[e.attempt].state.Terminal()
  }

  function Unaged(events: seq<Event>, jobs: Jobs, days: int, now: Millis): seq<Event> {
    Select(events, e => !AgedOut(e, jobs, days, now))
  }

  function Logs(events: seq<Event>): seq<Event> {
    Select(events, (e: Event) => e.isLog)
  }

  function Others(events: seq<Event>): seq<Event> {
    Select(events, (e: Event) => !e.isLog)
  }

  // The longest suffix that fits in the budget.
  function NewestWithin(events: seq<Event>, budget: int): seq<Event> {
    if events == [] || Bytes(events) <= budget then events else NewestWithin(events[1..], budget)
  }

  // The loop of `_prune_sync`, one deleted row at a time.
  function WithoutFirstLog(events: seq<Event>): seq<Event> {
    if events == [] then []
    else if events[0].isLog then events[1..]
    else [events[0]] + WithoutFirstLog(events[1..])
  }

  function Victimless(events: seq<Event>): seq<Event>
    requires events != []
  {
    if Logs(events) != [] then WithoutFirstLog(events) else events[1..]
  }

  lemma {:induction false} WithoutFirstLogShape(events: seq<Event>)
    requires Logs(events) != []
    ensures |WithoutFirstLog(events)| == |events| - 1
    ensures Others(WithoutFirstLog(events)) == Others(events)
    ensures Logs(WithoutFirstLog(events)) == Logs(events)[1..]
  {
    if !events[0].isLog {
      WithoutFirstLogShape(events[1..]);
      assert WithoutFirstLog(events)[1..] == WithoutFirstLog(events[1..]);
    }
  }

  function Trimmed(events: seq<Event>, maxBytes: int): seq<Event>
    decreases |events|
  {
    if events == [] || Bytes(events) <= maxBytes then events
    else
      assert |Victimless(events)| < |events| by { if Logs(events) != [] { WithoutFirstLogShape(events); } }
      Trimmed(Victimless(events), maxBytes)
  }

  function AfterPrune(db: Db, maxBytes: int, days: int, now: Millis): Db {
    db.(events := Trimmed(Unaged(db.events, db.jobs, days, now), maxBytes))
  }

  // ---------- ack and replay ----------

  function AfterAck(db: Db, a: AttemptId, n: int): Db {
    db.(events := Select(db.events, (e: Event) => !(e.attempt == a && e.num <= n)))
  }

  function CursorOf(cursors: map<AttemptId, nat>, a: AttemptId): nat {
    if a in cursors then cursors[a] else 0
  }

  // `decode_frame` checks the timestamp window again at replay time.
  predicate Decodable(e: Event, now: Millis) {
    e.wellFormed && now - MAX_TIMESTAMP_SKEW <= e.ts <= now + MAX_TIMESTAMP_SKEW
  }

  predicate Replayable(e: Event, cursors: map<AttemptId, nat>, now: Millis) {
    e.num > CursorOf(cursors, e.attempt) && Decodable(e, now)
  }

  function Replayed(events: seq<Event>, cursors: map<AttemptId, nat>, now: Millis): seq<Event> {
    Select(events, e => Replayable(e, cursors, now))
  }

  // ---------- the outbox as one alphabet of statements ----------

  datatype OutboxOp =
    | OpInsert(event: Event)
    | OpBump(attempt: AttemptId, num: nat)
    | OpPrune(maxBytes: int, days: int)
    | OpAck(attempt: AttemptId, num: nat)

  function ApplyOutbox(db: Db, op: OutboxOp, now: Millis): Db {
    match op
    case OpInsert(e) => if Classify(db, e) == Fresh then AfterInsert(db, e) else db
    case OpBump(a, n) => AfterBump(db, a, n, now)
    case OpPrune(maxBytes, days) => AfterPrune(db, maxBytes, days, now)
    case OpAck(a, n) => AfterAck(db, a, n)
  }

  // ---------- size pruning: loop and closed form agree ----------

  lemma {:induction false} BytesSplit(events: seq<Event>)
    ensures Bytes(events) == Bytes(Logs(events)) + Bytes(Others(events))
  {
    if events != [] {
      BytesSplit(events[1..]);
      var log, other := Logs(events[1..]), Others(events[1..]);
      assert ([events[0]] + log)[1..] == log && ([events[0]] + other)[1..] == other;
      assert Logs(events) == if events[0].isLog then [events[0]] + log else log;
      assert Others(events) == if events[0].isLog then other else [events[0]] + other;
    }
  }

  lemma {:induction false} NoLogs(events: seq<Event>)
    requires Logs(events) == []
    ensures Others(events) == events
  {
    if events != [] {
      NoLogs(events[1..]);
    }
  }

  lemma {:induction false} SelectAll(events: seq<Event>)
    ensures Select(events, _ => true) == events
  {
    if events != [] {
      SelectAll(events[1..]);
    }
  }

  /** The loop ends within the bound, or with nothing left when the bound is negative. */
  lemma {:induction false} TrimmedFits(events: seq<Event>, maxBytes: int)
    ensures 0 <= maxBytes ==> Bytes(Trimmed(events, maxBytes)) <= maxBytes
    ensures maxBytes < 0 ==> Trimmed(events, maxBytes) == []
    decreases |events|
  {
    if events != [] && Bytes(events) > maxBytes {
      if Logs(events) != [] { WithoutFirstLogShape(events); }
      TrimmedFits(Victimless(events), maxBytes);
    }
  }

  /** The loop keeps, in each class, exactly the longest suffix that fits. */
  lemma {:induction false} TrimmedIsClosedForm(events: seq<Event>, maxBytes: int)
    ensures Others(Trimmed(events, maxBytes)) == NewestWithin(Others(events), maxBytes)
    ensures Logs(Trimmed(events, maxBytes)) == NewestWithin(Logs(events), maxBytes - Bytes(Others(events)))
    decreases |events|
  {
    BytesSplit(events);
    if events != [] && Bytes(events) > maxBytes {
      if Logs(events) != [] {
        WithoutFirstLogShape(events);
        TrimmedIsClosedForm(Victimless(events), maxBytes);
      } else {
        NoLogs(events);
        assert Logs(events[1..]) == [];
        NoLogs(events[1..]);
        TrimmedIsClosedForm(events[1..], maxBytes);
      }
    }
  }

  /** A row of a class survives exactly when it fits together with all newer rows of the class. */
  lemma {:induction false} NewestWithinExact(events: seq<Event>, budget: int) returns (cut: nat)
    ensures cut <= |events| && NewestWithin(events, budget) == events[cut..]
    ensures forall i | 0 <= i < |events| :: cut <= i <==> Bytes(events[i..]) <= budget
  {
    if events == [] {
      cut := 0;
    } else if Bytes(events) <= budget {
      cut := 0;
      BytesShrink(events);
      assert events[0..] == events;
    } else {
      var rest := NewestWithinExact(events[1..], budget);
      cut := rest + 1;
      assert events[1..][rest..] == events[cut..];
      forall i | 0 <= i < |events|
        ensures cut <= i <==> Bytes(events[i..]) <= budget
      {
        if i > 0 {
          assert events[1..][i - 1..] == events[i..];
        } else {
          assert events[0..] == events;
        }
      }
    }
  }

  lemma {:induction false} BytesShrink(events: seq<Event>)
    ensures forall i | 0 <= i <= |events| :: Bytes(events[i..]) <= Bytes(events)
  {
    if events != [] {
      BytesShrink(events[1..]);
      forall i | 0 <= i <= |events|
        ensures Bytes(events[i..]) <= Bytes(events)
      {
        if i > 0 {
          assert events[1..][i - 1..] == events[i..];
        } else {
          assert events[0..] == events;
        }
      }
    }
  }

  /** Bytes are the lengths of the stored texts added up. */
  lemma {:induction false} BytesAdd(left: seq<Event>, right: seq<Event>)
    ensures Bytes(left + right) == Bytes(left) + Bytes(right)
    ensures |left| == 1 ==> Bytes(left) == |left[0].json|
  {
    if left == [] {
      assert left + right == right;
    } else {
      BytesAdd(left[1..], right);
      assert (left + right)[1..] == left[1..] + right;
    }
  }

  /** In a spool within the limit, pruning deletes exactly the old events of terminal attempts. */
  lemma PruneByAge(db: Db, maxBytes: int, days: int, now: Millis)
    requires Bytes(db.events) <= maxBytes
    ensures forall e :: e in AfterPrune(db, maxBytes, days, now).events <==>
              e in db.events && !(e.created < now - days * 86_400_000 && e.attempt in db.jobs && db.jobs[e.attempt].state.Terminal())
    ensures AfterPrune(db, maxBytes, days, now).jobs == db.jobs
  {
    SelectMembers(db.events, e => !AgedOut(e, db.jobs, days, now));
    SelectBytes(db.events, e => !AgedOut(e, db.jobs, days, now));
  }

  lemma {:induction false} SelectBytes(events: seq<Event>, keep: Event -> bool)
    ensures Bytes(Select(events, keep)) <= Bytes(events)
  {
    if events != [] {
      SelectBytes(events[1..], keep);
      BytesAdd(if keep(events[0]) then [events[0]] else [], Select(events[1..], keep));
    }
  }

  /** In every spool, whatever its size, no such event is left. */
  lemma AgedAreGone(db: Db, maxBytes: int, days: int, now: Millis, e: Event)
    requires InOrder(db.events) && e in AfterPrune(db, maxBytes, days, now).events
    ensures e in db.events
    ensures !(e.created < now - days * 86_400_000 && e.attempt in db.jobs && db.jobs[e.attempt].state.Terminal())
  {
    var keep := (f: Event) => !AgedOut(f, db.jobs, days, now);
    SelectMembers(db.events, keep);
    SelectInOrder(db.events, keep);
    TrimmedMembers(Unaged(db.events, db.jobs, days, now), maxBytes);
  }

  /** An append is repeated silently exactly when the same text is spooled under its number, and refused when another one is. */
  lemma AppendIsIdempotent(db: Db, e: Event)
    requires forall i, j | 0 <= i < |db.events| && 0 <= j < |db.events| && i != j ::
               db.events[i].attempt != db.events[j].attempt || db.events[i].num != db.events[j].num
    ensures forall f | f in db.events && f.attempt == e.attempt && f.num == e.num ::
              Classify(db, e) == if f.json == e.json then Repeated else Refused(Conflict)
    ensures (forall f | f in db.events :: f.attempt != e.attempt || f.num != e.num) ==>
              Classify(db, e) in {Fresh, Refused(Integrity)}
  {
  }

  /** The cursor covers the number of every event that was appended, and never goes back. */
  lemma CursorCovers(db: Db, a: AttemptId, n: nat, now: Millis)
    requires a in db.jobs
    ensures var jobs' := AfterBump(db, a, n, now).jobs;
            && jobs'.Keys == db.jobs.Keys && jobs'[a].cursor >= n && jobs'[a].cursor >= db.jobs[a].cursor
            && jobs'[a].cursor in {n, db.jobs[a].cursor}
            && jobs'[a] == db.jobs[a].(cursor := jobs'[a].cursor, updated := now)
            && forall b | b in db.jobs && b != a :: jobs'[b] == db.jobs[b]
  {
  }

  // ---------- ack and replay ----------

  /** Replay selects by the numbers, the checks of `decode_frame` and its five minutes, and sorts by (created_at, attempt_id, seq). */
  lemma ReplaySelects(events: seq<Event>, cursors: map<AttemptId, nat>, now: Millis)
    ensures forall e :: e in Replayed(events, cursors, now) <==>
              && e in events && e.num > 0 && (e.attempt in cursors ==> e.num > cursors[e.attempt])
              && e.wellFormed && now - 300_000 <= e.ts <= now + 300_000
    ensures InOrder(events) ==>
              var list := Replayed(events, cursors, now);
              forall i, j | 0 <= i < j < |list| ::
                list[i].created <= list[j].created
                && (list[i].created == list[j].created ==> list[i].attempt <= list[j].attempt)
                && (list[i].created == list[j].created && list[i].attempt == list[j].attempt ==> list[i].num < list[j].num)
  {
    SelectMembers(events, e => Replayable(e, cursors, now));
    if InOrder(events) { SelectInOrder(events, e => Replayable(e, cursors, now)); }
  }

  /** Deleting acknowledged rows and then replaying is replaying from the raised cursor. */
  lemma AckThenReplay(db: Db, a: AttemptId, n: nat, cursors: map<AttemptId, nat>, now: Millis)
    ensures Replayed(AfterAck(db, a, n).events, cursors, now)
         == Replayed(db.events, cursors[a := if CursorOf(cursors, a) < n then n else CursorOf(cursors, a)], now)
  {
    var raised := cursors[a := if CursorOf(cursors, a) < n then n else CursorOf(cursors, a)];
    SelectCompose(db.events, (e: Event) => !(e.attempt == a && e.num <= n),
                  e => Replayable(e, cursors, now), e => Replayable(e, raised, now));
  }

  // ---------- order ----------

  lemma InOrderHead(events: seq<Event>)
    requires events != [] && InOrder(events)
    ensures InOrder(events[1..])
    ensures forall f | f in events[1..] :: Precedes(events[0], f)
  {
  }

  lemma InOrderCons(e: Event, rest: seq<Event>)
    requires InOrder(rest) && forall f | f in rest :: Precedes(e, f)
    ensures InOrder([e] + rest)
  {
    var all := [e] + rest;
    forall i, j | 0 <= i < j < |all|
      ensures Precedes(all[i], all[j])
    {
      assert all[j] == rest[j - 1];
      if i > 0 {
        assert all[i] == rest[i - 1];
      }
    }
  }

  lemma {:induction false} SelectInOrder(events: seq<Event>, keep: Event -> bool)
    requires InOrder(events)
    ensures InOrder(Select(events, keep))
  {
    if events != [] {
      InOrderHead(events);
      SelectInOrder(events[1..], keep);
      SelectMembers(events[1..], keep);
      InOrderCons(events[0], Select(events[1..], keep));
    }
  }

  lemma {:induction false} PlacedInOrder(events: seq<Event>, e: Event)
    requires InOrder(events)
    requires forall f | f in events :: f.attempt != e.attempt || f.num != e.num
    ensures InOrder(Placed(events, e))
    ensures forall f :: f in Placed(events, e) <==> f == e || f in events
  {
    if events != [] && !Precedes(e, events[0]) {
      InOrderHead(events);
      PlacedInOrder(events[1..], e);
      assert Precedes(events[0], e);
      InOrderCons(events[0], Placed(events[1..], e));
    }
  }

  lemma {:induction false} TrimmedMembers(events: seq<Event>, maxBytes: int)
    requires InOrder(events)
    ensures InOrder(Trimmed(events, maxBytes))
    ensures forall e | e in Trimmed(events, maxBytes) :: e in events
    decreases |events|
  {
    if events != [] && Bytes(events) > maxBytes {
      if Logs(events) != [] {
        WithoutFirstLogShape(events);
        WithoutFirstLogMembers(events);
      }
      TrimmedMembers(Victimless(events), maxBytes);
    }
  }

  lemma {:induction false} WithoutFirstLogMembers(events: seq<Event>)
    requires InOrder(events)
    ensures InOrder(WithoutFirstLog(events))
    ensures forall e | e in WithoutFirstLog(events) :: e in events
  {
    if events != [] && !events[0].isLog {
      InOrderHead(events);
      WithoutFirstLogMembers(events[1..]);
      InOrderCons(events[0], WithoutFirstLog(events[1..]));
    }
  }
}
