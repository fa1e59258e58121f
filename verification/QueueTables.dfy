/**
 The three tables of the queue database (src/build_engine/queue/store.py).
 A canonical UUID is represented by the number it spells: both orders agree.
 A timestamp is an integer number of milliseconds, the precision the store keeps.
 */
module QueueTables {
  import opened Outcomes

  type AttemptId = nat
  type BuildId = nat
  type EventId = nat
  type Millis = int
  type Owner = string
  type Token = string
  type Payload = map<string, string>

  const SECOND: Millis := 1000
  const DAY: Millis := 24 * 60 * 60 * SECOND

  datatype JobState = Queued | Leased | Running | Succeeded | Failed | Cancelled | TimedOut
  {
    predicate Terminal() {
      Succeeded? || Failed? || Cancelled? || TimedOut?
    }

    // A worker holds the attempt.
    predicate Held() {
      Leased? || Running?
    }
  }

  datatype Row = Row(
    build: BuildId,
    payload: Payload,
    state: JobState,
    attempts: nat,
    cursor: nat,
    owner: Option<Owner>,
    token: Option<Token>,
    expires: Option<Millis>,
    error: Option<string>,
    cancel: bool,
    created: Millis,
    updated: Millis,
    rowid: nat)

  datatype DeadLetter = DeadLetter(
    build: BuildId, payload: Payload, error: string, attempts: nat, created: Millis)

  // `num` is the seq column, `json` the stored envelope text, `ts` the timestamp inside it, and
  // `wellFormed` says that it passes every other check of `decode_frame`.
  datatype Event = Event(
    id: EventId,
    attempt: AttemptId,
    num: nat,
    isLog: bool,
    json: string,
    wellFormed: bool,
    ts: Millis,
    created: Millis)

  type Jobs = map<AttemptId, Row>

  // `events` lists the table in the order of its only ORDER BY clause.
  datatype Db = Db(jobs: Jobs, events: seq<Event>, dlq: map<AttemptId, DeadLetter>)

  datatype QueueError =
    | UnknownAttempt
    | UnexpectedState
    | NotOwner
    | StaleToken
    | IllegalTransition
    | Conflict
    | Integrity

  // ---------- WHERE clauses over the event table ----------

  function Select(events: seq<Event>, keep: Event -> bool): seq<Event> {
    if events == [] then []
    else (if keep(events[0]) then [events[0]] else []) + Select(events[1..], keep)
  }

  lemma SelectMembers(events: seq<Event>, keep: Event -> bool)
    ensures forall e :: e in Select(events, keep) <==> e in events && keep(e)
    ensures |Select(events, keep)| <= |events|
  {
  }

  lemma {:induction false} SelectAppend(left: seq<Event>, right: seq<Event>, keep: Event -> bool)
    ensures Select(left + right, keep) == Select(left, keep) + Select(right, keep)
  {
    if left == [] {
      assert left + right == right;
    } else {
      SelectAppend(left[1..], right, keep);
      assert (left + right)[1..] == left[1..] + right;
    }
  }

  // Two WHERE clauses in a row are one conjunction.
  lemma {:induction false} SelectCompose(events: seq<Event>, first: Event -> bool, second: Event -> bool, both: Event -> bool)
    requires forall e | e in events :: both(e) <==> first(e) && second(e)
    ensures Select(Select(events, first), second) == Select(events, both)
  {
    if events != [] {
      SelectCompose(events[1..], first, second, both);
      SelectAppend(if first(events[0]) then [events[0]] else [], Select(events[1..], first), second);
    }
  }
}
