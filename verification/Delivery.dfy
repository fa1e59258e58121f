/**
 Event delivery as a state machine: the publisher under its lock, one statement at a
 time; the websocket with messages in flight; replay and acknowledgement after a
 reconnect; store calls, the clock and process restarts in between.
 */
module Delivery {
  import opened Outcomes
  import opened QueueTables
  import opened QueueSpec
  import opened OutboxSpec

  // `publish_attempt_event` holds the publish lock from Locked to Spooled, and the
  // outbox lock in Inserted and Bumped.
  datatype Publisher =
    | Free
    | Locked(attempt: AttemptId)
    | Numbered(attempt: AttemptId, num: nat)
    | Inserted(event: Event)
    | Bumped(event: Event)
    | Spooled(event: Event)

  // `connect_once`: down, before the welcome, replaying, or reading frames.
  datatype Link = Down | Greeting | Replaying(rest: seq<Event>) | Serving

  // History of the numbers of one row life.
  datatype Track = Track(top: nat, acked: set<nat>, pruned: set<nat>, torn: bool, reused: bool)

  datatype Net = Net(
    db: Db,
    now: Millis,
    publisher: Publisher,
    socket: bool,
    link: Link,
    wire: set<Event>,
    received: set<Event>,
    tracks: map<AttemptId, Track>,
    appended: set<Event>,
    acked: set<Event>,
    pruned: set<Event>,
    honest: bool)

  const NEW_TRACK := Track(0, {}, {}, false, false)

  datatype Step =
    | Tick(later: Millis)
    | StoreCall(op: QueueOp)
    | Lock(attempt: AttemptId)
    | ReadSeq
    | Abort
    | Insert(event: Event)
    | Bump
    | Prune(maxBytes: int, days: int)
    | Send(ok: bool)
    | StartupPrune(maxBytes: int, days: int)
    | Connect
    | Welcome(cursors: map<AttemptId, nat>)
    | SendReplayed
    | ReplayDone
    | Deliver(event: Event)
    | LinkLost(gone: set<Event>)
    | Ack(attempt: AttemptId, num: nat)
    | Restart(gone: set<Event>)

  predicate OutboxLocked(s: Net) {
    s.publisher.Inserted? || s.publisher.Bumped?
  }

  function Gone(events: seq<Event>, events': seq<Event>): set<Event> {
    set e | e in events && e !in events'
  }

  function NumbersOf(events: set<Event>, a: AttemptId): set<nat> {
    set e | e in events && e.attempt == a :: e.num
  }

  function SpooledNumbers(events: seq<Event>, a: AttemptId): set<nat> {
    set e | e in events && e.attempt == a :: e.num
  }

  // Rows that stay keep their history; pruned numbers are recorded in it.
  function TracksAfter(tracks: map<AttemptId, Track>, jobs: Jobs, gone: set<Event>): map<AttemptId, Track> {
    map a | a in jobs ::
      if a in tracks then tracks[a].(pruned := tracks[a].pruned + NumbersOf(gone, a)) else NEW_TRACK
  }

  function PrunedTo(s: Net, db': Db): Net {
    var gone := Gone(s.db.events, db'.events);
    s.(db := db', tracks := TracksAfter(s.tracks, db'.jobs, gone), pruned := s.pruned + gone)
  }

  // The backend has everything that this acknowledgement deletes.
  predicate HonestAck(s: Net, a: AttemptId, n: nat) {
    forall i | 0 <= i < |s.db.events| ::
      s.db.events[i].attempt == a && s.db.events[i].num <= n ==> s.db.events[i] in s.received
  }

  // The backend has everything that these cursors skip.
  predicate HonestCursors(s: Net, cursors: map<AttemptId, nat>) {
    forall i | 0 <= i < |s.db.events| ::
      s.db.events[i].num <= CursorOf(cursors, s.db.events[i].attempt) ==> s.db.events[i] in s.received
  }

  // A new envelope carries a fresh UUID, which makes its text new too, and the current time.
  predicate NewEnvelope(s: Net, e: Event, a: AttemptId, n: nat) {
    && e.attempt == a && e.num == n && e.created == s.now && e.ts <= s.now && e.wellFormed
    && forall f | f in s.appended :: f.id != e.id && f.json != e.json
  }

  ghost predicate Next(s: Net, step: Step, s': Net) {
    match step
    case Tick(later) => s.now <= later && s' == s.(now := later)
    case StoreCall(op) =>
      // `prune_terminal` runs only while the service starts.
      && Supported(op) && (op.OpPruneTerminal? ==> s.publisher.Free? && s.link.Down?)
      && s' == PrunedTo(s, Apply(s.db, op, s.now))
    case Lock(a) => s.publisher.Free? && s' == s.(publisher := Locked(a))
    case ReadSeq =>
      && s.publisher.Locked?
      && s' == s.(publisher := match NextSeq(s.db, s.publisher.attempt)
                               case Ok(n) => Numbered(s.publisher.attempt, n)
                               case Err(_) => Free)
    case Abort => (s.publisher.Locked? || s.publisher.Numbered?) && s' == s.(publisher := Free)
    case Insert(e) =>
      && s.publisher.Numbered? && NewEnvelope(s, e, s.publisher.attempt, s.publisher.num)
      && (match Classify(s.db, e)
          case Repeated => s' == s.(publisher := Spooled(e))
          case Refused(_) => s' == s.(publisher := Free)
          case Fresh =>
            && e.attempt in s.tracks
            && var t := s.tracks[e.attempt];
            s' == s.(db := AfterInsert(s.db, e), publisher := Inserted(e), appended := s.appended + {e},
                     tracks := s.tracks[e.attempt := t.(top := if t.top < e.num then e.num else t.top,
                                                        torn := false, reused := t.reused || e.num <= t.top)]))
    case Bump =>
      && s.publisher.Inserted?
      && s' == s.(db := AfterBump(s.db, s.publisher.event.attempt, s.publisher.event.num, s.now),
                  publisher := Bumped(s.publisher.event))
    case Prune(maxBytes, days) =>
      && s.publisher.Bumped?
      && s' == PrunedTo(s, AfterPrune(s.db, maxBytes, days, s.now)).(publisher := Spooled(s.publisher.event))
    case Send(ok) =>
      && s.publisher.Spooled?
      && s' == s.(publisher := Free,
                  wire := if s.socket && ok then s.wire + {s.publisher.event} else s.wire,
                  socket := s.socket && ok)
    case StartupPrune(maxBytes, days) =>
      && s.publisher.Free? && s.link.Down?
      && s' == PrunedTo(s, AfterPrune(s.db, maxBytes, days, s.now))
    case Connect => s.link.Down? && s' == s.(link := Greeting, socket := true)
    case Welcome(cursors) =>
      && s.link.Greeting? && !OutboxLocked(s)
      && s' == s.(link := Replaying(Replayed(s.db.events, cursors, s.now)))
    case SendReplayed =>
      && s.link.Replaying? && s.link.rest != []
      && s' == s.(link := Replaying(s.link.rest[1..]), wire := s.wire + {s.link.rest[0]})
    case ReplayDone => s.link.Replaying? && s.link.rest == [] && s' == s.(link := Serving)
    case Deliver(e) => e in s.wire && s' == s.(wire := s.wire - {e}, received := s.received + {e})
    case LinkLost(gone) =>
      // Frames in flight may be gone or may still arrive.
      !s.link.Down? && s' == s.(link := Down, socket := false, wire := s.wire - gone)
    case Ack(a, n) =>
      && s.link.Serving? && !OutboxLocked(s)
      && var db' := AfterAck(s.db, a, n);
      var gone := Gone(s.db.events, db'.events);
      s' == s.(db := db', acked := s.acked + gone, honest := s.honest && HonestAck(s, a, n),
               tracks := map b | b in s.tracks :: s.tracks[b].(acked := s.tracks[b].acked + NumbersOf(gone, b)))
    case Restart(gone) =>
      s' == s.(publisher := Free, link := Down, socket := false, wire := s.wire - gone,
               tracks := if s.publisher.Inserted? && s.publisher.event.attempt in s.tracks
                         then s.tracks[s.publisher.event.attempt := s.tracks[s.publisher.event.attempt].(torn := true)]
                         else s.tracks)
  }

  ghost predicate Init(s: Net) {
    s == Net(Db(map[], [], map[]), s.now, Free, false, Down, {}, {}, map[], {}, {}, {}, true)
  }

  ghost predicate IsRun(states: seq<Net>, steps: seq<Step>) {
    && |states| == |steps| + 1
    && forall i | 0 <= i < |steps| :: Next(states[i], steps[i], states[i + 1])
  }

  ghost predicate Leads(s: Net, s': Net) {
    exists states, steps :: IsRun(states, steps) && states[0] == s && states[|steps|] == s'
  }

  ghost predicate Reachable(s: Net) {
    exists start :: Init(start) && Leads(start, s)
  }

  lemma LeadsHere(s: Net)
    ensures Leads(s, s)
  {
    var steps: seq<Step> := [];
    assert IsRun([s], steps) && [s][|steps|] == s;
  }

  lemma LeadsFurther(s: Net, middle: Net, step: Step, s': Net)
    requires Leads(s, middle) && Next(middle, step, s')
    ensures Leads(s, s')
  {
    var states, steps :| IsRun(states, steps) && states[0] == s && states[|steps|] == middle;
    var states', steps' := states + [s'], steps + [step];
    forall i | 0 <= i < |steps'|
      ensures Next(states'[i], steps'[i], states'[i + 1])
    {
      if i < |steps| {
        assert states'[i] == states[i] && states'[i + 1] == states[i + 1] && steps'[i] == steps[i];
      }
    }
    assert IsRun(states', steps') && states'[|steps'|] == s';
  }
}
