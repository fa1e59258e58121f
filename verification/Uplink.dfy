/**
 `BuildEngineUplink` (src/build_engine/agent/uplink.py): publishing, replaying and
 acknowledging attempt events, and the two command frames that publish.
 */
module Uplink {
  import opened Outcomes
  import opened QueueTables
  import opened QueueSpec
  import opened OutboxSpec
  import opened QueueStore
  import opened EventOutbox
  import opened CommandHandlers
  import Delivery

  // Three readings of the clock inside one append, and the fate of one send.
  datatype Circumstances = Circumstances(insertAt: Millis, bumpAt: Millis, pruneAt: Millis, sendOk: bool)

  // An envelope before it has a number; its text depends on the number.
  datatype Draft = Draft(id: EventId, attempt: AttemptId, isLog: bool, text: nat -> string)

  function Numbered(draft: Draft, n: nat, at: Millis): Event {
    Event(draft.id, draft.attempt, n, draft.isLog, draft.text(n), true, at, at)
  }

  // The tables after a whole `publish_attempt_event`, or its error.
  function Published(db: Db, draft: Draft, c: Circumstances, maxBytes: int, days: int): Result<(Db, Event), QueueError> {
    match NextSeq(db, draft.attempt)
    case Err(e) => Err(e)
    case Ok(n) =>
      var e := Numbered(draft, n, c.insertAt);
      match Classify(db, e)
      case Refused(error) => Err(error)
      case Repeated => Ok((db, e))
      case Fresh => Ok((AfterPrune(AfterBump(AfterInsert(db, e), e.attempt, n, c.bumpAt), maxBytes, days, c.pruneAt), e))
  }

  // The tables and the result of a publish, refused or not.
  predicate Answered(db: Db, draft: Draft, c: Circumstances, maxBytes: int, days: int, db': Db, result: Result<Event, QueueError>) {
    match Published(db, draft, c, maxBytes, days)
    case Err(error) => result == Err(error) && db' == db
    case Ok((after, e)) => result == Ok(e) && db' == after
  }

  class BuildEngineUplink {
    const spool: SQLiteEventOutbox
    const handlers: SQLiteCommandHandlers
    var socket: bool
    var sent: seq<Event>

    constructor (spool: SQLiteEventOutbox, handlers: SQLiteCommandHandlers)
      ensures this.spool == spool && this.handlers == handlers && !socket && sent == []
    {
      this.spool, this.handlers, this.socket, this.sent := spool, handlers, false, [];
    }

    method PublishAttemptEvent(draft: Draft, c: Circumstances) returns (result: Result<Event, QueueError>)
      modifies this, spool.db
      ensures match Published(old(spool.db.Value()), draft, c, spool.maxBytes, spool.retentionDays)
              case Err(error) =>
                && result == Err(error) && spool.db.Value() == old(spool.db.Value())
                && socket == old(socket) && sent == old(sent)
              case Ok((after, e)) =>
                && result == Ok(e) && spool.db.Value() == after
                && socket == (old(socket) && c.sendOk)
                && sent == if old(socket) && c.sendOk then old(sent) + [e] else old(sent)
      ensures result.Ok? ==>
                && draft.attempt in old(spool.db.jobs)
                && var n := old(spool.db.jobs)[draft.attempt].cursor + 1;
                result.value == Event(draft.id, draft.attempt, n, draft.isLog, draft.text(n), true, c.insertAt, c.insertAt)
    {
      var next := spool.NextSequence(draft.attempt);
      if next.Err? {
        return Err(next.error);
      }
      var e := Numbered(draft, next.value, c.insertAt);
      var appended := spool.Append(e, c.bumpAt, c.pruneAt);
      if appended.Err? {
        return Err(appended.error);
      }
      if socket {
        if c.sendOk {
          sent := sent + [e];
        } else {
          socket := false;
        }
      }
      return Ok(e);
    }

    /**
     The first `works` sends succeed and the next one raises, which ends the connection:
     what was sent is a prefix of the replay list, and all of it exactly when none raised.
     */
    method ReplaySpool(cursors: map<AttemptId, nat>, now: Millis, works: nat) returns (completed: bool)
      modifies this
      ensures var list := Replayed(spool.db.events, cursors, now);
              && completed == (|list| <= works)
              && sent == old(sent) + (if completed then list else list[..works])
      ensures socket == (old(socket) && completed)
    {
      var events := spool.ReplayAfter(cursors, now);
      for i := 0 to |events|
        invariant i <= works && sent == old(sent) + events[..i] && socket == old(socket)
      {
        if i == works {
          socket := false;
          return false;
        }
        assert events[..i + 1] == events[..i] + [events[i]];
        sent := sent + [events[i]];
      }
      assert events[..|events|] == events;
      return true;
    }

    /**
     The answer to `job.assign`: the state of the attempt, or FAILED while draining. A
     draining engine refuses a new attempt, but the refusal needs a sequence number of a row
     that does not exist: nothing is published and the frame handler fails, as it does for
     an attempt of another build.
     */
    method HandleAssign(build: BuildId, attempt: AttemptId, payload: Payload, reply: string -> Draft, c: Circumstances, now: Millis)
      returns (result: Result<Event, QueueError>)
      requires handlers.store.db == spool.db && forall state :: reply(state).attempt == attempt
      requires this as object != handlers && this as object != handlers.store
      modifies this, handlers, handlers.store, spool.db
      ensures handlers.marker == old(handlers.marker)
      ensures handlers.marker ==>
                Answered(old(spool.db.Value()), reply("FAILED"), c, spool.maxBytes, spool.retentionDays, spool.db.Value(), result)
      ensures handlers.marker && attempt !in old(spool.db.jobs) ==>
                result == Err(UnknownAttempt) && sent == old(sent)
      ensures !handlers.marker && attempt in old(spool.db.jobs) && old(spool.db.jobs)[attempt].build != build ==>
                result == Err(UnknownAttempt) && sent == old(sent) && spool.db.Value() == old(spool.db.Value())
      ensures !handlers.marker && (attempt in old(spool.db.jobs) ==> old(spool.db.jobs)[attempt].build == build) ==>
                exists rowid: nat :: AboveAllRowids(old(spool.db.jobs), rowid) &&
                  var queued := Apply(old(spool.db.Value()), OpEnqueue(build, attempt, payload, rowid), now);
                  && attempt in queued.jobs
                  && Answered(queued, reply(StateName(queued.jobs[attempt].state)), c, spool.maxBytes, spool.retentionDays,
                              spool.db.Value(), result)
    {
      var answer := handlers.Assign(build, attempt, payload, now);
      if answer.Err? {
        return Err(answer.error);
      }
      result := PublishAttemptEvent(reply(answer.value.state), c);
    }

    method AckEvent(attempt: AttemptId, lastSeq: nat)
      modifies spool.db
      ensures spool.db.Value() == AfterAck(old(spool.db.Value()), attempt, lastSeq)
    {
      spool.AckThrough(attempt, lastSeq);
    }
  }

  // ---------- an undisturbed publish is a run of the delivery machine ----------

  /** What `PublishAttemptEvent` computes at once, the delivery machine reaches statement by statement. */
  lemma PublishIsRun(s: Delivery.Net, draft: Draft, c: Circumstances, maxBytes: int, days: int) returns (s': Delivery.Net)
    requires s.publisher.Free? && s.now == c.insertAt <= c.bumpAt <= c.pruneAt && s.tracks.Keys == s.db.jobs.Keys
    requires forall e | e in s.appended :: e.id != draft.id && forall n :: e.json != draft.text(n)
    ensures Delivery.Leads(s, s') && s'.publisher.Free?
    ensures match Published(s.db, draft, c, maxBytes, days)
            case Err(_) => s'.db == s.db && s'.wire == s.wire
            case Ok((after, e)) =>
              s'.db == after && s'.wire == if s.socket && c.sendOk then s.wire + {e} else s.wire
  {
    Delivery.LeadsHere(s);
    var locked := s.(publisher := Delivery.Locked(draft.attempt));
    Delivery.LeadsFurther(s, s, Delivery.Lock(draft.attempt), locked);
    if draft.attempt !in s.db.jobs {
      s' := s;
      Delivery.LeadsFurther(s, locked, Delivery.ReadSeq, s');
      return;
    }
    var n := s.db.jobs[draft.attempt].cursor + 1;
    var numbered := s.(publisher := Delivery.Numbered(draft.attempt, n));
    Delivery.LeadsFurther(s, locked, Delivery.ReadSeq, numbered);
    var e := Numbered(draft, n, c.insertAt);
    match Classify(s.db, e)
    case Refused(_) =>
      s' := s;
      Delivery.LeadsFurther(s, numbered, Delivery.Insert(e), s');
    case Repeated =>
      var spooled := s.(publisher := Delivery.Spooled(e));
      Delivery.LeadsFurther(s, numbered, Delivery.Insert(e), spooled);
      s' := AfterSend(s, spooled, e, c.sendOk);
    case Fresh =>
      var inserted := InsertedNet(s, numbered, e);
      var at := inserted.(now := c.bumpAt);
      Delivery.LeadsFurther(s, inserted, Delivery.Tick(c.bumpAt), at);
      var bumped := at.(db := AfterBump(at.db, e.attempt, e.num, c.bumpAt), publisher := Delivery.Bumped(e));
      Delivery.LeadsFurther(s, at, Delivery.Bump, bumped);
      var later := bumped.(now := c.pruneAt);
      Delivery.LeadsFurther(s, bumped, Delivery.Tick(c.pruneAt), later);
      var db' := AfterPrune(later.db, maxBytes, days, c.pruneAt);
      var spooled := Delivery.PrunedTo(later, db').(publisher := Delivery.Spooled(e));
      Delivery.LeadsFurther(s, later, Delivery.Prune(maxBytes, days), spooled);
      s' := AfterSend(s, spooled, e, c.sendOk);
  }

  lemma InsertedNet(s: Delivery.Net, numbered: Delivery.Net, e: Event) returns (s': Delivery.Net)
    requires Delivery.Leads(s, numbered) && numbered.publisher == Delivery.Numbered(e.attempt, e.num)
    requires Delivery.NewEnvelope(numbered, e, e.attempt, e.num) && Classify(numbered.db, e) == Fresh
    requires e.attempt in numbered.tracks
    ensures Delivery.Leads(s, s') && s'.db == AfterInsert(numbered.db, e) && s'.publisher == Delivery.Inserted(e)
    ensures s'.now == numbered.now && s'.wire == numbered.wire && s'.socket == numbered.socket
  {
    var t := numbered.tracks[e.attempt];
    s' := numbered.(db := AfterInsert(numbered.db, e), publisher := Delivery.Inserted(e),
                    appended := numbered.appended + {e},
                    tracks := numbered.tracks[e.attempt := t.(top := if t.top < e.num then e.num else t.top,
                                                              torn := false, reused := t.reused || e.num <= t.top)]);
    Delivery.LeadsFurther(s, numbered, Delivery.Insert(e), s');
  }

  lemma AfterSend(s: Delivery.Net, spooled: Delivery.Net, e: Event, ok: bool) returns (s': Delivery.Net)
    requires Delivery.Leads(s, spooled) && spooled.publisher == Delivery.Spooled(e)
    ensures Delivery.Leads(s, s') && s'.publisher.Free? && s'.db == spooled.db
    ensures s'.wire == if spooled.socket && ok then spooled.wire + {e} else spooled.wire
  {
    s' := spooled.(publisher := Delivery.Free,
                   wire := if spooled.socket && ok then spooled.wire + {e} else spooled.wire,
                   socket := spooled.socket && ok);
    Delivery.LeadsFurther(s, spooled, Delivery.Send(ok), s');
  }
}
