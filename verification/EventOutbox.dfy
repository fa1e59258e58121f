/**
 `SQLiteEventOutbox`: the event spool in the same database. Each statement of `append`
 reads the clock on its own, so `append` takes three readings.
 */
module EventOutbox {
  import opened Outcomes
  import opened QueueTables
  import opened OutboxSpec
  import opened QueueStore

  class SQLiteEventOutbox {
    const db: Database
    const maxBytes: int
    const retentionDays: int

    constructor (db: Database, maxBytes: int, retentionDays: int)
      ensures this.db == db && this.maxBytes == maxBytes && this.retentionDays == retentionDays
    {
      this.db, this.maxBytes, this.retentionDays := db, maxBytes, retentionDays;
    }

    method Append(e: Event, updateNow: Millis, pruneNow: Millis) returns (result: Result<(), QueueError>)
      modifies db
      ensures match Classify(old(db.Value()), e)
              case Fresh =>
                var inserted := ApplyOutbox(old(db.Value()), OpInsert(e), e.created);
                var bumped := ApplyOutbox(inserted, OpBump(e.attempt, e.num), updateNow);
                result == Ok(()) && db.Value() == ApplyOutbox(bumped, OpPrune(maxBytes, retentionDays), pruneNow)
              case Repeated => result == Ok(()) && db.Value() == old(db.Value())
              case Refused(error) => result == Err(error) && db.Value() == old(db.Value())
    {
      if exists i :: 0 <= i < |db.events| && db.events[i].attempt == e.attempt && db.events[i].num == e.num {
        if !HoldsSame(db.events, e) {
          return Err(Conflict);
        }
        return Ok(());
      }
      if !Insertable(db.Value(), e) {
        return Err(Integrity);
      }
      db.events := Placed(db.events, e);
      var r := db.jobs[e.attempt];
      db.jobs := db.jobs[e.attempt := r.(cursor := if r.cursor < e.num then e.num else r.cursor, updated := updateNow)];
      var _ := Prune(pruneNow);
      return Ok(());
    }

    method AckThrough(attempt: AttemptId, lastSeq: nat)
      modifies db
      ensures db.Value() == ApplyOutbox(old(db.Value()), OpAck(attempt, lastSeq), 0)
    {
      db.events := Select(db.events, (e: Event) => !(e.attempt == attempt && e.num <= lastSeq));
    }

    method ReplayAfter(cursors: map<AttemptId, nat>, now: Millis) returns (events: seq<Event>)
      ensures events == Replayed(db.events, cursors, now)
    {
      events := [];
      for i := 0 to |db.events|
        invariant events == Replayed(db.events[..i], cursors, now)
      {
        var e := db.events[i];
        SelectAppend(db.events[..i], [e], e => Replayable(e, cursors, now));
        assert db.events[..i + 1] == db.events[..i] + [e];
        if e.num <= CursorOf(cursors, e.attempt) {
          continue;
        }
        if !Decodable(e, now) {
          continue;
        }
        events := events + [e];
      }
      assert db.events[..|db.events|] == db.events;
    }

    method NextSequence(attempt: AttemptId) returns (next: Result<nat, QueueError>)
      ensures next == NextSeq(db.Value(), attempt)
    {
      if attempt !in db.jobs {
        return Err(UnknownAttempt);
      }
      return Ok(db.jobs[attempt].cursor + 1);
    }

    method Prune(now: Millis) returns (removed: nat)
      modifies db
      ensures db.Value() == ApplyOutbox(old(db.Value()), OpPrune(maxBytes, retentionDays), now)
      ensures removed == |old(db.events)| - |db.events|
    {
      var cutoff := now - retentionDays * DAY;
      var before := db.events;
      db.events := Unaged(db.events, db.jobs, retentionDays, now);
      ghost var jobs := db.jobs;
      SelectMembers(before, e => !AgedOut(e, jobs, retentionDays, now));
      removed := |before| - |db.events|;
      ghost var unaged := db.events;
      while Bytes(db.events) > maxBytes
        invariant db.jobs == old(db.jobs) && db.dlq == old(db.dlq)
        invariant |db.events| <= |before| && removed == |before| - |db.events|
        invariant Trimmed(db.events, maxBytes) == Trimmed(unaged, maxBytes)
        decreases |db.events|
      {
        if db.events == [] {
          break;
        }
        if Logs(db.events) != [] {
          WithoutFirstLogShape(db.events);
          db.events := WithoutFirstLog(db.events);
        } else {
          db.events := db.events[1..];
        }
        removed := removed + 1;
      }
    }
  }
}
