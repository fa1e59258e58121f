/**
 Two runs from an empty database in which delivery falls short of its documentation.
 The exact conditions are `ReuseExactly`, `ReplayExactly` and `AckAfterReplay`.
 */
module DeliveryShortfalls {
  import opened Outcomes
  import opened QueueTables
  import opened QueueSpec
  import opened OutboxSpec
  import opened Delivery
  import opened DeliveryInvariant

  const ATTEMPT: AttemptId := 7

  function Status(id: EventId, num: nat, at: Millis): Event
    requires id < 128
  {
    Event(id, ATTEMPT, num, false, [id as char, '.'], true, at, at)
  }

  lemma Reach(s: Net, step: Step, s': Net)
    requires Reachable(s) && Next(s, step, s')
    ensures Reachable(s')
  {
    var start :| Init(start) && Leads(start, s);
    LeadsFurther(start, s, step, s');
  }

  // One attempt is enqueued at time 0.
  lemma Enqueue() returns (s: Net)
    ensures Reachable(s)
    ensures s == Net(Db(map[ATTEMPT := NewRow(1, map[], 0, 1)], [], map[]), 0, Free, false, Down, {}, {},
                     map[ATTEMPT := NEW_TRACK], {}, {}, {}, true)
  {
    var s0 := Net(Db(map[], [], map[]), 0, Free, false, Down, {}, {}, map[], {}, {}, {}, true);
    LeadsHere(s0);
    s := PrunedTo(s0, Apply(s0.db, OpEnqueue(1, ATTEMPT, map[], 1), 0));
    Reach(s0, StoreCall(OpEnqueue(1, ATTEMPT, map[], 1)), s);
    assert Gone([], []) == {};
    assert DurablePayload(map[]) == map[];
  }

  // The publisher takes the lock, reads a number and inserts the event.
  lemma Publish(s: Net, e: Event) returns (s': Net)
    requires Reachable(s) && s.publisher.Free? && ATTEMPT in s.db.jobs && ATTEMPT in s.tracks
    requires NewEnvelope(s, e, ATTEMPT, s.db.jobs[ATTEMPT].cursor + 1) && Classify(s.db, e) == Fresh
    ensures Reachable(s')
    ensures var t := s.tracks[ATTEMPT];
            s' == s.(db := AfterInsert(s.db, e), publisher := Inserted(e), appended := s.appended + {e},
                     tracks := s.tracks[ATTEMPT := t.(top := if t.top < e.num then e.num else t.top,
                                                      torn := false, reused := t.reused || e.num <= t.top)])
  {
    var s1 := s.(publisher := Locked(ATTEMPT));
    Reach(s, Lock(ATTEMPT), s1);
    var s2 := s1.(publisher := Numbered(ATTEMPT, s.db.jobs[ATTEMPT].cursor + 1));
    Reach(s1, ReadSeq, s2);
    var t := s.tracks[ATTEMPT];
    s' := s2.(db := AfterInsert(s.db, e), publisher := Inserted(e), appended := s.appended + {e},
              tracks := s.tracks[ATTEMPT := t.(top := if t.top < e.num then e.num else t.top,
                                               torn := false, reused := t.reused || e.num <= t.top)]);
    Reach(s2, Insert(e), s');
  }

  // The backend welcomes the engine with empty cursors, and nothing is lost on the way.
  lemma ReplayOne(s: Net, e: Event) returns (s': Net)
    requires Reachable(s) && s.link.Greeting? && s.publisher.Free? && s.wire == {}
    requires Replayed(s.db.events, map[], s.now) == [e]
    ensures Reachable(s') && s' == s.(link := Serving, received := s.received + {e})
  {
    var s1 := s.(link := Replaying([e]));
    Reach(s, Welcome(map[]), s1);
    var s2 := s1.(link := Replaying([]), wire := {e});
    assert [e][1..] == [];
    Reach(s1, SendReplayed, s2);
    var s3 := s2.(wire := {}, received := s.received + {e});
    assert {e} - {e} == {};
    Reach(s2, Deliver(e), s3);
    s' := s3.(link := Serving);
    Reach(s3, ReplayDone, s');
  }

  lemma {:induction false} SelectNone(events: seq<Event>, keep: Event -> bool)
    requires forall e | e in events :: !keep(e)
    ensures Select(events, keep) == []
  {
    if events != [] { SelectNone(events[1..], keep); }
  }

  lemma AckAll(s: Net, n: nat) returns (s': Net)
    requires Reachable(s) && s.link.Serving? && s.publisher.Free?
    requires forall e | e in s.db.events :: e.attempt == ATTEMPT && e.num <= n
    ensures Reachable(s') && s'.db == s.db.(events := []) && s'.appended == s.appended && s'.received == s.received
    ensures s'.publisher == s.publisher && s'.link == s.link && s'.wire == s.wire && s'.now == s.now && s'.pruned == s.pruned && s'.tracks.Keys == s.tracks.Keys
    ensures forall b | b in s.tracks :: s'.tracks[b].top == s.tracks[b].top && s'.tracks[b].torn == s.tracks[b].torn
  {
    var db' := AfterAck(s.db, ATTEMPT, n);
    SelectNone(s.db.events, (e: Event) => !(e.attempt == ATTEMPT && e.num <= n));
    var gone := Gone(s.db.events, db'.events);
    s' := s.(db := db', acked := s.acked + gone, honest := s.honest && HonestAck(s, ATTEMPT, n),
             tracks := map b | b in s.tracks :: s.tracks[b].(acked := s.tracks[b].acked + NumbersOf(gone, b)));
    Reach(s, Ack(ATTEMPT, n), s');
  }

  // The process dies inside the append of `e` and connects again.
  lemma TearAndReconnect(s: Net, e: Event) returns (s': Net)
    requires Reachable(s) && s.publisher == Inserted(e) && e.attempt in s.tracks
    ensures Reachable(s')
    ensures s' == s.(publisher := Free, link := Greeting, socket := true, wire := {},
                     tracks := s.tracks[e.attempt := s.tracks[e.attempt].(torn := true)])
  {
    var s1 := s.(publisher := Free, link := Down, socket := false, wire := {},
                 tracks := s.tracks[e.attempt := s.tracks[e.attempt].(torn := true)]);
    Reach(s, Restart(s.wire), s1);
    s' := s1.(link := Greeting, socket := true);
    Reach(s1, Connect, s');
  }

  /** A restart inside an append, then replay and an honest acknowledgement: two different events get number 1. */
  lemma TornAppendReusesNumber() returns (s: Net, first: Event, second: Event)
    ensures Reachable(s) && first in s.appended && second in s.appended && first in s.received
    ensures first != second && first.attempt == second.attempt && first.num == second.num == 1
    ensures ATTEMPT in s.tracks && s.tracks[ATTEMPT].reused
  {
    first, second := Status(100, 1, 0), Status(101, 1, 0);
    var s0 := Enqueue();
    var s1 := Publish(s0, first);
    var s3 := TearAndReconnect(s1, first);
    ReplayOfOne(first, 0);
    var s4 := ReplayOne(s3, first);
    var s5 := AckAll(s4, 1);
    s := Publish(s5, second);
  }

  lemma ReplayOfOne(e: Event, now: Millis)
    requires Decodable(e, now) && e.num > 0
    ensures Replayed([e], map[], now) == [e]
  {
    assert Replayable(e, map[], now);
    assert Select([e][1..], f => Replayable(f, map[], now)) == [];
  }

  lemma {:induction false} PruneNothing(events: seq<Event>, jobs: Jobs, days: int, now: Millis)
    requires forall e | e in events :: !AgedOut(e, jobs, days, now)
    ensures Unaged(events, jobs, days, now) == events
  {
    if events != [] { PruneNothing(events[1..], jobs, days, now); }
  }

  // Statement by statement, the rest of an append of a small event to a young spool.
  lemma FinishAppend(s: Net, e: Event) returns (s': Net)
    requires Reachable(s) && s.publisher == Inserted(e) && e.attempt in s.db.jobs
    requires s.db.jobs[e.attempt].state == Queued && s.tracks.Keys == s.db.jobs.Keys
    requires forall f | f in s.db.events :: f.attempt == e.attempt
    requires Bytes(s.db.events) <= 268_435_456
    ensures Reachable(s')
    ensures s' == s.(db := AfterBump(s.db, e.attempt, e.num, s.now), publisher := Spooled(e))
  {
    var s1 := s.(db := AfterBump(s.db, e.attempt, e.num, s.now), publisher := Bumped(e));
    Reach(s, Bump, s1);
    PruneNothing(s1.db.events, s1.db.jobs, 7, s1.now);
    var db' := AfterPrune(s1.db, 268_435_456, 7, s1.now);
    assert db' == s1.db;
    PruneToSame(s1);
    s' := s1.(publisher := Spooled(e));
    Reach(s1, Prune(268_435_456, 7), s');
  }

  lemma PruneToSame(s: Net)
    requires s.tracks.Keys == s.db.jobs.Keys
    ensures PrunedTo(s, s.db) == s
  {
    var gone := Gone(s.db.events, s.db.events);
    assert gone == {};
    forall a | a in s.tracks
      ensures TracksAfter(s.tracks, s.db.jobs, gone)[a] == s.tracks[a]
    {
      assert NumbersOf(gone, a) == {};
    }
  }

  const SIX_MINUTES: Millis := 6 * 60 * SECOND

  // Two events are published without a connection, six minutes apart.
  lemma OfflineForSixMinutes(lost: Event, last: Event) returns (s: Net)
    requires lost == Status(100, 1, 0) && last == Status(101, 2, SIX_MINUTES)
    ensures Reachable(s) && s.publisher.Free? && s.link.Down? && s.wire == {} && s.received == {} && s.pruned == {}
    ensures s.now == SIX_MINUTES && s.db.events == [lost, last] && s.appended == {lost, last}
    ensures s.tracks.Keys == {ATTEMPT}
  {
    var s0 := Enqueue();
    TwoBytes(lost, last);
    assert Placed([], lost) == [] + [lost];
    var s1 := PublishOffline(s0, lost, []);
    var s2 := s1.(now := SIX_MINUTES);
    Reach(s1, Tick(SIX_MINUTES), s2);
    assert Precedes(lost, last) && !Precedes(last, lost);
    assert Placed([lost], last) == [lost] + [last];
    s := PublishOffline(s2, last, [lost]);
  }

  /**
   An event published while the engine is offline for six minutes. Replay skips it, the
   backend receives every message the engine sends and acknowledges the last number, and
   the acknowledgement deletes the event: it was never received and never will be.
   */
  lemma StaleEventIsLost() returns (s: Net, lost: Event, last: Event)
    ensures Reachable(s) && lost in s.appended && last in s.received && lost.num < last.num
    ensures lost !in s.received && lost !in s.db.events && lost !in s.pruned
    ensures s.link.Serving? && s.wire == {} && s.received == {last}
  {
    lost, last := Status(100, 1, 0), Status(101, 2, SIX_MINUTES);
    var s3 := OfflineForSixMinutes(lost, last);
    var s4 := s3.(link := Greeting, socket := true);
    Reach(s3, Connect, s4);
    ReplayOfTwo(lost, last, SIX_MINUTES);
    var s5 := ReplayOne(s4, last);
    s := AckAll(s5, 2);
  }

  // One whole publish without a websocket.
  lemma PublishOffline(s: Net, e: Event, spool: seq<Event>) returns (s': Net)
    requires Reachable(s) && s.publisher.Free? && !s.socket && s.db.jobs.Keys == s.tracks.Keys == {ATTEMPT}
    requires s.db.jobs[ATTEMPT].state == Queued && s.db.jobs[ATTEMPT].cursor + 1 == e.num
    requires s.db.events == spool && Placed(spool, e) == spool + [e] && Bytes(spool + [e]) <= 268_435_456
    requires forall f | f in spool :: f.attempt == ATTEMPT && f.num < e.num && f.id != e.id
    requires NewEnvelope(s, e, ATTEMPT, e.num)
    ensures Reachable(s') && s'.publisher.Free? && s'.db.events == spool + [e] && s'.appended == s.appended + {e}
    ensures s'.db.jobs.Keys == s'.tracks.Keys == {ATTEMPT}
    ensures s'.db.jobs[ATTEMPT].state == Queued && s'.db.jobs[ATTEMPT].cursor == e.num
    ensures s'.link == s.link && !s'.socket && s'.wire == s.wire && s'.received == s.received && s'.now == s.now
    ensures s'.pruned == s.pruned
  {
    assert Classify(s.db, e) == Fresh;
    var s1 := Publish(s, e);
    var s2 := FinishAppend(s1, e);
    s' := s2.(publisher := Free);
    Reach(s2, Send(true), s');
  }

  lemma TwoBytes(e: Event, f: Event)
    requires |e.json| == 2 && |f.json| == 2
    ensures Bytes([] + [e]) == 2 && Bytes([e] + [f]) == 4
  {
    assert [e] + [f] == [e, f];
    assert [e, f][1..] == [f];
    assert Bytes([f]) == 2;
  }

  lemma ReplayOfTwo(lost: Event, last: Event, now: Millis)
    requires !Decodable(lost, now) && Decodable(last, now) && last.num > 0
    ensures Replayed([lost, last], map[], now) == [last]
  {
    assert [lost, last][1..] == [last];
    assert Select([last], e => Replayable(e, map[], now)) == [last];
  }
}
