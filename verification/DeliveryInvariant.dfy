/** The invariant of event delivery, kept by every step. */
module DeliveryInvariant {
  import opened Outcomes
  import opened QueueTables
  import opened QueueSpec
  import opened OutboxSpec
  import opened Delivery

  // ---------- the event table ----------

  ghost predicate OneEach(events: seq<Event>) {
    forall e, f | e in events && f in events && e.attempt == f.attempt && e.num == f.num :: e == f
  }

  // Later numbers of an attempt are never older.
  ghost predicate AgesFollow(events: seq<Event>) {
    forall e, f | e in events && f in events && e.attempt == f.attempt && e.num < f.num :: e.created <= f.created
  }

  ghost predicate TableInv(s: Net) {
    && InOrder(s.db.events) && OneEach(s.db.events) && AgesFollow(s.db.events)
    && s.tracks.Keys == s.db.jobs.Keys
    && (forall a | a in s.db.jobs :: s.db.jobs[a].updated <= s.now)
    && (forall e | e in s.db.events ::
          e.attempt in s.db.jobs && e.attempt in s.tracks && e.created <= s.now && 1 <= e.num <= s.tracks[e.attempt].top)
  }

  // A row is at least as young as the numbered events it owns.
  ghost predicate YouthInv(s: Net) {
    forall e | e in s.db.events && e.attempt in s.db.jobs && e.num <= s.db.jobs[e.attempt].cursor ::
      e.created <= s.db.jobs[e.attempt].updated
  }

  // ---------- the cursor and the publisher ----------

  predicate Between(s: Net, a: AttemptId) {
    s.publisher.Inserted? && s.publisher.event.attempt == a
  }

  ghost predicate CursorInv(s: Net) {
    && (forall a | a in s.db.jobs && a in s.tracks ::
          && (s.tracks[a].torn ==> !Between(s, a))
          && s.tracks[a].top == s.db.jobs[a].cursor + (if s.tracks[a].torn || Between(s, a) then 1 else 0))
    && (s.publisher.Numbered? ==>
          s.publisher.attempt in s.db.jobs && s.publisher.num == s.db.jobs[s.publisher.attempt].cursor + 1)
    && (s.publisher.Inserted? ==>
          var e := s.publisher.event;
          e.attempt in s.db.jobs && e.num == s.db.jobs[e.attempt].cursor + 1 && e.created <= s.now)
  }

  // ---------- the numbers of one life ----------

  ghost predicate Complete(spooled: set<nat>, t: Track) {
    forall n: nat :: 1 <= n <= t.top <==> n in spooled || n in t.acked || n in t.pruned
  }

  ghost predicate Apart(spooled: set<nat>, t: Track) {
    spooled !! t.acked && spooled !! t.pruned && t.acked !! t.pruned
  }

  ghost predicate NumbersInv(s: Net) {
    forall a | a in s.tracks ::
      Complete(SpooledNumbers(s.db.events, a), s.tracks[a])
      && (!s.tracks[a].reused ==> Apart(SpooledNumbers(s.db.events, a), s.tracks[a]))
  }

  // ---------- where the events went ----------

  ghost predicate FateInv(s: Net) {
    && (forall e :: e in s.appended <==> e in s.db.events || e in s.acked || e in s.pruned)
    && (s.honest ==> s.acked <= s.received)
    && (s.link.Down? ==> !s.socket)
    && (forall e | e in s.appended :: e.wellFormed && e.ts <= s.now)
  }

  ghost predicate Inv(s: Net) {
    TableInv(s) && YouthInv(s) && CursorInv(s) && NumbersInv(s) && FateInv(s)
  }

  // ---------- store calls ----------

  lemma StoreCallColumns(db: Db, op: QueueOp, now: Millis)
    ensures var db' := Apply(db, op, now);
            && (forall a | a in db'.jobs && a in db.jobs ::
                  db'.jobs[a].cursor == db.jobs[a].cursor && (db'.jobs[a].updated == db.jobs[a].updated || db'.jobs[a].updated == now))
            && (forall a | a in db'.jobs && a !in db.jobs :: db'.jobs[a].cursor == 0 && db'.jobs[a].updated == now)
            && (!op.OpPruneTerminal? ==> db.jobs.Keys <= db'.jobs.Keys && db'.events == db.events)
  {
    if op.OpAcquire? { NextLeaseIsLeast(db.jobs, now); }
  }

  lemma PrunedTerminalEvents(db: Db, days: int, now: Millis)
    ensures var db' := PrunedTerminal(db, days, now);
            && db'.jobs.Keys <= db.jobs.Keys
            && (forall e :: e in db'.events <==> e in db.events && e.attempt in db'.jobs)
            && (InOrder(db.events) ==> InOrder(db'.events))
  {
    var kept := UnexpiredJobs(db.jobs, days, now);
    SelectMembers(db.events, (e: Event) => e.attempt in kept);
    if InOrder(db.events) { SelectInOrder(db.events, (e: Event) => e.attempt in kept); }
  }

  lemma AfterPruneEvents(db: Db, maxBytes: int, days: int, now: Millis)
    requires InOrder(db.events)
    ensures var db' := AfterPrune(db, maxBytes, days, now);
            db'.jobs == db.jobs && InOrder(db'.events) && forall e | e in db'.events :: e in db.events
  {
    var keep := (e: Event) => !AgedOut(e, db.jobs, days, now);
    SelectMembers(db.events, keep);
    SelectInOrder(db.events, keep);
    TrimmedMembers(Unaged(db.events, db.jobs, days, now), maxBytes);
  }

  lemma AfterAckEvents(db: Db, a: AttemptId, n: nat)
    ensures var db' := AfterAck(db, a, n);
            && (forall e :: e in db'.events <==> e in db.events && !(e.attempt == a && e.num <= n))
            && (InOrder(db.events) ==> InOrder(db'.events))
  {
    var keep := (e: Event) => !(e.attempt == a && e.num <= n);
    SelectMembers(db.events, keep);
    if InOrder(db.events) { SelectInOrder(db.events, keep); }
  }

  // Deleting rows, as retention does, keeps everything.
  lemma PrunedToInv(s: Net, db': Db)
    requires Inv(s)
    requires InOrder(db'.events)
    requires forall e | e in db'.events :: e in s.db.events
    requires forall e | e in db'.events :: e.attempt in db'.jobs
    requires forall a | a in db'.jobs && a in s.db.jobs ::
               db'.jobs[a].cursor == s.db.jobs[a].cursor && s.db.jobs[a].updated <= db'.jobs[a].updated <= s.now
    requires forall a | a in db'.jobs && a !in s.db.jobs :: db'.jobs[a].cursor == 0 && db'.jobs[a].updated == s.now
    requires s.publisher.Numbered? ==> s.publisher.attempt in db'.jobs
    requires s.publisher.Inserted? ==> s.publisher.event.attempt in db'.jobs
    ensures Inv(PrunedTo(s, db'))
  {
    PrunedToTable(s, db');
    PrunedToNumbers(s, db');
  }

  lemma PrunedToTable(s: Net, db': Db)
    requires TableInv(s) && InOrder(db'.events)
    requires forall e | e in db'.events :: e in s.db.events && e.attempt in db'.jobs
    requires forall a | a in db'.jobs :: db'.jobs[a].updated <= s.now
    ensures TableInv(PrunedTo(s, db'))
  {
  }

  lemma PrunedToNumbers(s: Net, db': Db)
    requires TableInv(s) && NumbersInv(s) && forall e | e in db'.events :: e in s.db.events
    requires forall e | e in db'.events :: e.attempt in db'.jobs
    ensures NumbersInv(PrunedTo(s, db'))
  {
    var s' := PrunedTo(s, db');
    forall a | a in s'.tracks
      ensures Complete(SpooledNumbers(s'.db.events, a), s'.tracks[a])
      ensures !s'.tracks[a].reused ==> Apart(SpooledNumbers(s'.db.events, a), s'.tracks[a])
    {
      NumbersAfterDelete(s.db.events, db'.events, a);
    }
  }

  lemma NumbersAfterDelete(events: seq<Event>, events': seq<Event>, a: AttemptId)
    requires forall e | e in events' :: e in events
    requires OneEach(events)
    ensures var gone := NumbersOf(Gone(events, events'), a);
            SpooledNumbers(events, a) == SpooledNumbers(events', a) + gone && SpooledNumbers(events', a) !! gone
  {
    forall n | n in SpooledNumbers(events, a)
      ensures n in SpooledNumbers(events', a) + NumbersOf(Gone(events, events'), a)
    {
      var e :| e in events && e.attempt == a && e.num == n;
      assert e in events' || e in Gone(events, events');
    }
  }

  lemma StoreCallInv(s: Net, op: QueueOp, s': Net)
    requires Inv(s) && Next(s, StoreCall(op), s')
    ensures Inv(s')
  {
    var db' := Apply(s.db, op, s.now);
    StoreCallColumns(s.db, op, s.now);
    if op.OpPruneTerminal? { PrunedTerminalEvents(s.db, op.days, s.now); }
    PrunedToInv(s, db');
  }

  lemma PruneInv(s: Net, maxBytes: int, days: int)
    requires Inv(s)
    ensures Inv(PrunedTo(s, AfterPrune(s.db, maxBytes, days, s.now)))
  {
    AfterPruneEvents(s.db, maxBytes, days, s.now);
    PrunedToInv(s, AfterPrune(s.db, maxBytes, days, s.now));
  }

  lemma PruneStep(s: Net, step: Step, s': Net)
    requires Inv(s) && Next(s, step, s') && (step.Prune? || step.StartupPrune?)
    ensures Inv(s')
  {
    PruneInv(s, step.maxBytes, step.days);
    QuietInv(PrunedTo(s, AfterPrune(s.db, step.maxBytes, step.days, s.now)), s');
  }

  lemma AckInv(s: Net, a: AttemptId, n: nat, s': Net)
    requires Inv(s) && Next(s, Ack(a, n), s')
    ensures Inv(s')
  {
    AfterAckEvents(s.db, a, n);
    AckNumbers(s, a, n, s');
  }

  lemma AckNumbers(s: Net, a: AttemptId, n: nat, s': Net)
    requires TableInv(s) && NumbersInv(s) && Next(s, Ack(a, n), s')
    ensures NumbersInv(s')
  {
    AfterAckEvents(s.db, a, n);
    forall b | b in s'.tracks
      ensures Complete(SpooledNumbers(s'.db.events, b), s'.tracks[b])
      ensures !s'.tracks[b].reused ==> Apart(SpooledNumbers(s'.db.events, b), s'.tracks[b])
    {
      NumbersAfterDelete(s.db.events, s'.db.events, b);
    }
  }

  // ---------- append ----------

  // The new row is the youngest and carries the largest number of its attempt.
  lemma InsertTable(s: Net, e: Event, s': Net)
    requires TableInv(s) && CursorInv(s) && Next(s, Insert(e), s') && Classify(s.db, e) == Fresh
    ensures TableInv(s')
  {
    PlacedInOrder(s.db.events, e);
    assert e.num == s.db.jobs[e.attempt].cursor + 1;
    InsertAges(s, e);
  }

  lemma InsertYouth(s: Net, e: Event, s': Net)
    requires Inv(s) && Next(s, Insert(e), s') && Classify(s.db, e) == Fresh
    ensures YouthInv(s')
  {
    PlacedInOrder(s.db.events, e);
  }

  lemma InsertAges(s: Net, e: Event)
    requires TableInv(s) && Classify(s.db, e) == Fresh && e.created == s.now
    requires e.attempt in s.tracks && s.tracks[e.attempt].top <= e.num
    ensures var events' := Placed(s.db.events, e); OneEach(events') && AgesFollow(events') && InOrder(events')
  {
    PlacedInOrder(s.db.events, e);
  }

  lemma InsertNumbers(s: Net, e: Event, s': Net)
    requires Inv(s) && Next(s, Insert(e), s') && Classify(s.db, e) == Fresh
    ensures NumbersInv(s')
  {
    PlacedInOrder(s.db.events, e);
    forall a | a in s'.tracks
      ensures Complete(SpooledNumbers(s'.db.events, a), s'.tracks[a])
      ensures !s'.tracks[a].reused ==> Apart(SpooledNumbers(s'.db.events, a), s'.tracks[a])
    {
      var before, after := SpooledNumbers(s.db.events, a), SpooledNumbers(s'.db.events, a);
      assert after == if a == e.attempt then before + {e.num} else before;
      assert Complete(before, s.tracks[a]);
    }
  }

  lemma InsertInv(s: Net, e: Event, s': Net)
    requires Inv(s) && Next(s, Insert(e), s')
    ensures Inv(s')
  {
    if Classify(s.db, e) == Fresh {
      PlacedInOrder(s.db.events, e);
      InsertTable(s, e, s');
      InsertYouth(s, e, s');
      InsertNumbers(s, e, s');
    }
  }

  lemma BumpInv(s: Net, s': Net)
    requires Inv(s) && Next(s, Bump, s')
    ensures Inv(s')
  {
  }

  lemma RestartInv(s: Net, gone: set<Event>, s': Net)
    requires Inv(s) && Next(s, Restart(gone), s')
    ensures Inv(s')
  {
    forall a | a in s'.tracks
      ensures Complete(SpooledNumbers(s'.db.events, a), s'.tracks[a])
      ensures !s'.tracks[a].reused ==> Apart(SpooledNumbers(s'.db.events, a), s'.tracks[a])
    {
      assert Complete(SpooledNumbers(s.db.events, a), s.tracks[a]);
    }
  }

  // The spool and its history stay; publisher, link and clock may move.
  lemma QuietInv(s: Net, s': Net)
    requires Inv(s)
    requires s'.db == s.db && s'.tracks == s.tracks && s.now <= s'.now
    requires s'.appended == s.appended && s'.acked == s.acked && s'.pruned == s.pruned && s'.honest == s.honest
    requires s.received <= s'.received
    requires s'.publisher.Inserted? == s.publisher.Inserted? && (s.publisher.Inserted? ==> s'.publisher == s.publisher)
    requires s'.publisher.Numbered? ==>
               s'.publisher.attempt in s.db.jobs && s'.publisher.num == s.db.jobs[s'.publisher.attempt].cursor + 1
    requires s'.link.Down? ==> !s'.socket
    ensures Inv(s')
  {
    assert NumbersInv(s');
  }

  /** Every step keeps the invariant. */
  lemma InvStep(s: Net, step: Step, s': Net)
    requires Inv(s) && Next(s, step, s')
    ensures Inv(s')
  {
    if step.StoreCall? { StoreCallInv(s, step.op, s'); }
    else if step.Insert? { InsertInv(s, step.event, s'); }
    else if step.Bump? { BumpInv(s, s'); }
    else if step.Prune? || step.StartupPrune? { PruneStep(s, step, s'); }
    else if step.Ack? { AckInv(s, step.attempt, step.num, s'); }
    else if step.Restart? { RestartInv(s, step.gone, s'); }
    else { QuietStep(s, step, s'); }
  }

  lemma QuietStep(s: Net, step: Step, s': Net)
    requires Inv(s) && Next(s, step, s')
    requires !step.StoreCall? && !step.Insert? && !step.Bump? && !step.Prune? && !step.StartupPrune? && !step.Ack? && !step.Restart?
    ensures Inv(s')
  {
    QuietInv(s, s');
  }

  lemma {:induction false} InvRun(states: seq<Net>, steps: seq<Step>)
    requires IsRun(states, steps) && Inv(states[0])
    ensures forall i | 0 <= i < |states| :: Inv(states[i])
  {
    for i := 0 to |steps|
      invariant forall j | 0 <= j <= i :: Inv(states[j])
    {
      InvStep(states[i], steps[i], states[i + 1]);
    }
  }

  /** So it holds in every reachable state. */
  lemma InvReachable(s: Net)
    requires Reachable(s)
    ensures Inv(s)
  {
    var start :| Init(start) && Leads(start, s);
    var states, steps :| IsRun(states, steps) && states[0] == start && states[|steps|] == s;
    InvRun(states, steps);
  }
}
