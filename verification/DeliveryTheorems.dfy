/** What every run of event delivery guarantees, and where the code falls short of it. */
module DeliveryTheorems {
  import opened Outcomes
  import opened QueueTables
  import opened QueueSpec
  import opened OutboxSpec
  import opened Delivery
  import opened DeliveryInvariant

  // ---------- sequence numbers ----------

  /** The number read under the publish lock is still cursor + 1 when the event is appended. */
  lemma NumberStillNext(s: Net)
    requires Reachable(s) && s.publisher.Numbered?
    ensures NextSeq(s.db, s.publisher.attempt) == Ok(s.publisher.num)
  {
    InvReachable(s);
  }

  /**
   An append hands out a number that an acknowledged or pruned event of the same row
   life already had exactly when an earlier append of that life was torn by a restart.
   */
  lemma ReuseExactly(s: Net, e: Event, s': Net)
    requires Inv(s) && Next(s, Insert(e), s') && Classify(s.db, e) == Fresh
    ensures e.attempt in s.tracks
    ensures var t := s.tracks[e.attempt];
            && (e.num in t.acked || e.num in t.pruned <==> t.torn)
            && (e.num <= t.top <==> t.torn)
  {
    var t := s.tracks[e.attempt];
    assert Complete(SpooledNumbers(s.db.events, e.attempt), t);
    assert e.num !in SpooledNumbers(s.db.events, e.attempt);
  }

  // SELECT 1 FROM events JOIN jobs USING (attempt_id) WHERE seq > sequence_cursor
  predicate AheadOfCursor(db: Db, a: AttemptId)
    requires a in db.jobs
  {
    exists i :: 0 <= i < |db.events| && db.events[i].attempt == a && db.events[i].num > db.jobs[a].cursor
  }

  /**
   A publish is refused for conflict exactly while the spool holds an event of its attempt
   ahead of the cursor, as a torn append leaves it. Every other publish appends.
   */
  lemma ConflictExactly(s: Net, e: Event)
    requires Inv(s) && s.publisher.Numbered? && NewEnvelope(s, e, s.publisher.attempt, s.publisher.num)
    ensures e.attempt in s.db.jobs
    ensures Classify(s.db, e) == if AheadOfCursor(s.db, e.attempt) then Refused(Conflict) else Fresh
  {
    forall i | 0 <= i < |s.db.events|
      ensures s.db.events[i].id != e.id && s.db.events[i].json != e.json
      ensures s.db.events[i].attempt == e.attempt ==> s.db.events[i].num <= e.num
    {
      assert s.db.events[i] in s.db.events;
      assert s.db.events[i] in s.appended;
    }
  }

  // No restart falls between the INSERT and the UPDATE of an append.
  ghost predicate Untorn(states: seq<Net>, steps: seq<Step>)
    requires |states| == |steps| + 1
  {
    forall k | 0 <= k < |steps| :: !(steps[k].Restart? && states[k].publisher.Inserted?)
  }

  predicate Clean(s: Net) {
    forall b | b in s.tracks :: !s.tracks[b].torn && !s.tracks[b].reused
  }

  lemma {:induction false} CleanRun(states: seq<Net>, steps: seq<Step>)
    requires IsRun(states, steps) && Inv(states[0]) && states[0].tracks == map[] && Untorn(states, steps)
    ensures Clean(states[|steps|])
    ensures Inv(states[|steps|])
  {
    InvRun(states, steps);
    for k := 0 to |steps|
      invariant Clean(states[k])
    {
      CleanStep(states[k], steps[k], states[k + 1]);
    }
  }

  /**
   In runs without a torn append the numbers of each row life are exactly 1, 2, 3, ...,
   none is used twice, and each is in one place: spooled, acknowledged or pruned.
   */
  lemma NumbersPartition(states: seq<Net>, steps: seq<Step>, a: AttemptId)
    requires IsRun(states, steps) && Init(states[0]) && Untorn(states, steps)
    requires a in states[|steps|].db.jobs && !Between(states[|steps|], a)
    ensures var s := states[|steps|];
            && a in s.tracks
            && (forall n: nat :: 1 <= n <= s.db.jobs[a].cursor <==>
                  n in SpooledNumbers(s.db.events, a) || n in s.tracks[a].acked || n in s.tracks[a].pruned)
            && Apart(SpooledNumbers(s.db.events, a), s.tracks[a])
  {
    CleanRun(states, steps);
    CleanNumbers(states[|steps|], a);
  }

  lemma CleanNumbers(s: Net, a: AttemptId)
    requires Inv(s) && a in s.db.jobs && !Between(s, a) && !s.tracks[a].torn && !s.tracks[a].reused
    ensures forall n: nat :: 1 <= n <= s.db.jobs[a].cursor <==>
              n in SpooledNumbers(s.db.events, a) || n in s.tracks[a].acked || n in s.tracks[a].pruned
    ensures Apart(SpooledNumbers(s.db.events, a), s.tracks[a])
  {
    assert Complete(SpooledNumbers(s.db.events, a), s.tracks[a]);
  }

  lemma CleanStep(s: Net, step: Step, s': Net)
    requires Inv(s) && Next(s, step, s') && !(step.Restart? && s.publisher.Inserted?)
    requires Clean(s)
    ensures Clean(s')
  {
    if step.Insert? && Classify(s.db, step.event) == Fresh {
      ReuseExactly(s, step.event, s');
    }
  }

  // ---------- delivery ----------

  /**
   While every acknowledgement so far was honest, each appended event has been received,
   is still spooled, or was pruned.
   */
  lemma NothingLost(s: Net, e: Event)
    requires Reachable(s) && s.honest && e in s.appended
    ensures e in s.received || e in s.db.events || e in s.pruned
  {
    InvReachable(s);
  }

  // On its way: received, in flight, or still to be replayed on this connection.
  predicate OnItsWay(s: Net, e: Event) {
    e in s.received || e in s.wire || (s.link.Replaying? && e in s.link.rest)
  }

  // A replay from honest cursors at `i`, uninterrupted and all received at `j`.
  ghost predicate ReplayWindow(states: seq<Net>, steps: seq<Step>, i: nat, j: nat) {
    && IsRun(states, steps) && Init(states[0]) && i < j < |states|
    && steps[i].Welcome? && HonestCursors(states[i], steps[i].cursors)
    && (forall k | i < k < j :: !steps[k].LinkLost? && !steps[k].Restart?)
    && states[j].link.Serving? && states[j].wire == {}
  }

  /**
   After one uninterrupted replay from honest cursors, everything appended before it has
   been received, except what was pruned and what the clock window of `decode_frame` hid.
   */
  lemma {:induction false} ReplayDelivers(states: seq<Net>, steps: seq<Step>, i: nat, j: nat, e: Event)
    requires ReplayWindow(states, steps, i, j) && states[i].honest && e in states[i].appended
    ensures || e in states[j].received || e in states[i].pruned
            || (e in states[i].db.events && !Decodable(e, states[i].now))
  {
    InvRun(states, steps);
    ReplayRuns(states, steps, i, j, e);
    assert FateInv(states[i]);
  }

  lemma {:induction false} ReplayRuns(states: seq<Net>, steps: seq<Step>, i: nat, j: nat, e: Event)
    requires IsRun(states, steps) && i < j < |states|
    requires steps[i].Welcome? && HonestCursors(states[i], steps[i].cursors)
    requires forall k | i < k < j :: !steps[k].LinkLost? && !steps[k].Restart?
    ensures Underway(states[i].received, states[j], e in states[i].db.events && Decodable(e, states[i].now), e)
  {
    var live := e in states[i].db.events && Decodable(e, states[i].now);
    WelcomeStarts(states[i], steps[i], states[i + 1], e);
    for k := i + 1 to j
      invariant Underway(states[i].received, states[k], live, e)
    {
      UnderwayStep(states[i].received, states[k], steps[k], states[k + 1], live, e);
    }
  }

  predicate Underway(had: set<Event>, s: Net, live: bool, e: Event) {
    !s.link.Greeting? && !s.link.Down? && had <= s.received && (live ==> OnItsWay(s, e))
  }

  lemma WelcomeStarts(s: Net, step: Step, s': Net, e: Event)
    requires Next(s, step, s') && step.Welcome? && HonestCursors(s, step.cursors)
    ensures Underway(s.received, s', e in s.db.events && Decodable(e, s.now), e)
  {
    SelectMembers(s.db.events, f => Replayable(f, step.cursors, s.now));
  }

  lemma UnderwayStep(had: set<Event>, s: Net, step: Step, s': Net, live: bool, e: Event)
    requires Next(s, step, s') && !step.LinkLost? && !step.Restart? && Underway(had, s, live, e)
    ensures Underway(had, s', live, e)
  {
  }

  // Nobody is about to send the event.
  predicate Unsent(s: Net, e: Event) {
    && e in s.appended && !OnItsWay(s, e)
    && (s.publisher.Inserted? || s.publisher.Bumped? || s.publisher.Spooled? ==> s.publisher.event != e)
  }

  /**
   The window cuts delivery short: an event that has not been sent within five minutes
   of its timestamp is never received, in no continuation of any run.
   */
  lemma {:induction false} StaleNeverReceived(states: seq<Net>, steps: seq<Step>, i: nat, j: nat, e: Event)
    requires IsRun(states, steps) && i <= j < |states|
    requires Unsent(states[i], e) && e.ts + MAX_TIMESTAMP_SKEW < states[i].now
    ensures e !in states[j].received
  {
    for k := i to j
      invariant Unsent(states[k], e) && e.ts + MAX_TIMESTAMP_SKEW < states[k].now
    {
      StaleStep(states[k], steps[k], states[k + 1], e);
    }
  }

  lemma StaleStep(s: Net, step: Step, s': Net, e: Event)
    requires Next(s, step, s') && Unsent(s, e) && e.ts + MAX_TIMESTAMP_SKEW < s.now
    ensures Unsent(s', e) && e.ts + MAX_TIMESTAMP_SKEW < s'.now
  {
    if step.Welcome? {
      SelectMembers(s.db.events, f => Replayable(f, step.cursors, s.now));
    }
  }

  /**
   What one uninterrupted replay is worth: a spooled event that nobody has sent yet reaches
   the backend if and only if `decode_frame` still accepts it when the welcome comes.
   */
  lemma ReplayExactly(states: seq<Net>, steps: seq<Step>, i: nat, j: nat, e: Event)
    requires ReplayWindow(states, steps, i, j)
    requires e in states[i].db.events && Unsent(states[i], e)
    ensures e in states[j].received <==> e.ts >= states[i].now - 300_000
  {
    InvRun(states, steps);
    ReplayRuns(states, steps, i, j, e);
    assert FateInv(states[i]);
    if !Decodable(e, states[i].now) {
      StaleNeverReceived(states, steps, i, j, e);
    }
  }

  /**
   The acknowledgement that follows a replay destroys, of the events that nobody had sent
   before, exactly the covered ones that had left the clock window at the welcome. They
   are lost for good.
   */
  lemma AckAfterReplay(states: seq<Net>, steps: seq<Step>, i: nat, j: nat, e: Event)
    requires ReplayWindow(states, steps, i, j) && j < |steps| && steps[j].Ack?
    requires e in states[i].db.events && Unsent(states[i], e) && e in states[j].db.events
    ensures e !in states[j + 1].db.events && e !in states[j + 1].received <==>
              e.attempt == steps[j].attempt && e.num <= steps[j].num && e.ts < states[i].now - 300_000
    ensures e.ts < states[i].now - 300_000 ==> forall k | j < k < |states| :: e !in states[k].received
  {
    ReplayExactly(states, steps, i, j, e);
    AckDeletes(states[j], steps[j].attempt, steps[j].num, states[j + 1], e);
    if e.ts < states[i].now - 300_000 {
      forall k | j < k < |states|
        ensures e !in states[k].received
      {
        StaleNeverReceived(states, steps, i, k, e);
      }
    }
  }

  lemma AckDeletes(s: Net, a: AttemptId, n: nat, s': Net, e: Event)
    requires Next(s, Ack(a, n), s') && e in s.db.events
    ensures e !in s'.db.events <==> e.attempt == a && e.num <= n
    ensures s'.received == s.received
  {
    AfterAckEvents(s.db, a, n);
  }

  /** Each attempt is replayed in strictly increasing number order, although the query sorts by creation time. */
  lemma ReplayOrder(s: Net, cursors: map<AttemptId, nat>, now: Millis)
    requires Reachable(s)
    ensures var list := Replayed(s.db.events, cursors, now);
            forall i, j | 0 <= i < j < |list| && list[i].attempt == list[j].attempt :: list[i].num < list[j].num
  {
    InvReachable(s);
    var keep := (e: Event) => Replayable(e, cursors, now);
    var list := Replayed(s.db.events, cursors, now);
    SelectMembers(s.db.events, keep);
    SelectInOrder(s.db.events, keep);
    forall i, j | 0 <= i < j < |list| && list[i].attempt == list[j].attempt
      ensures list[i].num < list[j].num
    {
      assert Precedes(list[i], list[j]);
      assert list[i] in s.db.events && list[j] in s.db.events;
    }
  }

  // ---------- retention ----------

  /**
   The delete cascade of `prune_terminal` removes only events older than its cutoff, with
   one exception: the event of a torn append. Every event that stays has its row.
   */
  lemma RetentionSparesTheYoung(s: Net, days: int, s': Net, e: Event)
    requires Reachable(s) && Next(s, StoreCall(OpPruneTerminal(days)), s') && e in s.db.events
    ensures e.attempt in s.tracks
    ensures e in s'.db.events ==> e.attempt in s'.db.jobs
    ensures e !in s'.db.events ==>
              || e.created < s.now - days * DAY
              || (s.tracks[e.attempt].torn && e.num == s.tracks[e.attempt].top)
  {
    InvReachable(s);
    PrunedTerminalEvents(s.db, days, s.now);
  }

  lemma LastOfOthers(events: seq<Event>)
    requires events != [] && !events[|events| - 1].isLog
    ensures Others(events) != [] && Others(events)[|Others(events)| - 1] == events[|events| - 1]
  {
    var last := events[|events| - 1];
    assert events == events[..|events| - 1] + [last];
    SelectAppend(events[..|events| - 1], [last], (e: Event) => !e.isLog);
    assert Others([last]) == [last];
  }

  lemma NewestKeepsLast(events: seq<Event>, budget: int)
    requires events != [] && |events[|events| - 1].json| <= budget
    ensures events[|events| - 1] in NewestWithin(events, budget)
  {
    var cut := NewestWithinExact(events, budget);
    assert events[|events| - 1..] == [events[|events| - 1]];
    assert events[cut..][|events| - 1 - cut] == events[|events| - 1];
  }

  lemma {:induction false} TrimmedKeepsLastStatus(events: seq<Event>, maxBytes: int)
    requires events != [] && !events[|events| - 1].isLog && |events[|events| - 1].json| <= maxBytes
    ensures events[|events| - 1] in Trimmed(events, maxBytes)
  {
    var others := Others(events);
    LastOfOthers(events);
    NewestKeepsLast(others, maxBytes);
    TrimmedIsClosedForm(events, maxBytes);
    SelectMembers(Trimmed(events, maxBytes), (e: Event) => !e.isLog);
  }

  /** A young status event that is last in spool order survives the pruning of its own append whenever it alone fits. */
  lemma NewestStatusSurvives(db: Db, maxBytes: int, days: int, now: Millis)
    requires db.events != []
    requires var last := db.events[|db.events| - 1];
             !last.isLog && |last.json| <= maxBytes && last.created >= now - days * DAY
    ensures db.events[|db.events| - 1] in AfterPrune(db, maxBytes, days, now).events
  {
    var last, front := db.events[|db.events| - 1], db.events[..|db.events| - 1];
    var keep := (e: Event) => !AgedOut(e, db.jobs, days, now);
    assert db.events == front + [last];
    SelectAppend(front, [last], keep);
    assert keep(last) && Select([last][1..], keep) == [];
    var unaged := Unaged(db.events, db.jobs, days, now);
    assert unaged == Select(front, keep) + [last];
    TrimmedKeepsLastStatus(unaged, maxBytes);
  }
}
