/**
 Two runs of the build cache, without overlapping builds of the site, in which a build
 gets files of another lockfile. `CacheRuns.RunSafeExactly` is the exact condition.
 */
module CacheShortfalls {
  import opened Outcomes
  import opened QueueTables
  import opened SiteCache
  import opened CacheRuns

  const SITE: SiteId := "site"
  const OLD: Option<Lockfile> := Some(Lockfile("package-lock.json", "a"))
  const NEW: Option<Lockfile> := Some(Lockfile("package-lock.json", "b"))
  const LEFTOVER := File("node_modules/x", "x", 1, 0, OLD)

  // A run to `s` in which every build prepares when no other is prepared or running, and
  // in which at most the steps of the class `ignoring` miss their guard.
  ghost predicate Reaches(s: Caches, ignoring: Step -> bool) {
    exists states, steps ::
      && IsRun(states, steps) && Init(states[0]) && states[|steps|] == s
      && forall k | 0 <= k < |steps| :: OneAtATime(states[k], steps[k]) && (Guarded(states[k], steps[k]) || ignoring(steps[k]))
  }

  predicate OneAtATime(s: Caches, step: Step) {
    step.Prepare? ==> s.plans == map[] && s.mounts == map[]
  }

  lemma ReachesInit(s: Caches, ignoring: Step -> bool)
    requires Init(s)
    ensures Reaches(s, ignoring)
  {
    var steps: seq<Step> := [];
    assert IsRun([s], steps) && [s][0] == s && [s][|steps|] == s;
  }

  lemma ReachesFurther(s: Caches, step: Step, s': Caches, ignoring: Step -> bool)
    requires Reaches(s, ignoring) && Next(s, step, s') && OneAtATime(s, step) && (Guarded(s, step) || ignoring(step))
    ensures Reaches(s', ignoring)
  {
    var states, steps :|
      && IsRun(states, steps) && Init(states[0]) && states[|steps|] == s
      && forall k | 0 <= k < |steps| :: OneAtATime(states[k], steps[k]) && (Guarded(states[k], steps[k]) || ignoring(steps[k]));
    RunExtended(states, steps, step, s');
    var states', steps' := states + [s'], steps + [step];
    forall k | 0 <= k < |steps'|
      ensures OneAtATime(states'[k], steps'[k]) && (Guarded(states'[k], steps'[k]) || ignoring(steps'[k]))
    {
      if k < |steps| {
        assert states'[k] == states[k] && steps'[k] == steps[k];
      }
    }
  }

  lemma RunExtended(states: seq<Caches>, steps: seq<Step>, step: Step, s': Caches)
    requires IsRun(states, steps) && Next(states[|steps|], step, s')
    ensures IsRun(states + [s'], steps + [step]) && (states + [s'])[0] == states[0]
  {
    var states', steps' := states + [s'], steps + [step];
    forall i | 0 <= i < |steps'|
      ensures Next(states'[i], steps'[i], states'[i + 1])
    {
      if i < |steps| {
        assert states'[i] == states[i] && states'[i + 1] == states[i + 1] && steps'[i] == steps[i];
      }
    }
  }

  function Recorded(inode: nat, lockfile: Option<Lockfile>, files: seq<File>): Site {
    Site(inode, Some(Metadata(lockfile, 0, 0)), None, files, 0)
  }

  function With(site: Site, next: nat): Caches {
    Caches(map[SITE := site], next, 0, map[], map[])
  }

  function Prepares(build: nat, lockfile: Option<Lockfile>, event: CacheEvent, inode: nat): Step {
    Prepare(build, SITE, lockfile, true, 0, 0, Ok(Enabled(event, inode)))
  }

  lemma PreparesRoot(s: Caches, build: nat, lockfile: Option<Lockfile>, event: CacheEvent, s': Caches)
    requires s.now == 0 && s.plans == map[] && s.mounts == map[]
    requires (s.sites == map[] && event == Miss && s' == s.(
                sites := map[SITE := Recorded(s.nextInode, lockfile, [])], nextInode := s.nextInode + 1,
                plans := map[build := Plan(SITE, lockfile)]))
             || (s.sites.Keys == {SITE} && s.sites[SITE].marker.None? && s.sites[SITE].mtime == 0 && s.sites[SITE].files == [LEFTOVER]
                 && (s.sites[SITE].metadata.None? || Records(s.sites[SITE], lockfile))
                 && event == (if s.sites[SITE].metadata.None? then Miss else Hit)
                 && s' == s.(sites := map[SITE := Recorded(s.sites[SITE].inode, lockfile, [LEFTOVER])],
                             plans := map[build := Plan(SITE, lockfile)]))
    ensures Next(s, Prepares(build, lockfile, event, s'.sites[SITE].inode), s')
  {
    assert SITE in s'.sites && s'.nextInode >= s.nextInode;
    if SITE in s.sites {
      assert HasContents(s.sites[SITE]) by { assert !Ignored(s.sites[SITE].files[0]); }
      assert s'.sites == s.sites[SITE := s'.sites[SITE]];
    }
    assert s'.plans == s.plans[build := Plan(SITE, lockfile)];
  }

  /**
   A reset between preparation and `docker run`: the container recreates the root without
   metadata, the next build adopts its file under another lockfile, and the one after
   reports HIT on it.
   */
  lemma ResetBeforeStart() returns (s: Caches, step: Step, s': Caches)
    ensures Reaches(s, (one: Step) => one.StartContainer?) && Next(s, step, s') && OneAtATime(s, step)
    ensures step.Prepare? && step.lockfile == NEW && step.result == Ok(Enabled(Hit, 1))
    ensures SITE in s'.sites && LEFTOVER in s'.sites[SITE].files && LEFTOVER.origin != step.lockfile
  {
    var starts := (one: Step) => one.StartContainer?;
    var s4 := Unrecorded(starts);
    var s5 := With(Recorded(1, NEW, [LEFTOVER]), 2).(plans := map[2 := Plan(SITE, NEW)]);
    PreparesRoot(s4, 2, NEW, Miss, s5);
    ReachesFurther(s4, Prepares(2, NEW, Miss, 1), s5, starts);
    s := s5.(plans := map[]);
    Ends(s5, 2, s);
    ReachesFurther(s5, EndBuild(2), s, starts);
    s' := s.(plans := map[3 := Plan(SITE, NEW)]);
    step := Prepares(3, NEW, Hit, 1);
    PreparesRoot(s, 3, NEW, Hit, s');
  }

  // Build 1 prepares, its root is reset, and its container leaves a file in the new root.
  lemma Unrecorded(starts: Step -> bool) returns (s: Caches)
    requires forall one: Step :: starts(one) <==> one.StartContainer?
    ensures Reaches(s, starts) && s == With(EmptyRoot(1, 0).(files := [LEFTOVER]), 2)
  {
    var s0 := Caches(map[], 0, 0, map[], map[]);
    ReachesInit(s0, starts);
    var s1 := With(Recorded(0, OLD, []), 1).(plans := map[1 := Plan(SITE, OLD)]);
    PreparesRoot(s0, 1, OLD, Miss, s1);
    ReachesFurther(s0, Prepares(1, OLD, Miss, 0), s1, starts);
    var s2 := s1.(sites := map[]);
    assert s2.sites == s1.sites - {SITE};
    ReachesFurther(s1, Reset(Some(SITE)), s2, starts);
    var s3 := With(EmptyRoot(1, 0), 2).(mounts := map[1 := Mount(SITE, 1, OLD)]);
    Starts(s2, s3);
    ReachesFurther(s2, StartContainer(1), s3, starts);
    s := With(EmptyRoot(1, 0).(files := [LEFTOVER]), 2);
    WritesAndEnds(s3, s, starts);
  }

  // Build 1 leaves its file in the root that it has mounted, and ends.
  lemma WritesAndEnds(s: Caches, s': Caches, ignoring: Step -> bool)
    requires Reaches(s, ignoring) && s.plans == map[] && s.mounts.Keys == {1} && s.sites.Keys == {SITE}
    requires s.mounts[1] == Mount(SITE, s.sites[SITE].inode, OLD) && s.sites[SITE].files == []
    requires s' == s.(sites := map[SITE := s.sites[SITE].(files := [LEFTOVER])], mounts := map[])
    ensures Reaches(s', ignoring)
  {
    var written := s'.(mounts := s.mounts);
    assert OtherPaths([], LEFTOVER.path) + [LEFTOVER] == [LEFTOVER];
    assert s'.sites == s.sites[SITE := s.sites[SITE].(files := [LEFTOVER])];
    ReachesFurther(s, Write(1, LEFTOVER), written, ignoring);
    Ends(written, 1, s');
    ReachesFurther(written, EndBuild(1), s', ignoring);
  }

  lemma Starts(s: Caches, s': Caches)
    requires s.sites == map[] && s.nextInode == 1 && s.now == 0 && s.plans == map[1 := Plan(SITE, OLD)] && s.mounts == map[]
    requires s' == With(EmptyRoot(1, 0), 2).(mounts := map[1 := Mount(SITE, 1, OLD)])
    ensures Next(s, StartContainer(1), s')
  {
    assert s.plans - {1} == map[];
    assert s'.sites == s.sites[SITE := EmptyRoot(1, 0)];
    assert s'.mounts == s.mounts[1 := Mount(SITE, 1, OLD)];
  }

  lemma Ends(s: Caches, build: nat, s': Caches)
    requires s.plans.Keys + s.mounts.Keys == {build} && s' == s.(plans := map[], mounts := map[])
    ensures Next(s, EndBuild(build), s')
  {
    assert s.plans - {build} == map[] && s.mounts - {build} == map[];
  }

  /** A wipe killed after the metadata and before a file: the next build adopts the file under another lockfile. */
  lemma KilledWipeIsAdopted() returns (s: Caches, step: Step, s': Caches)
    ensures Reaches(s, (one: Step) => one.KilledWipe?) && Next(s, step, s') && OneAtATime(s, step)
    ensures step.Prepare? && step.lockfile == NEW && step.result == Ok(Enabled(Miss, 0))
    ensures SITE in s'.sites && LEFTOVER in s'.sites[SITE].files && LEFTOVER.origin != step.lockfile
  {
    var wipes := (one: Step) => one.KilledWipe?;
    var s0 := Caches(map[], 0, 0, map[], map[]);
    ReachesInit(s0, wipes);
    var s1 := With(Recorded(0, OLD, []), 1).(plans := map[1 := Plan(SITE, OLD)]);
    PreparesRoot(s0, 1, OLD, Miss, s1);
    ReachesFurther(s0, Prepares(1, OLD, Miss, 0), s1, wipes);
    var s2 := s1.(plans := map[], mounts := map[1 := Mount(SITE, 0, OLD)]);
    assert s1.plans - {1} == map[];
    ReachesFurther(s1, StartContainer(1), s2, wipes);
    var s3 := With(Recorded(0, OLD, [LEFTOVER]), 1);
    WritesAndEnds(s2, s3, wipes);
    var left := s3.sites[SITE].(metadata := None);
    s := With(left, 1);
    assert s.sites == s3.sites[SITE := left];
    ReachesFurther(s3, KilledWipe(SITE, left), s, wipes);
    s' := With(Recorded(0, NEW, [LEFTOVER]), 1).(plans := map[2 := Plan(SITE, NEW)]);
    step := Prepares(2, NEW, Miss, 0);
    PreparesRoot(s, 2, NEW, Miss, s');
  }
}
