/**
 Runs of the build cache: builds prepare a site root, start a container that mounts the
 path again, and write into it, while other builds prepare, reset and prune and a wipe
 may be killed halfway. A container keeps the directory it mounted: when that directory
 has been removed, its writes reach no later one.
 */
module CacheRuns {
  import opened Outcomes
  import opened QueueTables
  import opened SiteCache

  // A prepared build remembers the path of its root; a container holds a directory.
  datatype Plan = Plan(site: SiteId, lockfile: Option<Lockfile>)
  datatype Mount = Mount(site: SiteId, inode: nat, lockfile: Option<Lockfile>)

  datatype Caches = Caches(sites: Sites, nextInode: nat, now: Millis, plans: map<nat, Plan>, mounts: map<nat, Mount>)

  datatype Step =
    | Tick(later: Millis)
    | Prepare(build: nat, id: SiteId, lockfile: Option<Lockfile>, enabled: bool, markerSize: nat, metadataSize: nat,
              result: Result<Prepared, CacheError>)
    | StartContainer(build: nat)
    | Write(build: nat, file: File)
    | Read(id: SiteId, files: seq<File>)
    | EndBuild(build: nat)
    | Reset(only: Option<SiteId>)
    | KilledWipe(id: SiteId, left: Site)
    | Prune(siteMaxBytes: int, ttlDays: int, excluded: set<SiteId>)

  function OtherPaths(files: seq<File>, path: string): seq<File> {
    if files == [] then []
    else (if files[0].path == path then [] else [files[0]]) + OtherPaths(files[1..], path)
  }

  // Reading moves access times only.
  predicate SameButAtime(files: seq<File>, files': seq<File>) {
    && |files| == |files'|
    && forall i | 0 <= i < |files| :: files'[i] == files[i].(atime := files'[i].atime)
  }

  // `shutil.rmtree` died before it had removed everything.
  predicate Remnant(site: Site, left: Site) {
    && left == site.(metadata := left.metadata, marker := left.marker, files := left.files)
    && (left.metadata == site.metadata || left.metadata.None?)
    && (left.marker == site.marker || left.marker.None?)
    && forall f | f in left.files :: f in site.files
  }

  // `mkdir(parents=True, exist_ok=True)` on the path, just before `docker run`.
  function MountPoint(s: Caches, plan: Plan): Caches {
    if plan.site in s.sites then s
    else s.(sites := s.sites[plan.site := EmptyRoot(s.nextInode, s.now)], nextInode := s.nextInode + 1)
  }

  ghost predicate Next(s: Caches, step: Step, s': Caches) {
    match step
    case Tick(later) => s.now <= later && s' == s.(now := later)
    case Prepare(build, id, lockfile, enabled, markerSize, metadataSize, result) =>
      && build !in s.plans && build !in s.mounts
      && Preparation(s.sites, s.nextInode, id, lockfile, enabled, markerSize, metadataSize, s.now,
                     s'.sites, s'.nextInode, result)
      && s'.now == s.now && s'.mounts == s.mounts
      && s'.plans == (if result.Ok? && result.value.Enabled? then s.plans[build := Plan(id, lockfile)] else s.plans)
    case StartContainer(build) =>
      && build in s.plans
      && var plan := s.plans[build];
      var rooted := MountPoint(s, plan);
      s' == rooted.(plans := s.plans - {build},
                    mounts := s.mounts[build := Mount(plan.site, rooted.sites[plan.site].inode, plan.lockfile)])
    case Write(build, file) =>
      && build in s.mounts
      && var m := s.mounts[build];
      && file.origin == m.lockfile
      && s' == (if Live(s, m)
                then s.(sites := s.sites[m.site := s.sites[m.site].(files := OtherPaths(s.sites[m.site].files, file.path) + [file])])
                else s)
    case Read(id, files) =>
      id in s.sites && SameButAtime(s.sites[id].files, files) && s' == s.(sites := s.sites[id := s.sites[id].(files := files)])
    case EndBuild(build) => s' == s.(plans := s.plans - {build}, mounts := s.mounts - {build})
    case Reset(only) => s' == s.(sites := if only.Some? then s.sites - {only.value} else map[])
    case KilledWipe(id, left) => id in s.sites && Remnant(s.sites[id], left) && s' == s.(sites := s.sites[id := left])
    case Prune(siteMaxBytes, ttlDays, excluded) =>
      PruneResult(s.sites, siteMaxBytes, ttlDays, excluded, s.now, s'.sites) && s' == s.(sites := s'.sites)
  }

  // The mounted directory is still the root of its site.
  predicate Live(s: Caches, m: Mount) {
    m.site in s.sites && s.sites[m.site].inode == m.inode
  }

  ghost predicate Init(s: Caches) {
    s.sites == map[] && s.plans == map[] && s.mounts == map[]
  }

  ghost predicate IsRun(states: seq<Caches>, steps: seq<Step>) {
    && |states| == |steps| + 1
    && forall i | 0 <= i < |steps| :: Next(states[i], steps[i], states[i + 1])
  }

  // ---------- what should hold, and the guards ----------

  ghost predicate WrittenUnder(files: seq<File>, lockfile: Option<Lockfile>) {
    forall f | f in files :: f.origin == lockfile
  }

  /** Every file of a site was written under the lockfile recorded beside it. */
  ghost predicate ContentsMatch(s: Caches) {
    forall id | id in s.sites && s.sites[id].metadata.Some? ::
      s.sites[id].metadata.value.Metadata? && WrittenUnder(s.sites[id].files, s.sites[id].metadata.value.lockfile)
  }

  predicate Records(site: Site, lockfile: Option<Lockfile>) {
    site.metadata.Some? && site.metadata.value.Metadata? && site.metadata.value.lockfile == lockfile
  }

  // No metadata, but the marker that makes the next enabled build wipe the root.
  predicate Condemned(site: Site) {
    site.metadata.None? && site.marker.Some?
  }

  /**
   What can be checked on the spot. Before `docker run`: the root is there and records the
   lockfile of the build. After a killed wipe: the metadata or the marker is left, or
   nothing is left and no container has the directory mounted.
   */
  predicate Guarded(s: Caches, step: Step) {
    match step
    case StartContainer(build) =>
      build in s.plans ==>
        var plan := s.plans[build];
        plan.site in s.sites && (Records(s.sites[plan.site], plan.lockfile) || Condemned(s.sites[plan.site]))
    case KilledWipe(id, left) =>
      || left.metadata.Some? || left.marker.Some?
      || (left.files == [] && forall b | b in s.mounts :: s.mounts[b].site == id ==> s.mounts[b].inode != left.inode)
    case _ => true
  }

  ghost predicate GuardedRun(states: seq<Caches>, steps: seq<Step>) {
    IsRun(states, steps) && forall i | 0 <= i < |steps| :: Guarded(states[i], steps[i])
  }

  // However guarded operation goes on, contents keep matching.
  ghost predicate Safe(s: Caches) {
    forall states, steps | GuardedRun(states, steps) && states[0] == s :: ContentsMatch(states[|steps|])
  }

  // ---------- the invariant of guarded runs ----------

  ghost predicate Consistent(site: Site) {
    match site.metadata
    case None => site.marker.Some? || site.files == []
    case Some(m) => m.Metadata? && WrittenUnder(site.files, m.lockfile)
  }

  ghost predicate Inv(s: Caches) {
    && (forall id | id in s.sites :: ValidSiteId(id) && Consistent(s.sites[id]) && s.sites[id].inode < s.nextInode)
    && (forall b | b in s.plans :: ValidSiteId(s.plans[b].site))
    && (forall b | b in s.mounts ::
          var m := s.mounts[b];
          && m.inode < s.nextInode
          && (Live(s, m) ==> Records(s.sites[m.site], m.lockfile) || Condemned(s.sites[m.site])))
  }

  lemma {:induction false} OtherPathsMembers(files: seq<File>, path: string)
    ensures forall f | f in OtherPaths(files, path) :: f in files
  {
    if files != [] { OtherPathsMembers(files[1..], path); }
  }

  lemma ResizedConsistent(before: Site, maxBytes: int, excluded: bool, after: Site)
    requires Consistent(before) && Resized(before, maxBytes, excluded, Some(after))
    ensures Consistent(after) && after == before.(files := after.files)
  {
    if after != before {
      var k: nat :| ShortestTrim(before, maxBytes, k) && Some(after) == Some(Trimmed(before, k));
      WithoutMembers(before.files, FileSet(ByAtime(Contents(before.files))[..k]));
    }
  }

  lemma PruneInv(s: Caches, siteMaxBytes: int, ttlDays: int, excluded: set<SiteId>, s': Caches)
    requires Inv(s) && Next(s, Prune(siteMaxBytes, ttlDays, excluded), s')
    ensures Inv(s')
  {
    forall id | id in s'.sites
      ensures id in s.sites && Consistent(s'.sites[id]) && s'.sites[id] == s.sites[id].(files := s'.sites[id].files)
    {
      ResizedConsistent(s.sites[id], siteMaxBytes, id in excluded, s'.sites[id]);
    }
  }

  lemma PrepareInv(s: Caches, step: Step, s': Caches)
    requires Inv(s) && step.Prepare? && Next(s, step, s')
    ensures Inv(s')
  {
  }

  lemma StartInv(s: Caches, build: nat, s': Caches)
    requires Inv(s) && Next(s, StartContainer(build), s') && Guarded(s, StartContainer(build))
    ensures Inv(s')
  {
  }

  lemma WriteInv(s: Caches, build: nat, file: File, s': Caches)
    requires Inv(s) && Next(s, Write(build, file), s')
    ensures Inv(s')
  {
    var m := s.mounts[build];
    if m.site in s.sites { OtherPathsMembers(s.sites[m.site].files, file.path); }
  }

  lemma ReadInv(s: Caches, id: SiteId, files: seq<File>, s': Caches)
    requires Inv(s) && Next(s, Read(id, files), s')
    ensures Inv(s')
  {
    var old' := s.sites[id].files;
    forall f | f in files
      ensures exists g :: g in old' && g.origin == f.origin
    {
      var i :| 0 <= i < |files| && files[i] == f;
      assert old'[i] in old';
    }
  }

  lemma KilledInv(s: Caches, id: SiteId, left: Site, s': Caches)
    requires Inv(s) && Next(s, KilledWipe(id, left), s') && Guarded(s, KilledWipe(id, left))
    ensures Inv(s')
  {
  }

  lemma InvStep(s: Caches, step: Step, s': Caches)
    requires Inv(s) && Next(s, step, s') && Guarded(s, step)
    ensures Inv(s')
  {
    match step
    case Prepare(_, _, _, _, _, _, _) => PrepareInv(s, step, s');
    case StartContainer(build) => StartInv(s, build, s');
    case Write(build, file) => WriteInv(s, build, file, s');
    case Read(id, files) => ReadInv(s, id, files, s');
    case KilledWipe(id, left) => KilledInv(s, id, left, s');
    case Prune(siteMaxBytes, ttlDays, excluded) => PruneInv(s, siteMaxBytes, ttlDays, excluded, s');
    case _ =>
  }

  lemma {:induction false} InvRun(states: seq<Caches>, steps: seq<Step>)
    requires GuardedRun(states, steps) && Inv(states[0])
    ensures forall i | 0 <= i < |states| :: Inv(states[i])
  {
    for i := 0 to |steps|
      invariant forall j | 0 <= j <= i :: Inv(states[j])
    {
      InvStep(states[i], steps[i], states[i + 1]);
    }
  }

  lemma InvIsSafe(s: Caches)
    requires Inv(s)
    ensures Safe(s)
  {
    forall states, steps | GuardedRun(states, steps) && states[0] == s
      ensures ContentsMatch(states[|steps|])
    {
      InvRun(states, steps);
      assert Inv(states[|steps|]);
    }
  }

  // ---------- each guard is needed ----------

  lemma MismatchIsUnsafe(s: Caches)
    requires !ContentsMatch(s)
    ensures !Safe(s)
  {
    var steps: seq<Step> := [];
    assert GuardedRun([s], steps) && [s][0] == s && [s][|steps|] == s;
  }

  lemma UnsafeBefore(s: Caches, step: Step, s': Caches)
    requires Next(s, step, s') && Guarded(s, step) && !Safe(s')
    ensures !Safe(s)
  {
    var states, steps :| GuardedRun(states, steps) && states[0] == s' && !ContentsMatch(states[|steps|]);
    RunPrepended(s, step, states, steps);
    var states', steps' := [s] + states, [step] + steps;
    assert states'[0] == s && states'[|steps'|] == states[|steps|];
  }

  lemma RunPrepended(s: Caches, step: Step, states: seq<Caches>, steps: seq<Step>)
    requires GuardedRun(states, steps) && Next(s, step, states[0]) && Guarded(s, step)
    ensures GuardedRun([s] + states, [step] + steps)
  {
    var states', steps' := [s] + states, [step] + steps;
    forall i | 0 <= i < |steps'|
      ensures Next(states'[i], steps'[i], states'[i + 1]) && Guarded(states'[i], steps'[i])
    {
      if i > 0 {
        assert states'[i] == states[i - 1] && states'[i + 1] == states[i] && steps'[i] == steps[i - 1];
      }
    }
  }

  predicate Bare(s: Caches, id: SiteId) {
    id in s.sites && s.sites[id].metadata.None? && s.sites[id].marker.None?
  }

  function OtherLockfile(lockfile: Option<Lockfile>): Option<Lockfile> {
    if lockfile.None? then Some(Lockfile("package-lock.json", "0")) else None
  }

  // An enabled preparation of a root without metadata and marker records the lockfile over what is there.
  function Adopted(s: Caches, build: nat, id: SiteId, lockfile: Option<Lockfile>): Caches
    requires id in s.sites
  {
    s.(sites := s.sites[id := s.sites[id].(metadata := Some(Metadata(lockfile, 0, s.now)), mtime := s.now)],
       plans := s.plans[build := Plan(id, lockfile)])
  }

  lemma AdoptedIsPrepared(s: Caches, build: nat, id: SiteId, lockfile: Option<Lockfile>)
    requires Bare(s, id) && ValidSiteId(id) && build !in s.plans && build !in s.mounts
    ensures Next(s, Prepare(build, id, lockfile, true, 0, 0, Ok(Enabled(Miss, s.sites[id].inode))), Adopted(s, build, id, lockfile))
  {
  }

  // Files beside no metadata and no marker: the next build adopts them.
  lemma BareIsUnsafe(s: Caches, build: nat, id: SiteId)
    requires Bare(s, id) && ValidSiteId(id) && s.sites[id].files != []
    ensures !Safe(s)
  {
    var f := s.sites[id].files[0];
    var idle := s.(plans := s.plans - {build}, mounts := s.mounts - {build});
    var lockfile := OtherLockfile(f.origin);
    var adopted := Adopted(idle, build, id, lockfile);
    AdoptedIsPrepared(idle, build, id, lockfile);
    assert f in adopted.sites[id].files && f.origin != lockfile;
    MismatchIsUnsafe(adopted);
    UnsafeBefore(idle, Prepare(build, id, lockfile, true, 0, 0, Ok(Enabled(Miss, s.sites[id].inode))), adopted);
    UnsafeBefore(s, EndBuild(build), idle);
  }

  // A container that has such a root mounted can put a file there.
  lemma WriterIsUnsafe(s: Caches, build: nat)
    requires build in s.mounts && Live(s, s.mounts[build]) && ValidSiteId(s.mounts[build].site)
    requires Bare(s, s.mounts[build].site) ||
             (s.sites[s.mounts[build].site].metadata.Some? && !Records(s.sites[s.mounts[build].site], s.mounts[build].lockfile))
    ensures !Safe(s)
  {
    var m := s.mounts[build];
    var file := File("node_modules/a", "a", 1, s.now, m.lockfile);
    var files := OtherPaths(s.sites[m.site].files, file.path) + [file];
    var written := s.(sites := s.sites[m.site := s.sites[m.site].(files := files)]);
    assert file in written.sites[m.site].files;
    if Bare(s, m.site) {
      BareIsUnsafe(written, build, m.site);
    } else {
      MismatchIsUnsafe(written);
    }
    UnsafeBefore(s, Write(build, file), written);
  }

  lemma UnguardedIsUnsafe(s: Caches, step: Step, s': Caches)
    requires Inv(s) && Next(s, step, s') && !Guarded(s, step)
    ensures !Safe(s')
  {
    match step
    case StartContainer(build) =>
      assert Consistent(s'.sites[s.plans[build].site]);
      WriterIsUnsafe(s', build);
    case KilledWipe(id, left) =>
      if left.files != [] {
        BareIsUnsafe(s', 0, id);
      } else {
        var b :| b in s.mounts && s.mounts[b].site == id && s.mounts[b].inode == left.inode;
        WriterIsUnsafe(s', b);
      }
  }

  /** A step leaves a safe cache if and only if it meets its guard. */
  lemma SafeExactly(s: Caches, step: Step, s': Caches)
    requires Inv(s) && Next(s, step, s')
    ensures Safe(s') <==> Guarded(s, step)
  {
    if Guarded(s, step) {
      InvStep(s, step, s');
      InvIsSafe(s');
    } else {
      UnguardedIsUnsafe(s, step, s');
    }
  }

  // ---------- what runs guarantee ----------

  /** Over every run: the cache is safe all along if and only if every container start and every killed wipe met its guard. */
  lemma {:induction false} RunSafeExactly(states: seq<Caches>, steps: seq<Step>)
    requires IsRun(states, steps) && Init(states[0])
    ensures (forall i | 0 <= i < |states| :: Safe(states[i])) <==> GuardedRun(states, steps)
  {
    InvIsSafe(states[0]);
    var k := 0;
    while k < |steps| && Guarded(states[k], steps[k])
      invariant 0 <= k <= |steps| && Inv(states[k])
      invariant forall i | 0 <= i <= k :: Safe(states[i])
      invariant forall i | 0 <= i < k :: Guarded(states[i], steps[i])
    {
      SafeExactly(states[k], steps[k], states[k + 1]);
      InvStep(states[k], steps[k], states[k + 1]);
      k := k + 1;
    }
    if k < |steps| {
      SafeExactly(states[k], steps[k], states[k + 1]);
    }
  }

  /** In a run that meets the guards, each file of a site was written under the lockfile recorded there. */
  lemma ContentsMatchLockfile(states: seq<Caches>, steps: seq<Step>, i: nat, id: SiteId, f: File)
    requires GuardedRun(states, steps) && Init(states[0]) && i < |states|
    requires id in states[i].sites && f in states[i].sites[id].files && !Condemned(states[i].sites[id])
    ensures Records(states[i].sites[id], f.origin)
  {
    InvRun(states, steps);
    assert Consistent(states[i].sites[id]);
  }

  /**
   What a build finds in such a run: every file in its root was written under its own
   lockfile. HIT means that there is something to reuse, and nothing was dropped; WIPED
   and MISS mean that there is nothing, and after WIPED no file of any kind is left.
   */
  lemma PrepareOutcome(states: seq<Caches>, steps: seq<Step>, i: nat)
    requires GuardedRun(states, steps) && Init(states[0]) && i < |steps|
    requires steps[i].Prepare? && steps[i].result.Ok? && steps[i].result.value.Enabled?
    ensures var s, step, s' := states[i], steps[i], states[i + 1];
            && step.id in s'.sites && WrittenUnder(s'.sites[step.id].files, step.lockfile)
            && (step.result.value.event == Hit <==> exists f :: f in s'.sites[step.id].files && !Bookkeeping(f))
            && (step.result.value.event == Hit ==>
                  step.id in s.sites && s'.sites[step.id].files == s.sites[step.id].files && Records(s.sites[step.id], step.lockfile))
            && (step.result.value.event == Wiped ==> s'.sites[step.id].files == [])
            && (forall id | id in s.sites && id != step.id :: id in s'.sites && s'.sites[id] == s.sites[id])
  {
    InvRun(states, steps);
    OneOutcome(states[i], steps[i], states[i + 1]);
  }

  lemma OneOutcome(s: Caches, step: Step, s': Caches)
    requires Inv(s) && Next(s, step, s') && step.Prepare? && step.result.Ok? && step.result.value.Enabled?
    ensures step.id in s'.sites && WrittenUnder(s'.sites[step.id].files, step.lockfile)
    ensures step.result.value.event == Hit <==> exists f :: f in s'.sites[step.id].files && !Bookkeeping(f)
    ensures step.result.value.event == Hit ==>
              step.id in s.sites && s'.sites[step.id].files == s.sites[step.id].files && Records(s.sites[step.id], step.lockfile)
    ensures step.result.value.event == Wiped ==> s'.sites[step.id].files == []
    ensures forall id | id in s.sites && id != step.id :: id in s'.sites && s'.sites[id] == s.sites[id]
  {
    if step.id in s.sites { assert Consistent(s.sites[step.id]); }
    ContentsAreFiles(s'.sites[step.id]);
  }

  lemma ContentsAreFiles(site: Site)
    ensures HasContents(site) <==> exists f :: f in site.files && !Bookkeeping(f)
  {
    if f :| f in site.files && !Bookkeeping(f) {
      var i :| 0 <= i < |site.files| && site.files[i] == f;
      assert !Ignored(site.files[i]);
    }
    if i :| 0 <= i < |site.files| && !Ignored(site.files[i]) {
      assert site.files[i] in site.files && !Bookkeeping(site.files[i]);
    }
  }

  // ---------- what one preparation means for a later step ----------

  // The step leaves metadata and marker of the root alone, if it leaves the root at all.
  predicate Spares(step: Step, id: SiteId) {
    && !(step.Prepare? && step.enabled && step.id == id)
    && !(step.KilledWipe? && step.id == id)
  }

  lemma BookkeepingStays(s: Caches, step: Step, s': Caches, id: SiteId)
    requires Next(s, step, s') && Spares(step, id) && id in s.sites && id in s'.sites
    ensures s'.sites[id].metadata == s.sites[id].metadata && (s.sites[id].marker.Some? ==> s'.sites[id].marker.Some?)
  {
    if step.Prune? {
      assert Resized(s.sites[id], step.siteMaxBytes, id in step.excluded, SiteAt(s'.sites, id));
    }
  }

  /** A build with the cache disabled condemns what is there: the next enabled build of the site gets a new and empty root. */
  lemma {:induction false} DisabledThenWiped(states: seq<Caches>, steps: seq<Step>, i: nat, j: nat, id: SiteId)
    requires IsRun(states, steps) && i < j < |steps|
    requires steps[i].Prepare? && !steps[i].enabled && steps[i].id == id && steps[i].result.Ok?
    requires steps[j].Prepare? && steps[j].enabled && steps[j].id == id && steps[j].result.Ok?
    requires forall k | i < k <= j :: id in states[k].sites
    requires forall k | i < k < j :: Spares(steps[k], id)
    ensures steps[j].result.value == Enabled(Wiped, states[j].nextInode)
    ensures id in states[j + 1].sites && states[j + 1].sites[id].files == [] && states[j + 1].sites[id].marker.None?
  {
    for k := i + 1 to j
      invariant id in states[k].sites && states[k].sites[id].marker.Some?
    {
      BookkeepingStays(states[k], steps[k], states[k + 1], id);
    }
    WipesMarked(states[j], steps[j], states[j + 1]);
  }

  lemma WipesMarked(s: Caches, step: Step, s': Caches)
    requires Next(s, step, s') && step.Prepare? && step.enabled && step.result.Ok?
    requires step.id in s.sites && s.sites[step.id].marker.Some?
    ensures step.result.value == Enabled(Wiped, s.nextInode)
    ensures step.id in s'.sites && s'.sites[step.id].files == [] && s'.sites[step.id].marker.None?
  {
  }

  /**
   The time to live counts from the last enabled preparation: until it is over pruning
   leaves a site within the limit as it is, and afterwards it removes the site.
   */
  lemma {:induction false} LivesFromPreparation(states: seq<Caches>, steps: seq<Step>, i: nat, j: nat, id: SiteId)
    requires IsRun(states, steps) && i < j < |steps| && steps[j].Prune? && id !in steps[j].excluded
    requires steps[i].Prepare? && steps[i].enabled && steps[i].id == id && steps[i].result.Ok?
    requires forall k | i < k <= j :: id in states[k].sites
    requires forall k | i < k < j :: Spares(steps[k], id)
    ensures states[i].now + steps[j].ttlDays * 86_400_000 < states[j].now ==> id !in states[j + 1].sites
    ensures states[i].now + steps[j].ttlDays * 86_400_000 >= states[j].now
              && Sum(OnDisk(states[j].sites[id])) <= steps[j].siteMaxBytes ==>
              id in states[j + 1].sites && states[j + 1].sites[id] == states[j].sites[id]
  {
    for k := i + 1 to j
      invariant id in states[k].sites && states[k].sites[id].metadata.Some?
      invariant states[k].sites[id].metadata.value.mtime == states[i].now
    {
      BookkeepingStays(states[k], steps[k], states[k + 1], id);
    }
    PruneLimits(states[j].sites, steps[j].siteMaxBytes, steps[j].ttlDays, steps[j].excluded, states[j].now, states[j + 1].sites, id);
  }

  // ---------- from any directory ----------

  // The same files, whoever wrote them, as far as the recorded lockfile allows.
  ghost predicate PossibleHistory(site: Site, files: seq<File>) {
    && |files| == |site.files|
    && (forall i | 0 <= i < |files| :: files[i] == site.files[i].(origin := files[i].origin))
    && (site.metadata.Some? && site.metadata.value.Metadata? ==> WrittenUnder(files, site.metadata.value.lockfile))
  }

  // Whatever build an enabled preparation is for, it finds only files of its own lockfile.
  ghost predicate PreparesSound(s: Caches, id: SiteId, lockfile: Option<Lockfile>) {
    forall markerSize: nat, metadataSize: nat, after: Sites, inode: nat, result: Result<Prepared, CacheError> |
      Preparation(s.sites, s.nextInode, id, lockfile, true, markerSize, metadataSize, s.now, after, inode, result) && result.Ok? ::
      id in after && WrittenUnder(after[id].files, lockfile)
  }

  function Rewritten(files: seq<File>, origin: Option<Lockfile>): seq<File> {
    seq(|files|, i requires 0 <= i < |files| => files[i].(origin := origin))
  }

  /**
   Preparation of an existing root, reachable or not, is sound for every possible history
   of its files if and only if the root has its metadata or its marker, or no files.
   */
  lemma PrepareSoundExactly(s: Caches, id: SiteId, lockfile: Option<Lockfile>)
    requires id in s.sites && ValidSiteId(id)
    ensures (forall files | PossibleHistory(s.sites[id], files) ::
               PreparesSound(s.(sites := s.sites[id := s.sites[id].(files := files)]), id, lockfile)) <==>
            s.sites[id].metadata.Some? || s.sites[id].marker.Some? || s.sites[id].files == []
  {
    var site := s.sites[id];
    if Bare(s, id) && site.files != [] {
      var files := Rewritten(site.files, OtherLockfile(lockfile));
      var other := s.(sites := s.sites[id := site.(files := files)]);
      assert PossibleHistory(site, files);
      var after := other.sites[id := other.sites[id].(metadata := Some(Metadata(lockfile, 0, s.now)), mtime := s.now)];
      assert Preparation(other.sites, s.nextInode, id, lockfile, true, 0, 0, s.now, after, s.nextInode,
                         Ok(Enabled(Miss, site.inode)));
      assert files[0] in after[id].files && files[0].origin != lockfile;
      assert !PreparesSound(other, id, lockfile);
    }
  }
}
