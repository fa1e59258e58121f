/**
 The per-site build cache (src/build_engine/executor/cache.py). A site root is a
 directory: its metadata file, its disabled marker and the files that builds left in it.
 */
module SiteCache {
  import opened Outcomes
  import opened QueueTables

  type SiteId = string

  const METADATA_FILENAME := ".build-engine-cache.json"
  const DISABLED_MARKER_FILENAME := ".build-engine-cache-disabled"

  datatype Lockfile = Lockfile(name: string, sha256: string)

  // `origin` is history: the lockfile of the build that wrote the file.
  datatype File = File(path: string, name: string, size: nat, atime: Millis, origin: Option<Lockfile>)

  // The decoded metadata file, or one that does not decode.
  datatype Metadata = Metadata(lockfile: Option<Lockfile>, size: nat, mtime: Millis) | Corrupt(size: nat, mtime: Millis)

  // `inode` tells a removed and recreated root from the old one.
  datatype Site = Site(inode: nat, metadata: Option<Metadata>, marker: Option<nat>, files: seq<File>, mtime: Millis)

  type Sites = map<SiteId, Site>

  datatype CacheEvent = Hit | Miss | Wiped

  datatype CacheError = BadSiteId | BadMetadata

  // The mounted root of an enabled build; a disabled build mounts nothing.
  datatype Prepared = Enabled(event: CacheEvent, inode: nat) | Disabled

  // ---------- reading a site ----------

  predicate ValidSiteId(id: SiteId) {
    1 <= |id| <= 128 && forall i | 0 <= i < |id| ::
      'A' <= id[i] <= 'Z' || 'a' <= id[i] <= 'z' || '0' <= id[i] <= '9' || id[i] == '_' || id[i] == '-'
  }

  predicate Ignored(f: File) {
    f.name == METADATA_FILENAME || f.name == DISABLED_MARKER_FILENAME
  }

  predicate HasContents(site: Site) {
    exists i :: 0 <= i < |site.files| && !Ignored(site.files[i])
  }

  function FileBytes(files: seq<File>): nat {
    if files == [] then 0 else files[0].size + FileBytes(files[1..])
  }

  function OwnBytes(site: Site): nat {
    (if site.metadata.Some? then site.metadata.value.size else 0) + (if site.marker.Some? then site.marker.value else 0)
  }

  function SiteBytes(site: Site): nat {
    OwnBytes(site) + FileBytes(site.files)
  }

  function LastAccess(site: Site): Millis {
    if site.metadata.Some? then site.metadata.value.mtime else site.mtime
  }

  // ---------- prepare_site_cache ----------

  function EmptyRoot(inode: nat, now: Millis): Site {
    Site(inode, None, None, [], now)
  }

  predicate Stale(site: Site, lockfile: Option<Lockfile>) {
    || site.marker.Some?
    || (site.metadata.Some? && site.metadata.value.Metadata? && site.metadata.value.lockfile != lockfile)
  }

  predicate Unreadable(site: Site) {
    site.marker.None? && site.metadata.Some? && site.metadata.value.Corrupt?
  }

  class BuildCache {
    var sites: Sites
    var nextInode: nat

    constructor ()
      ensures sites == map[] && nextInode == 0
    {
      sites, nextInode := map[], 0;
    }

    method MakeRoot(id: SiteId, now: Millis)
      modifies this
      ensures if id in old(sites) then sites == old(sites) && nextInode == old(nextInode)
              else sites == old(sites)[id := EmptyRoot(old(nextInode), now)] && nextInode == old(nextInode) + 1
    {
      if id !in sites {
        sites := sites[id := EmptyRoot(nextInode, now)];
        nextInode := nextInode + 1;
      }
    }

    method PrepareSiteCache(id: SiteId, lockfile: Option<Lockfile>, enabled: bool,
                            markerSize: nat, metadataSize: nat, now: Millis)
      returns (result: Result<Prepared, CacheError>)
      modifies this
      ensures Preparation(old(sites), old(nextInode), id, lockfile, enabled, markerSize, metadataSize, now,
                          sites, nextInode, result)
    {
      if !ValidSiteId(id) {
        return Err(BadSiteId);
      }
      if !enabled {
        MakeRoot(id, now);
        sites := sites[id := sites[id].(marker := Some(markerSize))];
        return Ok(Disabled);
      }
      var wiped := false;
      if id in sites && sites[id].marker.Some? {
        sites := sites - {id};
        wiped := true;
      }
      var previous := if id in sites then sites[id].metadata else None;
      if previous.Some? {
        if previous.value.Corrupt? {
          return Err(BadMetadata);
        }
        if previous.value.lockfile != lockfile {
          sites := sites - {id};
          wiped := true;
        }
      }
      var hadContents := id in sites && HasContents(sites[id]);
      MakeRoot(id, now);
      sites := sites[id := sites[id].(metadata := Some(Metadata(lockfile, metadataSize, now)), mtime := now)];
      var event := if wiped then Wiped else if previous.Some? && hadContents then Hit else Miss;
      return Ok(Enabled(event, sites[id].inode));
    }

    method ResetCache(only: Option<SiteId>) returns (result: Result<(), CacheError>)
      modifies this
      ensures if only.Some? && !ValidSiteId(only.value) then result == Err(BadSiteId) && sites == old(sites)
              else result == Ok(()) && sites == if only.Some? then old(sites) - {only.value} else map[]
      ensures nextInode == old(nextInode)
    {
      if only.Some? && !ValidSiteId(only.value) {
        return Err(BadSiteId);
      }
      sites := if only.Some? then sites - {only.value} else map[];
      return Ok(());
    }

    // First pass: expired sites go.
    method RemoveExpired(excluded: set<SiteId>, expiresBefore: Millis) returns (pruned: seq<SiteId>)
      modifies this
      ensures nextInode == old(nextInode)
      ensures sites == map id | id in old(sites) && (id in excluded || LastAccess(old(sites)[id]) >= expiresBefore) :: old(sites)[id]
      ensures Removed(old(sites), sites, pruned)
    {
      pruned := [];
      var roots := sites.Keys;
      while roots != {}
        invariant roots <= sites.Keys <= old(sites).Keys && nextInode == old(nextInode)
        invariant forall id | id in sites :: sites[id] == old(sites)[id]
        invariant forall id | id in old(sites) && id !in roots ::
                    id in sites <==> id in excluded || LastAccess(old(sites)[id]) >= expiresBefore
        invariant Removed(old(sites), sites, pruned)
        decreases |roots|
      {
        var id :| id in roots;
        roots := roots - {id};
        if id !in excluded && LastAccess(sites[id]) < expiresBefore {
          sites := sites - {id};
          pruned := pruned + [id];
        }
      }
    }

    // Second pass: oversized sites are trimmed, and go when that is not enough.
    method RemoveOversized(excluded: set<SiteId>, maxBytes: int) returns (pruned: seq<SiteId>)
      modifies this
      ensures nextInode == old(nextInode) && sites.Keys <= old(sites).Keys
      ensures forall id | id in old(sites) :: Resized(old(sites)[id], maxBytes, id in excluded, SiteAt(sites, id))
      ensures Removed(old(sites), sites, pruned)
    {
      pruned := [];
      var roots := sites.Keys;
      while roots != {}
        invariant roots <= sites.Keys <= old(sites).Keys && nextInode == old(nextInode)
        invariant forall id | id in roots :: sites[id] == old(sites)[id]
        invariant forall id | id in old(sites) && id !in roots ::
                    Resized(old(sites)[id], maxBytes, id in excluded, SiteAt(sites, id))
        invariant Removed(old(sites), sites, pruned)
        decreases |roots|
      {
        var id :| id in roots;
        roots := roots - {id};
        ghost var was, listed := sites, pruned;
        if id !in excluded && SiteBytes(sites[id]) > maxBytes {
          var resized := ResizeSite(sites[id], maxBytes);
          if resized.Some? {
            sites := sites[id := resized.value];
          } else {
            sites := sites - {id};
            pruned := pruned + [id];
          }
          RemovedStep(old(sites), was, listed, id, sites, pruned);
        }
        assert forall other | other != id :: SiteAt(sites, other) == SiteAt(was, other);
      }
    }

    method PruneCache(siteMaxBytes: int, ttlDays: int, excluded: set<SiteId>, now: Millis)
      returns (pruned: seq<SiteId>)
      modifies this
      ensures nextInode == old(nextInode)
      ensures PruneResult(old(sites), siteMaxBytes, ttlDays, excluded, now, sites)
      ensures Removed(old(sites), sites, pruned)
    {
      var expired := RemoveExpired(excluded, now - ttlDays * DAY);
      ghost var unexpired := sites;
      var oversized := RemoveOversized(excluded, siteMaxBytes);
      RemovedTwice(old(sites), unexpired, sites, expired, oversized);
      pruned := expired + oversized;
    }
  }

  function SiteAt(sites: Sites, id: SiteId): Option<Site> {
    if id in sites then Some(sites[id]) else None
  }

  // The list names exactly the removed roots, once each.
  ghost predicate Removed(before: Sites, after: Sites, pruned: seq<SiteId>) {
    && (forall id :: id in pruned <==> id in before && id !in after)
    && (forall i, j | 0 <= i < j < |pruned| :: pruned[i] != pruned[j])
  }

  lemma RemovedTwice(before: Sites, middle: Sites, after: Sites, first: seq<SiteId>, second: seq<SiteId>)
    requires after.Keys <= middle.Keys <= before.Keys
    requires Removed(before, middle, first) && Removed(middle, after, second)
    ensures Removed(before, after, first + second)
  {
    var all := first + second;
    forall i, j | 0 <= i < j < |all|
      ensures all[i] != all[j]
    {
      if i < |first| <= j {
        assert first[i] in first && second[j - |first|] in second;
      }
    }
  }

  // One more root is looked at: it stays, or goes and is listed.
  lemma RemovedStep(before: Sites, was: Sites, listed: seq<SiteId>, id: SiteId, after: Sites, pruned: seq<SiteId>)
    requires was.Keys <= before.Keys && Removed(before, was, listed) && id in was
    requires if id in after then after.Keys == was.Keys && pruned == listed
             else after.Keys == was.Keys - {id} && pruned == listed + [id]
    ensures Removed(before, after, pruned)
  {
    if id !in after {
      assert Removed(was, after, [id]);
      RemovedTwice(before, was, after, listed, [id]);
    }
  }

  // What `prepare_site_cache` does: the directory after it and its answer.
  predicate Preparation(before: Sites, inode: nat, id: SiteId, lockfile: Option<Lockfile>, enabled: bool,
                        markerSize: nat, metadataSize: nat, now: Millis,
                        after: Sites, inode': nat, result: Result<Prepared, CacheError>)
  {
    if !ValidSiteId(id) then result == Err(BadSiteId) && after == before && inode' == inode
    else if enabled && id in before && Unreadable(before[id]) then
      result == Err(BadMetadata) && after == before && inode' == inode
    else
      var reuse := id in before && !(enabled && Stale(before[id], lockfile));
      var root := if reuse then before[id] else EmptyRoot(inode, now);
      && inode' == (if reuse then inode else inode + 1)
      && if enabled then
        var event := if !reuse && id in before then Wiped
                     else if reuse && root.metadata.Some? && HasContents(root) then Hit else Miss;
        && result == Ok(Enabled(event, root.inode))
        && after == before[id := root.(metadata := Some(Metadata(lockfile, metadataSize, now)), mtime := now)]
      else
        result == Ok(Disabled) && after == before[id := root.(marker := Some(markerSize))]
  }

  // ---------- prune_cache ----------

  function Without(files: seq<File>, gone: set<File>): seq<File> {
    if files == [] then []
    else (if files[0] in gone then [] else [files[0]]) + Without(files[1..], gone)
  }

  function Contents(files: seq<File>): seq<File> {
    if files == [] then []
    else (if Ignored(files[0]) then [] else [files[0]]) + Contents(files[1..])
  }

  function InsertByAtime(f: File, sorted: seq<File>): seq<File> {
    if sorted == [] || f.atime <= sorted[0].atime then [f] + sorted
    else [sorted[0]] + InsertByAtime(f, sorted[1..])
  }

  // A stable sort by access time.
  function ByAtime(files: seq<File>): seq<File> {
    if files == [] then [] else InsertByAtime(files[0], ByAtime(files[1..]))
  }

  function FileSet(files: seq<File>): set<File> {
    set f | f in files
  }

  // The site without the first k least recently used content files.
  function Trimmed(site: Site, k: nat): Site
    requires k <= |ByAtime(Contents(site.files))|
  {
    site.(files := Without(site.files, FileSet(ByAtime(Contents(site.files))[..k])))
  }

  // k is the length of the shortest such prefix that meets the limit, or all of them.
  ghost predicate ShortestTrim(site: Site, maxBytes: int, k: nat) {
    var order := ByAtime(Contents(site.files));
    && k <= |order|
    && (k < |order| ==> SiteBytes(Trimmed(site, k)) <= maxBytes)
    && forall j | 0 <= j < k :: SiteBytes(Trimmed(site, j)) > maxBytes
  }

  lemma FileSetPush(files: seq<File>, k: nat)
    requires k < |files|
    ensures FileSet(files[..k + 1]) == FileSet(files[..k]) + {files[k]}
  {
    assert files[..k + 1] == files[..k] + [files[k]];
  }

  method PruneChildrenLru(site: Site, maxBytes: int) returns (trimmed: Site)
    ensures exists k: nat :: ShortestTrim(site, maxBytes, k) && trimmed == Trimmed(site, k)
  {
    var candidates := ByAtime(Contents(site.files));
    var gone: set<File> := {};
    trimmed := site;
    WithoutNothing(site.files);
    for k := 0 to |candidates|
      invariant gone == FileSet(candidates[..k]) && trimmed == Trimmed(site, k)
      invariant forall j | 0 <= j < k :: SiteBytes(Trimmed(site, j)) > maxBytes
    {
      if SiteBytes(trimmed) <= maxBytes {
        assert ShortestTrim(site, maxBytes, k);
        return;
      }
      FileSetPush(candidates, k);
      gone := gone + {candidates[k]};
      trimmed := site.(files := Without(site.files, gone));
    }
    assert ShortestTrim(site, maxBytes, |candidates|);
  }

  method ResizeSite(site: Site, maxBytes: int) returns (after: Option<Site>)
    requires SiteBytes(site) > maxBytes
    ensures Resized(site, maxBytes, false, after)
  {
    var trimmed := PruneChildrenLru(site, maxBytes);
    if SiteBytes(trimmed) > maxBytes {
      return None;
    }
    return Some(trimmed);
  }

  // One site under the size limit pass.
  ghost predicate Resized(before: Site, maxBytes: int, excluded: bool, after: Option<Site>) {
    if excluded || SiteBytes(before) <= maxBytes then after == Some(before)
    else exists k: nat :: ShortestTrim(before, maxBytes, k)
           && after == (if SiteBytes(Trimmed(before, k)) <= maxBytes then Some(Trimmed(before, k)) else None)
  }

  ghost predicate PruneResult(before: Sites, maxBytes: int, ttlDays: int, excluded: set<SiteId>, now: Millis, after: Sites) {
    && after.Keys <= before.Keys
    && forall id | id in before ::
      if id !in excluded && LastAccess(before[id]) < now - ttlDays * DAY then id !in after
      else Resized(before[id], maxBytes, id in excluded, SiteAt(after, id))
  }

  // ---------- what pruning guarantees ----------

  lemma {:induction false} WithoutNothing(files: seq<File>)
    ensures Without(files, {}) == files
  {
    if files != [] { WithoutNothing(files[1..]); }
  }

  lemma {:induction false} WithoutMembers(files: seq<File>, gone: set<File>)
    ensures forall f :: f in Without(files, gone) <==> f in files && f !in gone
  {
    if files != [] { WithoutMembers(files[1..], gone); }
  }

  lemma {:induction false} ContentsMembers(files: seq<File>)
    ensures forall f :: f in Contents(files) <==> f in files && !Ignored(f)
  {
    if files != [] { ContentsMembers(files[1..]); }
  }

  lemma {:induction false} InsertSorted(f: File, sorted: seq<File>)
    requires forall i, j | 0 <= i < j < |sorted| :: sorted[i].atime <= sorted[j].atime
    ensures var out := InsertByAtime(f, sorted);
            && (forall i, j | 0 <= i < j < |out| :: out[i].atime <= out[j].atime)
            && multiset(out) == multiset(sorted) + multiset{f}
  {
    if sorted != [] && f.atime > sorted[0].atime {
      InsertSorted(f, sorted[1..]);
      var tail := InsertByAtime(f, sorted[1..]);
      assert sorted == [sorted[0]] + sorted[1..];
      forall g | g in tail
        ensures sorted[0].atime <= g.atime
      {
        assert g in multiset(tail);
        assert g == f || g in sorted[1..];
      }
    } else {
      assert InsertByAtime(f, sorted) == [f] + sorted;
    }
  }

  /** The deletion order: every content file once, least recently used first. */
  lemma {:induction false} ByAtimeSorts(files: seq<File>)
    ensures forall i, j | 0 <= i < j < |ByAtime(files)| :: ByAtime(files)[i].atime <= ByAtime(files)[j].atime
    ensures multiset(ByAtime(files)) == multiset(files)
  {
    if files != [] {
      ByAtimeSorts(files[1..]);
      InsertSorted(files[0], ByAtime(files[1..]));
      assert files == [files[0]] + files[1..];
    }
  }

  function IgnoredBytes(files: seq<File>): nat {
    if files == [] then 0 else (if Ignored(files[0]) then files[0].size else 0) + IgnoredBytes(files[1..])
  }

  lemma {:induction false} WithoutBytes(files: seq<File>, gone: set<File>)
    requires forall f | f in gone :: !Ignored(f)
    ensures FileBytes(Without(files, gone)) >= IgnoredBytes(files)
    ensures (forall f | f in files && !Ignored(f) :: f in gone) ==> FileBytes(Without(files, gone)) == IgnoredBytes(files)
  {
    if files != [] {
      WithoutBytes(files[1..], gone);
      var tail := Without(files[1..], gone);
      assert files[0] !in gone ==> ([files[0]] + tail)[1..] == tail;
      assert [] + tail == tail;
    }
  }

  /** A trimmed site survives exactly when what the trim may not delete fits by itself. */
  lemma TrimSurvives(site: Site, maxBytes: int, k: nat)
    requires ShortestTrim(site, maxBytes, k)
    ensures SiteBytes(Trimmed(site, k)) <= maxBytes <==> OwnBytes(site) + IgnoredBytes(site.files) <= maxBytes
  {
    var order := ByAtime(Contents(site.files));
    var gone := set f | f in order[..k];
    ByAtimeSorts(Contents(site.files));
    ContentsMembers(site.files);
    forall f | f in gone
      ensures !Ignored(f)
    {
      assert f in order;
      assert f in multiset(order);
      assert f in Contents(site.files);
    }
    if k == |order| {
      assert order[..k] == order;
      forall f | f in site.files && !Ignored(f)
        ensures f in gone
      {
        assert f in multiset(Contents(site.files));
        assert f in order;
      }
    }
    WithoutBytes(site.files, gone);
  }

  /**
   After pruning, every remaining site that is not excluded is within the limit and not
   expired; excluded sites are unchanged; a site is gone exactly when it had expired or
   its bookkeeping files alone exceed the limit.
   */
  lemma PruneGuarantee(before: Sites, maxBytes: int, ttlDays: int, excluded: set<SiteId>, now: Millis, after: Sites, id: SiteId)
    requires PruneResult(before, maxBytes, ttlDays, excluded, now, after) && id in before
    ensures id in after && id !in excluded ==>
              SiteBytes(after[id]) <= maxBytes && LastAccess(after[id]) >= now - ttlDays * DAY
    ensures id in excluded ==> id in after && after[id] == before[id]
    ensures id in after <==>
              || id in excluded
              || (LastAccess(before[id]) >= now - ttlDays * DAY
                  && (SiteBytes(before[id]) <= maxBytes || OwnBytes(before[id]) + IgnoredBytes(before[id].files) <= maxBytes))
  {
    var site := before[id];
    if id !in excluded && LastAccess(site) >= now - ttlDays * DAY && SiteBytes(site) > maxBytes {
      var k: nat :| ShortestTrim(site, maxBytes, k)
        && SiteAt(after, id)
           == (if SiteBytes(Trimmed(site, k)) <= maxBytes then Some(Trimmed(site, k)) else None);
      TrimSurvives(site, maxBytes, k);
    }
  }

  // ---------- sizes, file by file ----------

  function Sum(sizes: seq<nat>): nat {
    if sizes == [] then 0 else sizes[0] + Sum(sizes[1..])
  }

  function Sizes(files: seq<File>): seq<nat> {
    seq(|files|, i requires 0 <= i < |files| => files[i].size)
  }

  // The size of every file below the root of the site.
  function OnDisk(site: Site): seq<nat> {
    (if site.metadata.Some? then [site.metadata.value.size] else [])
    + (if site.marker.Some? then [site.marker.value] else [])
    + Sizes(site.files)
  }

  lemma {:induction false} SumLaws(left: seq<nat>, right: seq<nat>)
    ensures Sum(left + right) == Sum(left) + Sum(right)
    ensures |left| == 1 ==> Sum(left) == left[0]
  {
    if left == [] {
      assert left + right == right;
    } else {
      SumLaws(left[1..], right);
      assert (left + right)[1..] == left[1..] + right;
    }
  }

  lemma {:induction false} SumCovers(sizes: seq<nat>)
    ensures forall n | n in sizes :: n <= Sum(sizes)
  {
    if sizes != [] {
      SumCovers(sizes[1..]);
      assert sizes == [sizes[0]] + sizes[1..];
    }
  }

  lemma {:induction false} SumAnyOrder(sizes: seq<nat>, others: seq<nat>)
    requires multiset(sizes) == multiset(others)
    ensures Sum(sizes) == Sum(others)
  {
    if sizes == [] {
      assert |others| == |multiset(others)| == 0;
    } else {
      var n := sizes[0];
      assert n in multiset(others);
      var i :| 0 <= i < |others| && others[i] == n;
      var rest := others[..i] + others[i + 1..];
      TakenOut(others, i);
      assert sizes == [n] + sizes[1..];
      Cancelled(multiset(sizes[1..]), multiset(rest), n);
      SumAnyOrder(sizes[1..], rest);
    }
  }

  lemma Cancelled(left: multiset<nat>, right: multiset<nat>, n: nat)
    requires multiset{n} + left == right + multiset{n}
    ensures left == right
  {
    forall m: nat
      ensures left[m] == right[m]
    {
      assert (multiset{n} + left)[m] == (right + multiset{n})[m];
    }
  }

  lemma TakenOut(sizes: seq<nat>, i: nat)
    requires i < |sizes|
    ensures multiset(sizes) == multiset(sizes[..i] + sizes[i + 1..]) + multiset{sizes[i]}
    ensures Sum(sizes) == Sum(sizes[..i] + sizes[i + 1..]) + sizes[i]
  {
    var front, back := sizes[..i], sizes[i + 1..];
    assert sizes == front + ([sizes[i]] + back);
    SumLaws(front, [sizes[i]] + back);
    SumLaws([sizes[i]], back);
    SumLaws(front, back);
  }

  lemma {:induction false} FileBytesIsSum(files: seq<File>)
    ensures FileBytes(files) == Sum(Sizes(files))
  {
    if files != [] {
      FileBytesIsSum(files[1..]);
      assert Sizes(files)[1..] == Sizes(files[1..]);
    }
  }

  /** The size that pruning compares with its limit is the sum over all files of the site, in whatever order they are listed. */
  lemma SiteBytesIsSum(site: Site, sizes: seq<nat>)
    requires multiset(sizes) == multiset(OnDisk(site))
    ensures SiteBytes(site) == Sum(sizes)
  {
    var metadata := if site.metadata.Some? then [site.metadata.value.size] else [];
    var marker := if site.marker.Some? then [site.marker.value] else [];
    FileBytesIsSum(site.files);
    SumLaws(metadata, marker);
    SumLaws(marker, []);
    SumLaws(metadata + marker, Sizes(site.files));
    SumAnyOrder(sizes, OnDisk(site));
  }

  predicate Bookkeeping(f: File) {
    f.name == ".build-engine-cache.json" || f.name == ".build-engine-cache-disabled"
  }

  // st_mtime of the metadata file, or of the root without one, is more than the given days ago.
  predicate UnusedFor(site: Site, days: int, now: Millis) {
    match site.metadata
    case Some(m) => m.mtime + days * 86_400_000 < now
    case None => site.mtime + days * 86_400_000 < now
  }

  /** What pruning leaves of a site that it may touch, with sizes read from the files. */
  lemma PruneLimits(before: Sites, maxBytes: int, ttlDays: int, excluded: set<SiteId>, now: Millis, after: Sites, id: SiteId)
    requires PruneResult(before, maxBytes, ttlDays, excluded, now, after) && id in before && id !in excluded
    ensures UnusedFor(before[id], ttlDays, now) ==> id !in after
    ensures id in after ==> forall sizes: seq<nat> | multiset(sizes) == multiset(OnDisk(after[id])) :: Sum(sizes) <= maxBytes
    ensures id in after ==> forall f | f in after[id].files :: f.size <= maxBytes && f in before[id].files
    ensures id in after && Sum(Sizes(before[id].files)) > maxBytes ==> exists f :: f in before[id].files && f !in after[id].files
    ensures Sum(OnDisk(before[id])) <= maxBytes && !UnusedFor(before[id], ttlDays, now) ==> id in after && after[id] == before[id]
    ensures (forall f | f in before[id].files :: !Bookkeeping(f)) ==>
              (id in after <==> !UnusedFor(before[id], ttlDays, now) && Sum(OnDisk(before[id].(files := []))) <= maxBytes)
  {
    var site := before[id];
    PruneGuarantee(before, maxBytes, ttlDays, excluded, now, after, id);
    SiteBytesIsSum(site, OnDisk(site));
    FileBytesIsSum(site.files);
    if id in after {
      LimitsAfter(site, maxBytes, after[id]);
    }
    if forall f | f in site.files :: !Bookkeeping(f) {
      NothingIgnored(site.files);
      SiteBytesIsSum(site.(files := []), OnDisk(site.(files := [])));
    }
  }

  lemma LimitsAfter(site: Site, maxBytes: int, left: Site)
    requires Resized(site, maxBytes, false, Some(left)) && SiteBytes(left) <= maxBytes
    ensures forall sizes: seq<nat> | multiset(sizes) == multiset(OnDisk(left)) :: Sum(sizes) <= maxBytes
    ensures forall f | f in left.files :: f.size <= maxBytes && f in site.files
    ensures FileBytes(site.files) > maxBytes ==> exists f :: f in site.files && f !in left.files
  {
    forall sizes: seq<nat> | multiset(sizes) == multiset(OnDisk(left))
      ensures Sum(sizes) <= maxBytes
    {
      SiteBytesIsSum(left, sizes);
    }
    EachFits(left.files);
    if left != site {
      var k: nat :| ShortestTrim(site, maxBytes, k) && Some(left) == Some(Trimmed(site, k));
      SomeGone(site.files, FileSet(ByAtime(Contents(site.files))[..k]));
    }
  }

  lemma EachFits(files: seq<File>)
    ensures forall f | f in files :: f.size <= FileBytes(files)
  {
    FileBytesIsSum(files);
    SumCovers(Sizes(files));
    forall f | f in files
      ensures f.size <= FileBytes(files)
    {
      var i :| 0 <= i < |files| && files[i] == f;
      assert Sizes(files)[i] == f.size;
    }
  }

  lemma SomeGone(files: seq<File>, gone: set<File>)
    ensures forall f | f in Without(files, gone) :: f in files
    ensures FileBytes(Without(files, gone)) < FileBytes(files) ==> exists f :: f in files && f !in Without(files, gone)
  {
    WithoutMembers(files, gone);
    if forall f | f in files :: f !in gone { AllKept(files, gone); }
  }

  lemma {:induction false} AllKept(files: seq<File>, gone: set<File>)
    requires forall f | f in files :: f !in gone
    ensures Without(files, gone) == files
  {
    if files != [] { AllKept(files[1..], gone); }
  }

  lemma {:induction false} NothingIgnored(files: seq<File>)
    requires forall f | f in files :: !Bookkeeping(f)
    ensures IgnoredBytes(files) == 0
  {
    if files != [] {
      assert files[0] in files && !Bookkeeping(files[0]);
      NothingIgnored(files[1..]);
    }
  }

  /** Trimming keeps every bookkeeping file and, of the contents, the files used last. */
  lemma TrimKeepsRecent(site: Site, maxBytes: int, k: nat, f: File, g: File)
    requires ShortestTrim(site, maxBytes, k) && f in site.files && f !in Trimmed(site, k).files
    requires g in Trimmed(site, k).files
    ensures !Bookkeeping(f) && (!Bookkeeping(g) ==> f.atime <= g.atime)
  {
    var contents := Contents(site.files);
    var order := ByAtime(contents);
    ByAtimeSorts(contents);
    ContentsMembers(site.files);
    WithoutMembers(site.files, FileSet(order[..k]));
    assert f in order[..k];
    var i :| 0 <= i < k && order[i] == f;
    assert f in multiset(order) && f in contents;
    if !Bookkeeping(g) {
      assert g in multiset(contents) && g in order;
      var j :| 0 <= j < |order| && order[j] == g;
      assert forall m | 0 <= m < k :: order[m] == order[..k][m];
    }
  }

  /** A site id is a single safe path component: ASCII letters, digits, `_` and `-`, so no separator, no dot and no blank. */
  lemma SiteIdsAreSafe(id: SiteId)
    ensures ValidSiteId(id) <==> 1 <= |id| <= 128 && forall c | c in id ::
              var n := c as int; 48 <= n <= 57 || 65 <= n <= 90 || 97 <= n <= 122 || n == 45 || n == 95
    ensures ValidSiteId(id) ==> '/' !in id && '\\' !in id && '.' !in id && ' ' !in id && '\0' !in id
  {
    if ValidSiteId(id) {
      forall c | c in id
        ensures var n := c as int; 48 <= n <= 57 || 65 <= n <= 90 || 97 <= n <= 122 || n == 45 || n == 95
      {
        var i :| 0 <= i < |id| && id[i] == c;
      }
    } else {
      forall i | 0 <= i < |id|
        ensures id[i] in id
      {
      }
    }
  }
}
