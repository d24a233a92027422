/** Executing a repair plan on the cache and the instance. */
module Repairing {
  import opened Wrappers
  import opened Contents
  import opened ManagedFiles
  import opened Verification
  import opened RepairPlanning
  import LoaderPlans
  import Ordering

  /**
   * Everything a repair reads besides the managed files: what each source serves, files outside the managed
   * roots, the loader's programs, and what unpacking the native archives yields.
   */
  datatype Environment = Environment(
    fetch: string -> Option<Bytes>,
    outside: string -> Option<Bytes>,
    tools: LoaderPlans.Tools,
    unpack: seq<(Bytes, seq<string>)> -> Option<map<RelativePath, Bytes>>)

  datatype Ran = Ran(disk: Disk, error: Option<RepairError>)

  const NATIVES := "runtime/natives/"

  predicate InNatives(place: Place) {
    place.0 == Instance && NATIVES <= place.1
  }

  predicate IsFile(disk: Disk, place: Place) {
    place in disk && disk[place].File?
  }

  predicate Blocked(disk: Disk, place: Place) {
    place in disk && disk[place].NonFile?
  }

  function Put(disk: Disk, place: Place, bytes: Bytes, now: nat): Disk {
    disk[place := File(bytes, Some(now))]
  }

  /** One download: a verified file is reused, anything stale is removed before the transfer. */
  function DownloadOne(env: Environment, disk: Disk, q: Request, now: nat): Ran {
    var place := (Cache, q.path);
    if Blocked(disk, place) then Ran(disk, Some(UnsafeEntry))
    else if IsFile(disk, place) && Matches(disk[place].bytes, q.size, q.hash) then Ran(disk, None)
    else
      match env.fetch(q.source)
      case None => Ran(disk - {place}, Some(DownloadFailed(q.path)))
      case Some(bytes) =>
        if Matches(bytes, q.size, q.hash) then Ran(Put(disk, place, bytes, now), None)
        else Ran(disk - {place}, Some(DownloadFailed(q.path)))
  }

  /** A batch: every request is carried out, and the first failure is reported afterwards. */
  function Downloads(env: Environment, disk: Disk, requests: seq<Request>, now: nat): Ran
    decreases |requests|
  {
    if requests == [] then Ran(disk, None)
    else
      var first := DownloadOne(env, disk, requests[0], now);
      var rest := Downloads(env, first.disk, requests[1..], now);
      Ran(rest.disk, FirstError(first.error, rest.error))
  }

  function FirstError(first: Option<RepairError>, rest: Option<RepairError>): Option<RepairError> {
    if first.Some? then first else rest
  }

  function ReadSource(env: Environment, disk: Disk, source: CopySource): Option<Bytes> {
    match source
    case Outside(file) => env.outside(file)
    case Cached(path) => if IsFile(disk, (Cache, path)) then Some(disk[(Cache, path)].bytes) else None
  }

  /** `repair_copy`: the source is verified before anything is written. */
  function CopyOne(env: Environment, disk: Disk, c: Copy, now: nat): Ran {
    var bytes := ReadSource(env, disk, c.source);
    if bytes.None? || !Matches(bytes.value, c.size, c.hash) then Ran(disk, Some(CopyFailed(c.destination)))
    else if Blocked(disk, c.destination) then Ran(disk, Some(UnsafeEntry))
    else Ran(Put(disk, c.destination, bytes.value, now), None)
  }

  function Copies(env: Environment, disk: Disk, copies: seq<Copy>, now: nat): Ran
    decreases |copies|
  {
    if copies == [] then Ran(disk, None)
    else
      var first := CopyOne(env, disk, copies[0], now);
      if first.error.Some? then first else Copies(env, first.disk, copies[1..], now)
  }

  function OnlyInto(copies: seq<Copy>, location: Location): seq<Copy> {
    if copies == [] then []
    else (if copies[0].destination.0 == location then [copies[0]] else []) + OnlyInto(copies[1..], location)
  }

  function RemoveManaged(disk: Disk, path: RelativePath): Ran {
    if Blocked(disk, (Instance, path)) then Ran(disk, Some(RemovalFailed(path))) else Ran(disk - {(Instance, path)}, None)
  }

  function Removals(disk: Disk, paths: seq<RelativePath>): Ran
    decreases |paths|
  {
    if paths == [] then Ran(disk, None)
    else
      var first := RemoveManaged(disk, paths[0]);
      if first.error.Some? then first else Removals(first.disk, paths[1..])
  }

  /** The archives' contents, when all of them are files. */
  function ReadArchives(disk: Disk, archives: seq<Extraction>): Option<seq<(Bytes, seq<string>)>> {
    if archives == [] then Some([])
    else
      var rest := ReadArchives(disk, archives[1..]);
      if !IsFile(disk, (Cache, archives[0].archive)) || rest.None? then None
      else Some([(disk[(Cache, archives[0].archive)].bytes, archives[0].exclusions)] + rest.value)
  }

  /** The natives directory is swapped for a freshly extracted one. */
  function Reextract(env: Environment, disk: Disk, archives: seq<Extraction>, now: nat): Ran {
    var contents := ReadArchives(disk, archives);
    if contents.None? then Ran(disk, Some(ExtractionFailed))
    else
      match env.unpack(contents.value)
      case None => Ran(disk, Some(ExtractionFailed))
      case Some(tree) => Ran(WithNatives(disk, tree, now), None)
  }

  function WithNatives(disk: Disk, tree: map<RelativePath, Bytes>, now: nat): Disk {
    map place |
      place in disk.Keys + (set p | p in tree :: (Instance, NATIVES + p))
      && (InNatives(place) ==> place.1[|NATIVES|..] in tree)
      :: if InNatives(place) then File(tree[place.1[|NATIVES|..]], Some(now)) else disk[place]
  }

  // ---- the loader's view of the cache

  function CachePaths(disk: Disk): set<RelativePath> {
    set place | place in disk && place.0 == Cache && disk[place].File? :: place.1
  }

  function CacheOf(disk: Disk): LoaderPlans.Cache {
    map p | p in CachePaths(disk) && IsFile(disk, (Cache, p)) :: disk[(Cache, p)].bytes
  }

  predicate Rewritten(disk: Disk, cache: LoaderPlans.Cache, place: Place) {
    place.0 == Cache && place.1 in cache && !(IsFile(disk, place) && disk[place].bytes == cache[place.1])
  }

  /** The disk after the loader left the cache as `cache`. */
  function WithCache(disk: Disk, cache: LoaderPlans.Cache, now: nat): Disk {
    map place | place in disk.Keys + (set p | p in cache :: (Cache, p)) ::
      if Rewritten(disk, cache, place) then File(cache[place.1], Some(now)) else disk[place]
  }

  function RunLoader(env: Environment, disk: Disk, entries: seq<LoaderPlans.ArchiveEntry>, processors: seq<LoaderPlans.Processor>, now: nat): Ran {
    var (extracted, error) := LoaderPlans.Extract(env.tools, CacheOf(disk), entries, None);
    if error.Some? then Ran(WithCache(disk, extracted, now), Some(LoaderFailed(error.value)))
    else
      var o := LoaderPlans.Execute(env.tools, extracted, processors, None);
      Ran(WithCache(disk, o.cache, now), if o.error.Some? then Some(LoaderFailed(o.error.value)) else None)
  }

  // ---- the whole run

  function AfterLoader(env: Environment, disk: Disk, plan: RepairPlan, now: nat): Ran {
    var d := Downloads(env, disk, plan.downloads, now);
    if d.error.Some? || (plan.entries == [] && plan.processors == []) then d
    else RunLoader(env, d.disk, plan.entries, plan.processors, now)
  }

  function AfterCopies(env: Environment, disk: Disk, plan: RepairPlan, now: nat): Ran {
    var l := AfterLoader(env, disk, plan, now);
    if l.error.Some? then l
    else
      var c := Copies(env, l.disk, OnlyInto(plan.copies, Cache), now);
      if c.error.Some? then c else Copies(env, c.disk, OnlyInto(plan.copies, Instance), now)
  }

  /** The file changes of `repair_unlocked`, up to the rewriting of the index. */
  function Execute(env: Environment, disk: Disk, plan: RepairPlan, archives: seq<Extraction>, now: nat): Ran {
    var c := AfterCopies(env, disk, plan, now);
    if c.error.Some? then c
    else if !plan.nativeInvalid || archives == [] then Removals(c.disk, plan.removals)
    else Reextract(env, c.disk, archives, now)
  }

  /** The managed roots, changed in place. */
  class RepairRun {
    var disk: Disk
    const env: Environment
    const now: nat

    constructor (disk: Disk, env: Environment, now: nat)
      ensures this.disk == disk && this.env == env && this.now == now
    {
      this.disk, this.env, this.now := disk, env, now;
    }

    /** `download_all`: no failure keeps the other requests from being carried out. */
    method DownloadAll(requests: seq<Request>) returns (error: Option<RepairError>)
      modifies this`disk
      ensures Ran(disk, error) == Downloads(env, old(disk), requests, now)
    {
      assert requests[0..] == requests;
      error := None;
      for i := 0 to |requests|
        invariant
          var rest := Downloads(env, disk, requests[i..], now);
          Ran(rest.disk, FirstError(error, rest.error)) == Downloads(env, old(disk), requests, now)
      {
        assert requests[i..][1..] == requests[i + 1..];
        var one := DownloadOne(env, disk, requests[i], now);
        disk, error := one.disk, FirstError(error, one.error);
      }
    }

    method CopyInto(copies: seq<Copy>, location: Location) returns (error: Option<RepairError>)
      modifies this`disk
      ensures Ran(disk, error) == Copies(env, old(disk), OnlyInto(copies, location), now)
    {
      assert copies[0..] == copies;
      for i := 0 to |copies|
        invariant Copies(env, disk, OnlyInto(copies[i..], location), now) == Copies(env, old(disk), OnlyInto(copies, location), now)
      {
        assert copies[i..][1..] == copies[i + 1..];
        ghost var rest := OnlyInto(copies[i + 1..], location);
        if copies[i].destination.0 == location {
          assert ([copies[i]] + rest)[1..] == rest;
          var one := CopyOne(env, disk, copies[i], now);
          disk := one.disk;
          if one.error.Some? { return one.error; }
        } else {
          assert [] + rest == rest;
        }
      }
      error := None;
    }

    method RemoveAll(paths: seq<RelativePath>) returns (error: Option<RepairError>)
      modifies this`disk
      ensures Ran(disk, error) == Removals(old(disk), paths)
    {
      assert paths[0..] == paths;
      for i := 0 to |paths|
        invariant Removals(disk, paths[i..]) == Removals(old(disk), paths)
      {
        assert paths[i..][1..] == paths[i + 1..];
        var one := RemoveManaged(disk, paths[i]);
        disk := one.disk;
        if one.error.Some? { return one.error; }
      }
      error := None;
    }

    method LoaderSteps(entries: seq<LoaderPlans.ArchiveEntry>, processors: seq<LoaderPlans.Processor>) returns (error: Option<RepairError>)
      modifies this`disk
      ensures Ran(disk, error) == RunLoader(env, old(disk), entries, processors, now)
    {
      var run := new LoaderPlans.LoaderRun(CacheOf(disk), processors);
      var failed := run.ExtractEntries(env.tools, entries, None);
      if failed.None? {
        var executed;
        failed, executed := run.ExecuteProcessors(env.tools, None);
      }
      disk := WithCache(disk, run.cache, now);
      error := if failed.Some? then Some(LoaderFailed(failed.value)) else None;
    }

    /** Downloads, loader steps, cache copies, then the instance copies that may read them. */
    method RestoreContents(plan: RepairPlan) returns (error: Option<RepairError>)
      modifies this`disk
      ensures Ran(disk, error) == AfterCopies(env, old(disk), plan, now)
    {
      error := DownloadAll(plan.downloads);
      if error.Some? { return; }
      if plan.entries != [] || plan.processors != [] {
        error := LoaderSteps(plan.entries, plan.processors);
        if error.Some? { return; }
      }
      error := CopyInto(plan.copies, Cache);
      if error.Some? { return; }
      error := CopyInto(plan.copies, Instance);
    }

    method ExecutePlan(plan: RepairPlan, archives: seq<Extraction>) returns (error: Option<RepairError>)
      modifies this`disk
      ensures Ran(disk, error) == Execute(env, old(disk), plan, archives, now)
    {
      error := RestoreContents(plan);
      if error.Some? { return; }
      var extractions := if plan.nativeInvalid then archives else [];
      if extractions == [] {
        error := RemoveAll(plan.removals);
      }
      if extractions != [] {
        var ran := Reextract(env, disk, extractions, now);
        disk, error := ran.disk, ran.error;
      }
    }

    /**
     * `repair_unlocked` with an existing index: execute, stamp the index anew, verify everything in full.
     * `unexpected` are the unindexed natives the final verification finds.
     */
    method Repair(plan: RepairPlan, index: Index) returns (refreshed: Option<seq<ManagedFile>>, error: Option<RepairError>)
      modifies this`disk
      ensures disk == Execute(env, old(disk), plan, index.archives, now).disk
      ensures error.None? <==> Succeeds(env, old(disk), plan, index, now)
      ensures error.None? ==> refreshed.Some?
      ensures refreshed.Some? ==> Refreshed(disk, index.files, refreshed.value)
      ensures error.None? ==> StampsSound(disk, refreshed.value) && Vouched(disk, refreshed.value)
    {
      refreshed := None;
      error := ExecutePlan(plan, index.archives);
      if error.Some? { return; }
      refreshed := RefreshIndex(disk, index.files);
      if refreshed.None? {
        UnsnappedIsInvalid(disk, index.files);
        error := Some(UnsafeEntry);
        return;
      }
      var checks := ChecksOf(disk, refreshed.value, true) + Unindexed(disk, refreshed.value);
      var report := BuildReport(checks);
      HealthyMeansAllValid(checks);
      FinalChecks(disk, index.files, refreshed.value);
      if !IsHealthy(report) {
        error := Some(FinalVerification(report.missing, report.corrupted));
      } else {
        HealthyStampsAreSound(disk, index.files, refreshed.value);
      }
    }
  }

  // ---- the final verification

  predicate IsUnindexed(disk: Disk, files: seq<ManagedFile>, place: Place) {
    IsFile(disk, place) && InNatives(place) && !exists f :: f in files && f.location == Instance && f.path == place.1
  }

  function UnindexedCheck(disk: Disk, path: RelativePath): FileCheck
    requires IsFile(disk, (Instance, path))
  {
    FileCheck("unexpected-native:" + path, path, Instance, ExtractedNative, Unexpected, None, Some(|disk[(Instance, path)].bytes|))
  }

  function UnindexedPaths(disk: Disk, files: seq<ManagedFile>): set<RelativePath> {
    set place | place in disk && IsUnindexed(disk, files, place) :: place.1
  }

  function ChecksFor(disk: Disk, paths: seq<RelativePath>): (r: seq<FileCheck>)
    requires forall p :: p in paths ==> IsFile(disk, (Instance, p))
    ensures |r| == |paths| && forall i :: 0 <= i < |r| ==> r[i] == UnindexedCheck(disk, paths[i])
  {
    if paths == [] then [] else [UnindexedCheck(disk, paths[0])] + ChecksFor(disk, paths[1..])
  }

  /** `find_unindexed_instance_natives`, in some order. */
  function Unindexed(disk: Disk, files: seq<ManagedFile>): seq<FileCheck> {
    ChecksFor(disk, Ordering.Ascending(UnindexedPaths(disk, files)))
  }

  ghost predicate AllHealthy(disk: Disk, files: seq<ManagedFile>) {
    && (forall f :: f in files ==> VerifyManagedFile(disk, f, true).state == Valid)
    && (forall place :: !IsUnindexed(disk, files, place))
  }

  ghost predicate Succeeds(env: Environment, disk: Disk, plan: RepairPlan, index: Index, now: nat) {
    var ran := Execute(env, disk, plan, index.archives, now);
    ran.error.None? && AllHealthy(ran.disk, index.files)
  }

  lemma SnapshotKeepsCheck(disk: Disk, f: ManagedFile, g: ManagedFile)
    requires Snapshot(disk, f) == Some(g)
    ensures PlaceOf(f) == PlaceOf(g) && VerifyManagedFile(disk, f, true).state == VerifyManagedFile(disk, g, true).state
  {
  }

  lemma UnindexedEmptyIff(disk: Disk, files: seq<ManagedFile>)
    ensures Unindexed(disk, files) == [] <==> forall place :: !IsUnindexed(disk, files, place)
    ensures forall c :: c in Unindexed(disk, files) ==> c.state == Unexpected
  {
    var paths := UnindexedPaths(disk, files);
    if paths != {} {
      var p :| p in paths;
      assert IsUnindexed(disk, files, (Instance, p));
    } else {
      forall place ensures !IsUnindexed(disk, files, place) { assert place.1 !in paths; }
    }
  }

  lemma IndexedChecks(disk: Disk, files: seq<ManagedFile>, refreshed: seq<ManagedFile>)
    requires Refreshed(disk, files, refreshed)
    ensures (forall c :: c in ChecksOf(disk, refreshed, true) ==> c.state == Valid)
       <==> (forall f :: f in files ==> VerifyManagedFile(disk, f, true).state == Valid)
  {
    var checks := ChecksOf(disk, refreshed, true);
    forall i | 0 <= i < |files| ensures checks[i].state == VerifyManagedFile(disk, files[i], true).state && checks[i] in checks && files[i] in files {
      SnapshotKeepsCheck(disk, files[i], refreshed[i]);
    }
  }

  lemma FinalChecks(disk: Disk, files: seq<ManagedFile>, refreshed: seq<ManagedFile>)
    requires Refreshed(disk, files, refreshed)
    ensures (forall c :: c in ChecksOf(disk, refreshed, true) + Unindexed(disk, refreshed) ==> c.state == Valid) <==> AllHealthy(disk, files)
  {
    var checks, extra := ChecksOf(disk, refreshed, true), Unindexed(disk, refreshed);
    IndexedChecks(disk, files, refreshed);
    forall i | 0 <= i < |files| ensures PlaceOf(files[i]) == PlaceOf(refreshed[i]) { SnapshotKeepsCheck(disk, files[i], refreshed[i]); }
    SameUnindexed(disk, files, refreshed);
    UnindexedEmptyIff(disk, refreshed);
    assert extra != [] ==> extra[0] in extra;
    assert forall c :: c in checks + extra <==> c in checks || c in extra;
  }

  lemma HealthyStampsAreSound(disk: Disk, files: seq<ManagedFile>, refreshed: seq<ManagedFile>)
    requires Refreshed(disk, files, refreshed)
    requires forall c :: c in ChecksOf(disk, refreshed, true) + Unindexed(disk, refreshed) ==> c.state == Valid
    ensures StampsSound(disk, refreshed) && Vouched(disk, refreshed)
  {
    var checks := ChecksOf(disk, refreshed, true);
    assert forall c :: c in checks ==> c in checks + Unindexed(disk, refreshed);
    HealthyMeansAllValid(checks);
    RefreshIsSoundIffContentIs(disk, files, refreshed);
  }

  /** After a successful repair quick verification refines full verification, whatever shows in sizes or times later. */
  lemma QuickRefinesFullAfterRepair(before: Disk, after: Disk, files: seq<ManagedFile>, refreshed: seq<ManagedFile>)
    requires Refreshed(before, files, refreshed) && AllHealthy(before, files)
    requires forall f :: f in files ==> ChangesShow(before, after, PlaceOf(f))
    ensures ReportOf(ChecksOf(after, refreshed, false) + Unindexed(after, refreshed))
         == ReportOf(ChecksOf(after, refreshed, true) + Unindexed(after, refreshed))
  {
    FinalChecks(before, files, refreshed);
    HealthyStampsAreSound(before, files, refreshed);
    forall f | f in refreshed ensures ChangesShow(before, after, PlaceOf(f)) {
      var i :| 0 <= i < |refreshed| && refreshed[i] == f;
      assert files[i] in files;
      SnapshotKeepsCheck(before, files[i], f);
    }
    QuickRefinesFull(before, after, refreshed, Unindexed(after, refreshed));
  }

  lemma UnsnappedIsInvalid(disk: Disk, files: seq<ManagedFile>)
    requires exists i :: 0 <= i < |files| && Snapshot(disk, files[i]).None?
    ensures !AllHealthy(disk, files)
  {
    var i :| 0 <= i < |files| && Snapshot(disk, files[i]).None?;
    assert files[i] in files;
  }

  lemma SameUnindexed(disk: Disk, files: seq<ManagedFile>, refreshed: seq<ManagedFile>)
    requires |files| == |refreshed| && forall i :: 0 <= i < |files| ==> PlaceOf(files[i]) == PlaceOf(refreshed[i])
    ensures forall place :: IsUnindexed(disk, files, place) <==> IsUnindexed(disk, refreshed, place)
  {
    forall place ensures IsUnindexed(disk, files, place) <==> IsUnindexed(disk, refreshed, place) {
      if f :| f in files && f.location == Instance && f.path == place.1 {
        var i :| 0 <= i < |files| && files[i] == f;
        assert refreshed[i] in refreshed && PlaceOf(files[i]) == PlaceOf(refreshed[i]);
      }
      if f :| f in refreshed && f.location == Instance && f.path == place.1 {
        var i :| 0 <= i < |files| && refreshed[i] == f;
        assert files[i] in files && PlaceOf(files[i]) == PlaceOf(refreshed[i]);
      }
    }
  }
}
