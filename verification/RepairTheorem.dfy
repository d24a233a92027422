/** The conditions under which a repair converges, and the two ways the code's own data can violate them. */
module RepairTheorem {
  import opened Wrappers
  import opened Contents
  import opened ManagedFiles
  import opened Verification
  import opened RepairPlanning
  import opened Repairing
  import opened RepairConvergence
  import LoaderPlans

  // ---- what the surroundings have to offer

  /** `recorded` is the content the index pins, place by place. */
  ghost predicate Records(files: seq<ManagedFile>, recorded: Recorded) {
    && (forall f :: f in files ==> PlaceOf(f) in recorded && Exactly(recorded[PlaceOf(f)], f.size, f.hash))
    && (forall place :: place in recorded ==> Indexed(files, place))
  }

  ghost predicate Indexed(files: seq<ManagedFile>, place: Place) {
    exists f :: f in files && PlaceOf(f) == place
  }

  /** The file's route leads to its recorded content. */
  ghost predicate Deliverable(env: Environment, index: Index, loader: Option<Loader>, recorded: Recorded, f: ManagedFile)
    requires PlaceOf(f) in recorded
  {
    match RouteOf(f, loader)
    case ByDownload(source) => env.fetch(source) == Some(recorded[PlaceOf(f)])
    case ByOutsideCopy(file) => env.outside(file) == Some(recorded[PlaceOf(f)])
    case ByProcessor(p) => Rebuilds(env.tools, recorded, p)
    case ByEntry(e) => Yields(env.tools, recorded, e)
    case ByCacheCopy(path) =>
      (Cache, path) in recorded && recorded[(Cache, path)] == recorded[PlaceOf(f)] && !InNatives(PlaceOf(f))
    case ByRemoval => f.kind == ExtractedNative && InNatives(PlaceOf(f)) && index.archives != []
    case Nowhere(_) => false
  }

  ghost predicate UniqueProcessorIds(loader: Option<Loader>) {
    loader.Some? ==> forall p, q :: p in loader.value.processors && q in loader.value.processors && p.id == q.id ==> p == q
  }

  /** The native archives, as recorded, unpack to exactly the indexed natives. */
  ghost predicate NativesReproduced(env: Environment, archives: seq<Extraction>, recorded: Recorded) {
    && (forall a :: a in archives ==> (Cache, a.archive) in recorded)
    && (archives == [] ==> forall place :: place in recorded ==> !InNatives(place))
    && (archives != [] ==> Unpacks(env, archives, recorded))
  }

  ghost predicate Unpacks(env: Environment, archives: seq<Extraction>, recorded: Recorded)
    requires forall a :: a in archives ==> (Cache, a.archive) in recorded
  {
    var tree := env.unpack(RecordedArchives(archives, recorded));
    && tree.Some?
    && (forall p :: p in tree.value <==> (Instance, NATIVES + p) in recorded)
    && (forall p :: p in tree.value ==> (Instance, NATIVES + p) in recorded && tree.value[p] == recorded[(Instance, NATIVES + p)])
  }

  ghost function RecordedArchives(archives: seq<Extraction>, recorded: Recorded): seq<(Bytes, seq<string>)>
    requires forall a :: a in archives ==> (Cache, a.archive) in recorded
  {
    if archives == [] then []
    else
      assert archives[0] in archives;
      [(recorded[(Cache, archives[0].archive)], archives[0].exclusions)] + RecordedArchives(archives[1..], recorded)
  }

  /** Everything but the state of the disk. */
  ghost predicate Repairable(env: Environment, index: Index, loader: Option<Loader>, recorded: Recorded) {
    && UniqueProcessorIds(loader)
    && Records(index.files, recorded)
    && NativesReproduced(env, index.archives, recorded)
    && (forall f :: f in index.files ==> Deliverable(env, index, loader, recorded, f))
  }

  /** A verification in either mode: one check per file and per unindexed native, in any order. */
  ghost predicate IsVerification(checks: seq<FileCheck>, disk: Disk, files: seq<ManagedFile>, full: bool) {
    && (forall f :: f in files ==> VerifyManagedFile(disk, f, full) in checks)
    && (forall path :: IsUnindexed(disk, files, (Instance, path)) ==> UnindexedCheck(disk, path) in checks)
    && (forall c :: c in checks ==> FromFile(c, disk, files, full) || FromUnindexed(c, disk, files))
  }

  ghost predicate FromFile(c: FileCheck, disk: Disk, files: seq<ManagedFile>, full: bool) {
    exists f :: f in files && c == VerifyManagedFile(disk, f, full)
  }

  ghost predicate FromUnindexed(c: FileCheck, disk: Disk, files: seq<ManagedFile>) {
    IsUnindexed(disk, files, (Instance, c.path)) && c == UnindexedCheck(disk, c.path)
  }

  /** Every damaged file is found again by its id and location: no earlier entry shadows it. */
  ghost predicate Unshadowed(disk: Disk, files: seq<ManagedFile>, recorded: Recorded) {
    forall f :: f in files && !Held(disk, recorded, PlaceOf(f)) ==> Found(files, f)
  }

  /** What each queued loader step reads is right when its turn comes: intact, downloaded, or left by the steps before it. */
  ghost predicate Independent(disk: Disk, recorded: Recorded, plan: RepairPlan) {
    StepsFed(Good(CacheOf(disk), recorded) + RequestPaths(plan.downloads), plan)
  }

  // ---- planning covers everything invalid

  lemma ValidMeansHeld(disk: Disk, files: seq<ManagedFile>, f: ManagedFile, full: bool, recorded: Recorded)
    requires Records(files, recorded) && f in files && (full || StampSound(disk, f))
    ensures VerifyManagedFile(disk, f, full).state == Valid <==> Held(disk, recorded, PlaceOf(f))
    ensures VerifyManagedFile(disk, f, full).state != Unexpected
  {
    QuickAgreesIffStampSound(disk, f);
    assert Matches(recorded[PlaceOf(f)], f.size, f.hash);
  }

  lemma {:induction false} SomethingIsFound(files: seq<ManagedFile>, f: ManagedFile)
    requires f in files
    ensures FindFile(files, f.id, f.location).Some? && FindFile(files, f.id, f.location).value in files
  {
    if f != files[0] {
      assert files == [files[0]] + files[1..];
      SomethingIsFound(files[1..], f);
    }
  }

  lemma FileCheckIsPlannable(disk: Disk, files: seq<ManagedFile>, loader: Option<Loader>, f: ManagedFile, full: bool)
    requires f in files && forall g :: g in files ==> !RouteOf(g, loader).Nowhere?
    ensures Plannable(VerifyManagedFile(disk, f, full), files, loader)
  {
    SomethingIsFound(files, f);
  }

  lemma RepairablePlans(env: Environment, disk: Disk, index: Index, loader: Option<Loader>, recorded: Recorded, checks: seq<FileCheck>, full: bool)
    requires Repairable(env, index, loader, recorded) && IsVerification(checks, disk, index.files, full)
    ensures PlanAll(checks, index.files, loader).Success?
  {
    forall f | f in index.files ensures !RouteOf(f, loader).Nowhere? { assert Deliverable(env, index, loader, recorded, f); }
    forall f | f in index.files ensures Plannable(VerifyManagedFile(disk, f, full), index.files, loader) {
      FileCheckIsPlannable(disk, index.files, loader, f, full);
    }
    AllPlannable(disk, index.files, loader, checks, full);
    PlanSucceedsIff(checks, index.files, loader);
  }

  lemma AllPlannable(disk: Disk, files: seq<ManagedFile>, loader: Option<Loader>, checks: seq<FileCheck>, full: bool)
    requires IsVerification(checks, disk, files, full)
    requires forall f :: f in files ==> Plannable(VerifyManagedFile(disk, f, full), files, loader)
    ensures forall c :: c in checks ==> Plannable(c, files, loader)
  {
    forall c | c in checks ensures Plannable(c, files, loader) {
      if FromUnindexed(c, disk, files) {
      } else {
        assert FromFile(c, disk, files, full);
      }
    }
  }

  /** The plan writes this place, or replaces the natives around it. */
  ghost predicate Targeted(plan: RepairPlan, archives: seq<Extraction>, place: Place) {
    place in PlanPlaces(plan) || (Extracts(plan, archives) && InNatives(place))
  }

  /** Every damaged indexed file is where the plan will write. */
  ghost predicate AllTargeted(disk: Disk, index: Index, recorded: Recorded, plan: RepairPlan) {
    forall f :: f in index.files && !Held(disk, recorded, PlaceOf(f)) ==> Targeted(plan, index.archives, PlaceOf(f))
  }

  /** Every unindexed native is to be removed, and the natives are known to be invalid. */
  ghost predicate SweepsNatives(disk: Disk, files: seq<ManagedFile>, plan: RepairPlan) {
    forall path :: IsUnindexed(disk, files, (Instance, path)) ==> path in plan.removals && plan.nativeInvalid
  }

  lemma FileIsHandled(disk: Disk, files: seq<ManagedFile>, loader: Option<Loader>, recorded: Recorded, checks: seq<FileCheck>, full: bool, f: ManagedFile)
    requires Records(files, recorded) && PlanAll(checks, files, loader).Success? && Found(files, f)
    requires f in files && VerifyManagedFile(disk, f, full) in checks && (full || StampSound(disk, f))
    ensures Held(disk, recorded, PlaceOf(f)) || Handles(PlanAll(checks, files, loader).value, f, loader)
  {
    ValidMeansHeld(disk, files, f, full, recorded);
    PlanAnswersEveryCheck(checks, files, loader, VerifyManagedFile(disk, f, full));
  }

  lemma UnindexedIsCovered(disk: Disk, files: seq<ManagedFile>, loader: Option<Loader>, checks: seq<FileCheck>, path: RelativePath)
    requires PlanAll(checks, files, loader).Success? && IsUnindexed(disk, files, (Instance, path)) && UnindexedCheck(disk, path) in checks
    ensures var plan := PlanAll(checks, files, loader).value; path in plan.removals && plan.nativeInvalid
  {
    PlanAnswersEveryCheck(checks, files, loader, UnindexedCheck(disk, path));
  }

  lemma PlanSweepsNatives(env: Environment, disk: Disk, index: Index, loader: Option<Loader>, recorded: Recorded, checks: seq<FileCheck>, full: bool)
    requires Repairable(env, index, loader, recorded) && IsVerification(checks, disk, index.files, full)
    ensures PlanAll(checks, index.files, loader).Success?
    ensures SweepsNatives(disk, index.files, PlanAll(checks, index.files, loader).value)
  {
    RepairablePlans(env, disk, index, loader, recorded, checks, full);
    forall path | IsUnindexed(disk, index.files, (Instance, path))
      ensures var plan := PlanAll(checks, index.files, loader).value; path in plan.removals && plan.nativeInvalid
    {
      UnindexedIsCovered(disk, index.files, loader, checks, path);
    }
  }

  // ---- the phases up to the copies

  lemma PlannedDownloadsAreServed(env: Environment, index: Index, loader: Option<Loader>, recorded: Recorded, plan: RepairPlan, checks: seq<FileCheck>)
    requires Repairable(env, index, loader, recorded) && Justified(plan, checks, index.files, loader)
    ensures forall q :: q in plan.downloads ==> Served(env, recorded, q)
  {
    forall q | q in plan.downloads ensures Served(env, recorded, q) {
      assert NeedsDownload(index.files, loader, q);
      var f :| f in index.files && Found(index.files, f) && RouteOf(f, loader).ByDownload? && q == RequestOf(f, RouteOf(f, loader).source);
      assert Deliverable(env, index, loader, recorded, f);
      assert PlaceOf(f) == (Cache, q.path);
    }
  }

  lemma PlannedStepsRebuild(env: Environment, index: Index, loader: Option<Loader>, recorded: Recorded, plan: RepairPlan, checks: seq<FileCheck>)
    requires Repairable(env, index, loader, recorded) && Justified(plan, checks, index.files, loader)
    ensures StepsRebuild(env.tools, recorded, plan)
  {
    forall e | e in plan.entries ensures Yields(env.tools, recorded, e) {
      assert NeedsEntry(index.files, loader, e);
      var f :| f in index.files && RouteOf(f, loader) == ByEntry(e);
      assert Deliverable(env, index, loader, recorded, f);
    }
    forall p | p in plan.processors ensures Rebuilds(env.tools, recorded, p) {
      assert NeedsProcessor(index.files, loader, p);
      var f :| f in index.files && RouteOf(f, loader) == ByProcessor(p);
      assert Deliverable(env, index, loader, recorded, f);
    }
  }

  lemma CopiedGoesHome(f: ManagedFile, loader: Option<Loader>, c: Copy)
    requires CopiedBy(f, loader, c)
    ensures c.destination == PlaceOf(f) && (c.source.Cached? <==> f.location == Instance)
  {
    match RouteOf(f, loader) {
      case ByOutsideCopy(_) =>
      case ByCacheCopy(_) =>
    }
  }

  lemma CopyIsSourced(env: Environment, index: Index, loader: Option<Loader>, recorded: Recorded, c: Copy, disk: Disk)
    requires Records(index.files, recorded) && forall f :: f in index.files ==> Deliverable(env, index, loader, recorded, f)
    requires NeedsCopy(index.files, loader, c)
    requires c.source.Cached? && (Cache, c.source.path) in recorded ==> Held(disk, recorded, (Cache, c.source.path))
    ensures Sourced(env, disk, recorded, c)
  {
    var f :| f in index.files && CopiedBy(f, loader, c);
    assert Deliverable(env, index, loader, recorded, f);
    CopiedGoesHome(f, loader, c);
  }

  /** Copies into the cache come from outside, so only instance copies read the cache. */
  lemma CacheCopyIsFromOutside(files: seq<ManagedFile>, loader: Option<Loader>, c: Copy)
    requires NeedsCopy(files, loader, c)
    ensures c.source.Cached? <==> c.destination.0 == Instance
  {
    var f :| f in files && CopiedBy(f, loader, c);
    CopiedGoesHome(f, loader, c);
  }

  lemma CopiesAreSourced(env: Environment, index: Index, loader: Option<Loader>, recorded: Recorded, plan: RepairPlan, checks: seq<FileCheck>, disk: Disk, location: Location)
    requires Repairable(env, index, loader, recorded) && Justified(plan, checks, index.files, loader)
    requires location == Instance ==> forall place :: place in recorded && place.0 == Cache ==> Held(disk, recorded, place)
    ensures forall c :: c in OnlyInto(plan.copies, location) ==> Sourced(env, disk, recorded, c)
  {
    OnlyIntoIsPart(plan.copies, location);
    forall c | c in OnlyInto(plan.copies, location) ensures Sourced(env, disk, recorded, c) {
      CacheCopyIsFromOutside(index.files, loader, c);
      CopyIsSourced(env, index, loader, recorded, c, disk);
    }
  }

  /** Processors are queued by id, so with distinct ids the right one is in the queue. */
  lemma ProcessorIsQueued(files: seq<ManagedFile>, loader: Option<Loader>, plan: RepairPlan, f: ManagedFile, p: LoaderPlans.Processor)
    requires UniqueProcessorIds(loader) && forall q :: q in plan.processors ==> NeedsProcessor(files, loader, q)
    requires RouteOf(f, loader) == ByProcessor(p) && QueuedProcessor(plan, p.id)
    ensures f.path in LoaderPlans.Declared(plan.processors)
  {
    var q :| q in plan.processors && q.id == p.id;
    assert NeedsProcessor(files, loader, q);
    ProcessorIsListed(loader.value.processors, f.path);
    assert q == p;
    var o :| o in p.outputs && o.path == f.path;
  }

  /** Where a cache file that is taken care of becomes right. */
  lemma HandledCacheFile(files: seq<ManagedFile>, loader: Option<Loader>, plan: RepairPlan, f: ManagedFile)
    requires UniqueProcessorIds(loader) && forall q :: q in plan.processors ==> NeedsProcessor(files, loader, q)
    requires f.location == Cache && Handles(plan, f, loader)
    ensures PlaceOf(f) in RequestPlaces(plan.downloads) + LoaderPlaces(plan.entries, plan.processors) + CopyPlaces(OnlyInto(plan.copies, Cache))
  {
    match RouteOf(f, loader) {
      case ByDownload(source) => assert RequestOf(f, source) in plan.downloads;
      case ByOutsideCopy(file) =>
        OnlyIntoIsPart(plan.copies, Cache);
        assert CopyOf(f, Outside(file)) in OnlyInto(plan.copies, Cache);
      case ByProcessor(p) => ProcessorIsQueued(files, loader, plan, f, p);
      case ByEntry(e) => EntryIsQueued(loader, plan, f, e);
    }
  }

  lemma EntryIsQueued(loader: Option<Loader>, plan: RepairPlan, f: ManagedFile, e: LoaderPlans.ArchiveEntry)
    requires RouteOf(f, loader) == ByEntry(e) && QueuedEntry(plan, e.destination)
    ensures f.path in LoaderPlans.Destinations(plan.entries)
  {
    EntryIsListed(loader.value.entries, f.path);
    var q :| q in plan.entries && q.destination == e.destination;
  }

  lemma HandledInstanceFile(loader: Option<Loader>, plan: RepairPlan, f: ManagedFile)
    requires f.location == Instance && Handles(plan, f, loader) && !RouteOf(f, loader).ByRemoval?
    ensures PlaceOf(f) in CopyPlaces(OnlyInto(plan.copies, Instance))
  {
    OnlyIntoIsPart(plan.copies, Instance);
    assert CopyOf(f, Cached(f.repairFrom.value)) in OnlyInto(plan.copies, Instance);
  }

  lemma HandledIsTargeted(env: Environment, index: Index, loader: Option<Loader>, recorded: Recorded, plan: RepairPlan, checks: seq<FileCheck>, f: ManagedFile)
    requires Repairable(env, index, loader, recorded) && Justified(plan, checks, index.files, loader)
    requires f in index.files && Handles(plan, f, loader)
    ensures Targeted(plan, index.archives, PlaceOf(f))
  {
    assert Deliverable(env, index, loader, recorded, f);
    if f.location == Cache {
      HandledCacheFile(index.files, loader, plan, f);
      OnlyIntoIsPart(plan.copies, Cache);
    } else if !RouteOf(f, loader).ByRemoval? {
      HandledInstanceFile(loader, plan, f);
      OnlyIntoIsPart(plan.copies, Instance);
    }
  }

  /** Without shadowing the plan reaches every damaged file. */
  lemma PlanCovers(env: Environment, disk: Disk, index: Index, loader: Option<Loader>, recorded: Recorded, checks: seq<FileCheck>, full: bool)
    requires Repairable(env, index, loader, recorded) && IsVerification(checks, disk, index.files, full)
    requires (full || StampsSound(disk, index.files)) && Unshadowed(disk, index.files, recorded)
    ensures PlanAll(checks, index.files, loader).Success?
    ensures AllTargeted(disk, index, recorded, PlanAll(checks, index.files, loader).value)
  {
    RepairablePlans(env, disk, index, loader, recorded, checks, full);
    PlanIsJustified(checks, index.files, loader);
    var plan := PlanAll(checks, index.files, loader).value;
    forall f | f in index.files && !Held(disk, recorded, PlaceOf(f)) ensures Targeted(plan, index.archives, PlaceOf(f)) {
      var i :| 0 <= i < |index.files| && index.files[i] == f;
      FileIsHandled(disk, index.files, loader, recorded, checks, full, f);
      HandledIsTargeted(env, index, loader, recorded, plan, checks, f);
    }
  }

  lemma LoaderPhase(env: Environment, index: Index, loader: Option<Loader>, recorded: Recorded, plan: RepairPlan, checks: seq<FileCheck>, disk: Disk, now: nat)
    requires Repairable(env, index, loader, recorded) && Justified(plan, checks, index.files, loader)
    requires Unblocked(disk, recorded) && Independent(disk, recorded, plan)
    ensures
      var l := AfterLoader(env, disk, plan, now);
      && l.error.None? && Unblocked(l.disk, recorded)
      && Restores(disk, l.disk, recorded, RequestPlaces(plan.downloads) + LoaderPlaces(plan.entries, plan.processors))
  {
    PlannedDownloadsAreServed(env, index, loader, recorded, plan, checks);
    DownloadsRestore(env, disk, plan.downloads, now, recorded);
    var d := Downloads(env, disk, plan.downloads, now).disk;
    if plan.entries == [] && plan.processors == [] {
      assert LoaderPlans.Destinations(plan.entries) == {} && LoaderPlans.Declared(plan.processors) == {};
      assert LoaderPlaces(plan.entries, plan.processors) == {};
    } else {
      PlannedStepsRebuild(env, index, loader, recorded, plan, checks);
      GoodAfterDownloads(env, disk, plan.downloads, now, recorded);
      LoaderRestores(env, d, plan, now, recorded);
      RestoreTransitively(disk, d, AfterLoader(env, disk, plan, now).disk, recorded,
                          RequestPlaces(plan.downloads), LoaderPlaces(plan.entries, plan.processors));
    }
  }

  ghost predicate AllHeldIn(disk: Disk, recorded: Recorded, location: Location) {
    forall place :: place in recorded && place.0 == location && !InNatives(place) ==> Held(disk, recorded, place)
  }

  lemma CopyPhases(env: Environment, index: Index, loader: Option<Loader>, recorded: Recorded, plan: RepairPlan, checks: seq<FileCheck>, disk: Disk, now: nat)
    requires Repairable(env, index, loader, recorded) && Justified(plan, checks, index.files, loader)
    requires Unblocked(disk, recorded) && Independent(disk, recorded, plan) && AllTargeted(disk, index, recorded, plan)
    ensures
      var c := AfterCopies(env, disk, plan, now);
      && c.error.None? && Unblocked(c.disk, recorded)
      && AllHeldIn(c.disk, recorded, Cache) && AllHeldIn(c.disk, recorded, Instance)
      && Restores(disk, c.disk, recorded, {})
  {
    LoaderPhase(env, index, loader, recorded, plan, checks, disk, now);
    var l := AfterLoader(env, disk, plan, now).disk;
    var first := RequestPlaces(plan.downloads) + LoaderPlaces(plan.entries, plan.processors);
    var intoCache, intoInstance := OnlyInto(plan.copies, Cache), OnlyInto(plan.copies, Instance);
    CopiesAreSourced(env, index, loader, recorded, plan, checks, l, Cache);
    CopiesRestore(env, l, intoCache, now, recorded);
    var m := Copies(env, l, intoCache, now).disk;
    RestoreTransitively(disk, l, m, recorded, first, CopyPlaces(intoCache));
    CacheIsWhole(index, recorded, plan, disk, m);
    CopiesAreSourced(env, index, loader, recorded, plan, checks, m, Instance);
    CopiesRestore(env, m, intoInstance, now, recorded);
    var c := Copies(env, m, intoInstance, now).disk;
    InstanceIsWhole(index, recorded, plan, disk, m, c);
  }

  lemma CacheTarget(plan: RepairPlan, archives: seq<Extraction>, place: Place)
    requires Targeted(plan, archives, place) && place.0 == Cache
    ensures place in RequestPlaces(plan.downloads) + LoaderPlaces(plan.entries, plan.processors) + CopyPlaces(OnlyInto(plan.copies, Cache))
  {
    OnlyIntoIsPart(plan.copies, Cache);
  }

  lemma InstanceTarget(plan: RepairPlan, archives: seq<Extraction>, place: Place)
    requires Targeted(plan, archives, place) && place.0 == Instance && !InNatives(place)
    ensures place in CopyPlaces(OnlyInto(plan.copies, Instance))
  {
    OnlyIntoIsPart(plan.copies, Instance);
  }

  lemma CacheIsWhole(index: Index, recorded: Recorded, plan: RepairPlan, before: Disk, m: Disk)
    requires Records(index.files, recorded) && AllTargeted(before, index, recorded, plan)
    requires Restores(before, m, recorded, RequestPlaces(plan.downloads) + LoaderPlaces(plan.entries, plan.processors) + CopyPlaces(OnlyInto(plan.copies, Cache)))
    ensures AllHeldIn(m, recorded, Cache)
  {
    forall place | place in recorded && place.0 == Cache ensures Held(m, recorded, place) {
      assert Indexed(index.files, place);
      if !Held(before, recorded, place) { CacheTarget(plan, index.archives, place); }
    }
  }

  lemma InstanceIsWhole(index: Index, recorded: Recorded, plan: RepairPlan, before: Disk, m: Disk, c: Disk)
    requires Records(index.files, recorded) && AllTargeted(before, index, recorded, plan)
    requires forall place :: Held(before, recorded, place) ==> Held(m, recorded, place)
    requires AllHeldIn(m, recorded, Cache) && Restores(m, c, recorded, CopyPlaces(OnlyInto(plan.copies, Instance)))
    ensures AllHeldIn(c, recorded, Cache) && AllHeldIn(c, recorded, Instance) && Restores(before, c, recorded, {})
  {
    forall place | place in recorded && place.0 == Instance && !InNatives(place) ensures Held(c, recorded, place) {
      assert Indexed(index.files, place);
      if !Held(before, recorded, place) { InstanceTarget(plan, index.archives, place); }
    }
  }

  // ---- the natives

  lemma {:induction false} ArchivesRead(disk: Disk, archives: seq<Extraction>, recorded: Recorded)
    requires forall a :: a in archives ==> (Cache, a.archive) in recorded && Held(disk, recorded, (Cache, a.archive))
    ensures ReadArchives(disk, archives) == Some(RecordedArchives(archives, recorded))
  {
    if archives != [] {
      assert archives == [archives[0]] + archives[1..] && archives[0] in archives;
      ArchivesRead(disk, archives[1..], recorded);
    }
  }

  lemma NativePlace(place: Place)
    requires InNatives(place)
    ensures place == (Instance, NATIVES + place.1[|NATIVES|..])
  {
    assert place.1 == NATIVES + place.1[|NATIVES|..];
    assert place == (place.0, place.1);
  }

  lemma ExtractionSettles(env: Environment, index: Index, recorded: Recorded, disk: Disk, now: nat)
    requires Records(index.files, recorded) && NativesReproduced(env, index.archives, recorded) && index.archives != []
    requires AllHeldIn(disk, recorded, Cache) && AllHeldIn(disk, recorded, Instance)
    ensures
      var r := Reextract(env, disk, index.archives, now);
      r.error.None? && (forall place :: place in recorded ==> Held(r.disk, recorded, place)) && NoneUnindexed(r.disk, index.files)
  {
    ArchivesRead(disk, index.archives, recorded);
    var tree := env.unpack(RecordedArchives(index.archives, recorded)).value;
    var after := WithNatives(disk, tree, now);
    forall place | place in recorded ensures Held(after, recorded, place) {
      if InNatives(place) {
        var p := place.1[|NATIVES|..];
        NativePlace(place);
      } else {
        assert Held(disk, recorded, place);
      }
    }
    forall place ensures !IsUnindexed(after, index.files, place) {
      if place in after && InNatives(place) {
        var p := place.1[|NATIVES|..];
        NativePlace(place);
        assert p in tree;
        assert Indexed(index.files, place);
      }
    }
  }

  ghost predicate NoneUnindexed(disk: Disk, files: seq<ManagedFile>) {
    forall place :: !IsUnindexed(disk, files, place)
  }

  lemma {:induction false} RemovalsSucceed(disk: Disk, paths: seq<RelativePath>)
    requires forall p :: p in paths ==> !Blocked(disk, (Instance, p))
    ensures Removals(disk, paths).error.None?
    ensures forall p :: p in paths ==> (Instance, p) !in Removals(disk, paths).disk
    decreases |paths|
  {
    if paths != [] {
      var p, rest := paths[0], paths[1..];
      assert paths == [p] + rest && p in paths;
      var next := RemoveManaged(disk, p).disk;
      forall q | q in rest ensures !Blocked(next, (Instance, q)) { assert q in paths; }
      RemovalsSucceed(next, rest);
      RemovalsTouch(next, rest);
    }
  }

  /** Without an extraction only unindexed natives are removed. */
  lemma OnlyUnindexedRemoved(env: Environment, disk: Disk, index: Index, loader: Option<Loader>, recorded: Recorded, plan: RepairPlan, checks: seq<FileCheck>, full: bool)
    requires Repairable(env, index, loader, recorded) && Justified(plan, checks, index.files, loader)
    requires IsVerification(checks, disk, index.files, full) && !Extracts(plan, index.archives)
    requires forall f :: f in index.files ==> VerifyManagedFile(disk, f, full).state != Unexpected
    ensures forall p :: p in plan.removals ==> IsUnindexed(disk, index.files, (Instance, p))
  {
    forall p | p in plan.removals ensures IsUnindexed(disk, index.files, (Instance, p)) {
      assert NeedsRemoval(checks, index.files, loader, p, plan.nativeInvalid);
      forall f | f in index.files ensures !RemovedAt(f, loader, p, plan.nativeInvalid) {
        assert Deliverable(env, index, loader, recorded, f);
      }
      var c :| c in checks && UnexpectedAt(c, p, plan.nativeInvalid);
      assert FromFile(c, disk, index.files, full) || FromUnindexed(c, disk, index.files);
    }
  }

  lemma RemovalSettles(env: Environment, disk: Disk, index: Index, loader: Option<Loader>, recorded: Recorded, plan: RepairPlan, checks: seq<FileCheck>, c: Disk)
    requires Repairable(env, index, loader, recorded) && Justified(plan, checks, index.files, loader)
    requires AllTargeted(disk, index, recorded, plan) && SweepsNatives(disk, index.files, plan) && !Extracts(plan, index.archives)
    requires forall p :: p in plan.removals ==> IsUnindexed(disk, index.files, (Instance, p))
    requires forall place :: place !in recorded ==> SameAt(disk, c, place)
    requires AllHeldIn(c, recorded, Cache) && AllHeldIn(c, recorded, Instance) && Restores(disk, c, recorded, {})
    ensures
      var r := Removals(c, plan.removals);
      r.error.None? && (forall place :: place in recorded ==> Held(r.disk, recorded, place)) && NoneUnindexed(r.disk, index.files)
  {
    forall p | p in plan.removals ensures (Instance, p) !in recorded && !Blocked(c, (Instance, p)) {
      assert IsUnindexed(disk, index.files, (Instance, p));
      UnindexedIsUnrecorded(disk, index.files, recorded, (Instance, p));
      assert SameAt(disk, c, (Instance, p));
    }
    RemovalsSucceed(c, plan.removals);
    RemovalsTouch(c, plan.removals);
    var r := Removals(c, plan.removals).disk;
    forall place | place in recorded ensures Held(r, recorded, place) {
      if InNatives(place) { NativesHeldWithoutExtraction(env, disk, index, loader, recorded, plan, checks, place); }
      assert Held(c, recorded, place);
      assert SameAt(c, r, place);
    }
    forall place ensures !IsUnindexed(r, index.files, place) {
      if IsUnindexed(disk, index.files, place) {
        assert place == (Instance, place.1) && place.1 in plan.removals;
      } else if place in r && place !in recorded {
        assert SameAt(c, r, place) && SameAt(disk, c, place);
      } else if place in recorded {
        assert Indexed(index.files, place);
      }
    }
  }

  lemma UnindexedIsUnrecorded(disk: Disk, files: seq<ManagedFile>, recorded: Recorded, place: Place)
    requires Records(files, recorded) && IsUnindexed(disk, files, place)
    ensures place !in recorded
  {
    forall f | f in files ensures PlaceOf(f) != place { assert f.location == place.0 && f.path == place.1 ==> PlaceOf(f) == place; }
    assert !Indexed(files, place);
  }

  /** The plan itself writes no native. */
  lemma NoNativeIsPlanned(env: Environment, index: Index, loader: Option<Loader>, recorded: Recorded, plan: RepairPlan, checks: seq<FileCheck>, place: Place)
    requires Repairable(env, index, loader, recorded) && Justified(plan, checks, index.files, loader) && place in PlanPlaces(plan)
    ensures !InNatives(place)
  {
    if place in CopyPlaces(plan.copies) {
      var c :| c in plan.copies && c.destination == place;
      assert NeedsCopy(index.files, loader, c);
      var f :| f in index.files && CopiedBy(f, loader, c);
      assert Deliverable(env, index, loader, recorded, f);
    }
  }

  /** When no extraction is planned, no indexed native needed one. */
  lemma NativesHeldWithoutExtraction(env: Environment, disk: Disk, index: Index, loader: Option<Loader>, recorded: Recorded, plan: RepairPlan, checks: seq<FileCheck>, place: Place)
    requires Repairable(env, index, loader, recorded) && Justified(plan, checks, index.files, loader)
    requires AllTargeted(disk, index, recorded, plan) && !Extracts(plan, index.archives)
    requires place in recorded && InNatives(place)
    ensures Held(disk, recorded, place)
  {
    assert Indexed(index.files, place);
    var f :| f in index.files && PlaceOf(f) == place;
    if place in PlanPlaces(plan) { NoNativeIsPlanned(env, index, loader, recorded, plan, checks, place); }
  }

  // ---- the theorem

  lemma LoaderPlacesAreRecorded(env: Environment, index: Index, loader: Option<Loader>, recorded: Recorded, plan: RepairPlan, checks: seq<FileCheck>)
    requires Repairable(env, index, loader, recorded) && Justified(plan, checks, index.files, loader)
    ensures LoaderPlaces(plan.entries, plan.processors) <= recorded.Keys
  {
    forall e | e in plan.entries ensures (Cache, e.destination) in recorded {
      assert NeedsEntry(index.files, loader, e);
      var f :| f in index.files && RouteOf(f, loader) == ByEntry(e);
      assert Deliverable(env, index, loader, recorded, f);
    }
    forall p, o | p in plan.processors && o in p.outputs ensures (Cache, o.path) in recorded {
      assert NeedsProcessor(index.files, loader, p);
      var f :| f in index.files && RouteOf(f, loader) == ByProcessor(p);
      assert Deliverable(env, index, loader, recorded, f);
    }
  }

  lemma CopyPlacesAreRecorded(files: seq<ManagedFile>, loader: Option<Loader>, recorded: Recorded, copies: seq<Copy>)
    requires Records(files, recorded) && forall c :: c in copies ==> NeedsCopy(files, loader, c)
    ensures CopyPlaces(copies) <= recorded.Keys
  {
    forall c | c in copies ensures c.destination in recorded {
      var f :| f in files && CopiedBy(f, loader, c);
      CopiedGoesHome(f, loader, c);
    }
  }

  lemma PlanPlacesAreRecorded(env: Environment, index: Index, loader: Option<Loader>, recorded: Recorded, plan: RepairPlan, checks: seq<FileCheck>)
    requires Repairable(env, index, loader, recorded) && Justified(plan, checks, index.files, loader)
    ensures PlanPlaces(plan) <= recorded.Keys
  {
    PlannedDownloadsAreServed(env, index, loader, recorded, plan, checks);
    assert RequestPlaces(plan.downloads) <= recorded.Keys;
    LoaderPlacesAreRecorded(env, index, loader, recorded, plan, checks);
    CopyPlacesAreRecorded(index.files, loader, recorded, plan.copies);
  }

  lemma PlannedProcessorsAreContained(env: Environment, index: Index, loader: Option<Loader>, plan: RepairPlan, checks: seq<FileCheck>)
    requires Justified(plan, checks, index.files, loader) && (loader.Some? ==> Contained(env.tools, loader.value.processors))
    ensures Contained(env.tools, plan.processors)
  {
    forall p, inputs | p in plan.processors ensures env.tools.run(p.id, inputs).0.Keys <= LoaderPlans.PathsOf(p.outputs) {
      assert NeedsProcessor(index.files, loader, p);
    }
  }

  /** Every indexed file is right and no native is unindexed. */
  ghost predicate Settled(disk: Disk, recorded: Recorded, files: seq<ManagedFile>) {
    (forall place :: place in recorded ==> Held(disk, recorded, place)) && NoneUnindexed(disk, files)
  }

  /** What `CopyPhases` leaves behind. */
  ghost predicate Copied(before: Disk, after: Disk, recorded: Recorded) {
    && AllHeldIn(after, recorded, Cache) && AllHeldIn(after, recorded, Instance)
    && Restores(before, after, recorded, {})
    && forall place :: place !in recorded ==> SameAt(before, after, place)
  }

  lemma RemovalCase(env: Environment, disk: Disk, index: Index, loader: Option<Loader>, recorded: Recorded,
                    plan: RepairPlan, checks: seq<FileCheck>, full: bool, c: Disk)
    requires Repairable(env, index, loader, recorded) && Justified(plan, checks, index.files, loader)
    requires IsVerification(checks, disk, index.files, full) && (full || StampsSound(disk, index.files))
    requires AllTargeted(disk, index, recorded, plan) && SweepsNatives(disk, index.files, plan) && !Extracts(plan, index.archives) && Copied(disk, c, recorded)
    ensures Removals(c, plan.removals).error.None? && Settled(Removals(c, plan.removals).disk, recorded, index.files)
  {
    OnlyUnindexedRemoved(env, disk, index, loader, recorded, plan, checks, full);
    RemovalSettles(env, disk, index, loader, recorded, plan, checks, c);
  }

  lemma CopiesSettle(env: Environment, disk: Disk, index: Index, loader: Option<Loader>, recorded: Recorded,
                     plan: RepairPlan, checks: seq<FileCheck>, now: nat)
    requires Repairable(env, index, loader, recorded) && Justified(plan, checks, index.files, loader)
    requires loader.Some? ==> Contained(env.tools, loader.value.processors)
    requires Unblocked(disk, recorded) && Independent(disk, recorded, plan) && AllTargeted(disk, index, recorded, plan)
    ensures AfterCopies(env, disk, plan, now).error.None? && Copied(disk, AfterCopies(env, disk, plan, now).disk, recorded)
  {
    CopyPhases(env, index, loader, recorded, plan, checks, disk, now);
    PlannedProcessorsAreContained(env, index, loader, plan, checks);
    PhasesTouch(env, disk, plan, now);
    PlanPlacesAreRecorded(env, index, loader, recorded, plan, checks);
  }

  /** Executing the plan makes every indexed file right and leaves no unindexed native. */
  lemma ExecutionSettles(env: Environment, disk: Disk, index: Index, loader: Option<Loader>, recorded: Recorded,
                         plan: RepairPlan, checks: seq<FileCheck>, full: bool, now: nat)
    requires Repairable(env, index, loader, recorded) && Justified(plan, checks, index.files, loader)
    requires loader.Some? ==> Contained(env.tools, loader.value.processors)
    requires IsVerification(checks, disk, index.files, full) && (full || StampsSound(disk, index.files))
    requires Unblocked(disk, recorded) && Independent(disk, recorded, plan)
    requires AllTargeted(disk, index, recorded, plan) && SweepsNatives(disk, index.files, plan)
    ensures
      var r := Execute(env, disk, plan, index.archives, now);
      r.error.None? && Settled(r.disk, recorded, index.files)
  {
    CopiesSettle(env, disk, index, loader, recorded, plan, checks, now);
    var c := AfterCopies(env, disk, plan, now).disk;
    if Extracts(plan, index.archives) {
      ExtractionSettles(env, index, recorded, c, now);
    } else {
      RemovalCase(env, disk, index, loader, recorded, plan, checks, full, c);
    }
  }

  lemma SettledSucceeds(env: Environment, disk: Disk, index: Index, recorded: Recorded, plan: RepairPlan, now: nat)
    requires Records(index.files, recorded)
    requires
      var r := Execute(env, disk, plan, index.archives, now);
      r.error.None? && Settled(r.disk, recorded, index.files)
    ensures Succeeds(env, disk, plan, index, now)
  {
    var after := Execute(env, disk, plan, index.archives, now).disk;
    forall f | f in index.files ensures VerifyManagedFile(after, f, true).state == Valid {
      ValidMeansHeld(after, index.files, f, true, recorded);
    }
  }

  /** What the theorems below share: a repair planned from a full verification, or from a quick one over sound stamps. */
  ghost predicate Planned(env: Environment, disk: Disk, index: Index, loader: Option<Loader>, recorded: Recorded,
                          checks: seq<FileCheck>, full: bool, plan: RepairPlan)
  {
    && Repairable(env, index, loader, recorded) && Unblocked(disk, recorded)
    && (loader.Some? ==> Contained(env.tools, loader.value.processors))
    && IsVerification(checks, disk, index.files, full) && (full || StampsSound(disk, index.files))
    && PlanAll(checks, index.files, loader) == Success(plan)
  }

  /** With well-fed steps, a plan that reaches every damaged file succeeds. */
  lemma TargetedRepairSucceeds(env: Environment, disk: Disk, index: Index, loader: Option<Loader>, recorded: Recorded,
                               checks: seq<FileCheck>, full: bool, plan: RepairPlan, now: nat)
    requires Planned(env, disk, index, loader, recorded, checks, full, plan)
    requires AllTargeted(disk, index, recorded, plan) && Independent(disk, recorded, plan)
    ensures Succeeds(env, disk, plan, index, now) && Settled(Execute(env, disk, plan, index.archives, now).disk, recorded, index.files)
  {
    PlanSweepsNatives(env, disk, index, loader, recorded, checks, full);
    PlanIsJustified(checks, index.files, loader);
    ExecutionSettles(env, disk, index, loader, recorded, plan, checks, full, now);
    SettledSucceeds(env, disk, index, recorded, plan, now);
  }

  /** A damaged file the plan does not reach is still damaged afterwards. */
  lemma UntargetedStaysDamaged(env: Environment, disk: Disk, index: Index, recorded: Recorded, plan: RepairPlan, f: ManagedFile, now: nat)
    requires Contained(env.tools, plan.processors) && Records(index.files, recorded)
    requires f in index.files && !Held(disk, recorded, PlaceOf(f)) && !Targeted(plan, index.archives, PlaceOf(f))
    ensures !Succeeds(env, disk, plan, index, now)
  {
    var place, after := PlaceOf(f), Execute(env, disk, plan, index.archives, now).disk;
    var c := AfterCopies(env, disk, plan, now).disk;
    PhasesTouch(env, disk, plan, now);
    assert SameAt(disk, c, place);
    RemovalsTouch(c, plan.removals);
    assert place in after ==> SameAt(disk, after, place);
    ValidMeansHeld(after, index.files, f, true, recorded);
  }

  /** With well-fed steps, a repair succeeds exactly when its plan reaches every damaged file. */
  lemma RepairSucceedsIffTargeted(env: Environment, disk: Disk, index: Index, loader: Option<Loader>, recorded: Recorded,
                                  checks: seq<FileCheck>, full: bool, plan: RepairPlan, now: nat)
    requires Planned(env, disk, index, loader, recorded, checks, full, plan) && Independent(disk, recorded, plan)
    ensures Succeeds(env, disk, plan, index, now) <==> AllTargeted(disk, index, recorded, plan)
  {
    PlanIsJustified(checks, index.files, loader);
    PlannedProcessorsAreContained(env, index, loader, plan, checks);
    if AllTargeted(disk, index, recorded, plan) {
      TargetedRepairSucceeds(env, disk, index, loader, recorded, checks, full, plan, now);
    } else {
      var f :| f in index.files && !Held(disk, recorded, PlaceOf(f)) && !Targeted(plan, index.archives, PlaceOf(f));
      UntargetedStaysDamaged(env, disk, index, recorded, plan, f, now);
    }
  }

  /** The queued steps accept nothing but what was recorded. */
  ghost predicate Fragile(env: Environment, recorded: Recorded, plan: RepairPlan) {
    FragileEntries(env.tools, recorded, plan.entries) && FragileProcessors(env.tools, recorded, plan.processors)
  }

  lemma UnfedRepairFails(env: Environment, disk: Disk, index: Index, loader: Option<Loader>, recorded: Recorded,
                         checks: seq<FileCheck>, full: bool, plan: RepairPlan, now: nat)
    requires Planned(env, disk, index, loader, recorded, checks, full, plan)
    requires Fragile(env, recorded, plan) && !Independent(disk, recorded, plan)
    ensures AfterLoader(env, disk, plan, now).error.Some?
  {
    PlanIsJustified(checks, index.files, loader);
    PlannedDownloadsAreServed(env, index, loader, recorded, plan, checks);
    DownloadsRestore(env, disk, plan.downloads, now, recorded);
    PlannedStepsRebuild(env, index, loader, recorded, plan, checks);
    GoodAfterDownloads(env, disk, plan.downloads, now, recorded);
    UnfedLoaderFails(env, Downloads(env, disk, plan.downloads, now).disk, plan, now, recorded);
  }

  /**
   * For loader steps that fail on anything but the recorded inputs, a repair succeeds exactly when its plan
   * reaches every damaged file and every queued step finds its inputs right when its turn comes.
   */
  lemma RepairSucceedsIff(env: Environment, disk: Disk, index: Index, loader: Option<Loader>, recorded: Recorded,
                          checks: seq<FileCheck>, full: bool, plan: RepairPlan, now: nat)
    requires Planned(env, disk, index, loader, recorded, checks, full, plan) && Fragile(env, recorded, plan)
    ensures Succeeds(env, disk, plan, index, now) <==> AllTargeted(disk, index, recorded, plan) && Independent(disk, recorded, plan)
  {
    if Independent(disk, recorded, plan) {
      RepairSucceedsIffTargeted(env, disk, index, loader, recorded, checks, full, plan, now);
    } else {
      UnfedRepairFails(env, disk, index, loader, recorded, checks, full, plan, now);
    }
  }

  /**
   * Repair converges: whatever is damaged, as long as no damaged file is shadowed, one repair planned with its
   * checks in any order succeeds, makes every indexed file valid with its recorded content, and changes
   * nothing the plan does not name.
   */
  lemma RepairConverges(env: Environment, disk: Disk, index: Index, loader: Option<Loader>, recorded: Recorded,
                        checks: seq<FileCheck>, full: bool, plan: RepairPlan, now: nat)
    requires Planned(env, disk, index, loader, recorded, checks, full, plan)
    requires Unshadowed(disk, index.files, recorded) && Independent(disk, recorded, plan)
    ensures
      var after := Execute(env, disk, plan, index.archives, now).disk;
      && Succeeds(env, disk, plan, index, now)
      && (forall f :: f in index.files ==> Held(after, recorded, PlaceOf(f)))
      && (forall place :: !Touched(plan, index.archives, place) ==> SameAt(disk, after, place))
  {
    PlanCovers(env, disk, index, loader, recorded, checks, full);
    TargetedRepairSucceeds(env, disk, index, loader, recorded, checks, full, plan, now);
    PlanIsJustified(checks, index.files, loader);
    PlannedProcessorsAreContained(env, index, loader, plan, checks);
    forall place | !Touched(plan, index.archives, place) ensures SameAt(disk, Execute(env, disk, plan, index.archives, now).disk, place) {
      RepairIsFramed(env, disk, plan, index.archives, now, place);
    }
  }

  // ---- shared keys

  /** Every file that a lookup can lead to is a cache file with a source. */
  ghost predicate AllDownloaded(files: seq<ManagedFile>) {
    forall f :: f in files && Found(files, f) ==> f.location == Cache && f.source.Some?
  }

  lemma HeadIsMember<T>(xs: seq<T>)
    ensures xs != [] ==> xs[0] in xs
  {
  }

  lemma OnlyDownloadsArePlanned(files: seq<ManagedFile>, checks: seq<FileCheck>, plan: RepairPlan)
    requires AllDownloaded(files) && Justified(plan, checks, files, None)
    ensures plan.copies == [] && plan.entries == [] && plan.processors == []
    ensures PlanPlaces(plan) == RequestPlaces(plan.downloads)
  {
    assert forall f :: f in files && Found(files, f) ==> RouteOf(f, None).ByDownload?;
    assert forall c :: !NeedsCopy(files, None, c);
    HeadIsMember(plan.copies);
    HeadIsMember(plan.entries);
    HeadIsMember(plan.processors);
    assert LoaderPlans.Destinations(plan.entries) == {} && LoaderPlans.Declared(plan.processors) == {};
  }

  /** Only files that their own key finds are downloaded. */
  lemma RequestedIsFound(files: seq<ManagedFile>, checks: seq<FileCheck>, plan: RepairPlan, f: ManagedFile)
    requires AllDownloaded(files) && UniquePlaces(files) && Justified(plan, checks, files, None)
    requires f in files && PlaceOf(f) in RequestPlaces(plan.downloads)
    ensures Found(files, f)
  {
    var q :| q in plan.downloads && (Cache, q.path) == PlaceOf(f);
    assert NeedsDownload(files, None, q);
    var g :| g in files && Found(files, g) && RouteOf(g, None).ByDownload? && q == RequestOf(g, RouteOf(g, None).source);
    var i, j :| 0 <= i < |files| && 0 <= j < |files| && files[i] == f && files[j] == g;
    assert PlaceOf(g) == PlaceOf(f);
    assert i == j;
  }

  /** So a shadowed file that is damaged defeats the repair, whatever the sources serve. */
  lemma ShadowedStaysDamaged(env: Environment, disk: Disk, files: seq<ManagedFile>, checks: seq<FileCheck>, plan: RepairPlan, f: ManagedFile, now: nat)
    requires AllDownloaded(files) && UniquePlaces(files) && PlanAll(checks, files, None) == Success(plan)
    requires f in files && f.location == Cache && !Found(files, f) && VerifyManagedFile(disk, f, true).state != Valid
    ensures !Succeeds(env, disk, plan, Index(files, []), now)
  {
    PlanIsJustified(checks, files, None);
    OnlyDownloadsArePlanned(files, checks, plan);
    var place := PlaceOf(f);
    if place in RequestPlaces(plan.downloads) { RequestedIsFound(files, checks, plan, f); }
    assert !Touched(plan, [], place);
    RepairIsFramed(env, disk, plan, [], now, place);
    assert SameAt(disk, Execute(env, disk, plan, [], now).disk, place);
  }

  lemma DownloadsAreRepairable(env: Environment, files: seq<ManagedFile>, recorded: Recorded)
    requires Records(files, recorded)
    requires forall f :: f in files ==> f.location == Cache && f.source.Some? && env.fetch(f.source.value) == Some(recorded[PlaceOf(f)])
    ensures Repairable(env, Index(files, []), None, recorded)
  {
    forall place | place in recorded ensures !InNatives(place) {
      assert Indexed(files, place);
      var f :| f in files && PlaceOf(f) == place;
    }
  }

  /**
   * When every file has a source that serves it, a repair succeeds exactly when no damaged file is shadowed
   * by an earlier one with its id and location.
   */
  lemma DownloadsRepairIffUnshadowed(env: Environment, disk: Disk, files: seq<ManagedFile>, recorded: Recorded,
                                     checks: seq<FileCheck>, full: bool, plan: RepairPlan, now: nat)
    requires UniquePlaces(files) && Records(files, recorded) && Unblocked(disk, recorded)
    requires forall f :: f in files ==> f.location == Cache && f.source.Some? && env.fetch(f.source.value) == Some(recorded[PlaceOf(f)])
    requires IsVerification(checks, disk, files, full) && (full || StampsSound(disk, files))
    requires PlanAll(checks, files, None) == Success(plan)
    ensures Succeeds(env, disk, plan, Index(files, []), now) <==> Unshadowed(disk, files, recorded)
  {
    var index := Index(files, []);
    DownloadsAreRepairable(env, files, recorded);
    PlanIsJustified(checks, files, None);
    OnlyDownloadsArePlanned(files, checks, plan);
    if Unshadowed(disk, files, recorded) {
      RepairConverges(env, disk, index, None, recorded, checks, full, plan, now);
    } else {
      var f :| f in files && !Held(disk, recorded, PlaceOf(f)) && !Found(files, f);
      ValidMeansHeld(disk, files, f, true, recorded);
      ShadowedStaysDamaged(env, disk, files, checks, plan, f, now);
    }
  }

  /**
   * A library and its native archive carry the same id. When the second of the two is damaged, its check
   * leads to the first: that one is asked for again, the damaged one never, and the repair fails.
   */
  lemma SharedKeyDefeatsRepair(env: Environment, disk: Disk, a: ManagedFile, b: ManagedFile, full: bool, now: nat)
    requires SameKey(a, b) && a.location == Cache && a.path != b.path && a.source.Some?
    requires IsFile(disk, PlaceOf(a)) && Matches(disk[PlaceOf(a)].bytes, a.size, a.hash)
    requires VerifyManagedFile(disk, b, full).state != Valid
    ensures
      var plan := PlanAll(ChecksOf(disk, [a, b], full), [a, b], None);
      && plan == Success(NOTHING.(downloads := [RequestOf(a, a.source.value)], nativeInvalid := a.kind == NativeArchive))
      && !Succeeds(env, disk, plan.value, Index([a, b], []), now)
  {
    var files, checks := [a, b], ChecksOf(disk, [a, b], full);
    var plan := NOTHING.(downloads := [RequestOf(a, a.source.value)], nativeInvalid := a.kind == NativeArchive);
    assert checks[..1][..0] == [] && checks[..1][0].state == Valid;
    assert PlanAll(checks[..1], files, None) == Success(NOTHING);
    assert FindFile(files, b.id, b.location) == Some(a);
    assert NOTHING.downloads + plan.downloads == plan.downloads;
    assert PlanAll(checks, files, None) == Success(plan);
    QuickAgreesIffStampSound(disk, b);
    ShadowedStaysDamaged(env, disk, files, checks, plan, b, now);
  }

  /** The simplest instance: a single missing cache file whose source serves its content comes back. */
  lemma OneMissingFileComesBack(env: Environment, f: ManagedFile, content: Bytes, now: nat)
    requires f.location == Cache && f.source.Some? && env.fetch(f.source.value) == Some(content)
    requires Exactly(content, f.size, f.hash)
    ensures
      var plan := PlanAll(ChecksOf(map[], [f], true), [f], None);
      && plan == Success(NOTHING.(downloads := [RequestOf(f, f.source.value)], nativeInvalid := f.kind == NativeArchive))
      && Succeeds(env, map[], plan.value, Index([f], []), now)
  {
    var disk: Disk := map[];
    var recorded, checks := map[PlaceOf(f) := content], ChecksOf(disk, [f], true);
    var plan := NOTHING.(downloads := [RequestOf(f, f.source.value)], nativeInvalid := f.kind == NativeArchive);
    assert checks[..0] == [] && checks[0].state == Missing;
    assert NOTHING.downloads + plan.downloads == plan.downloads;
    assert PlanAll(checks, [f], None) == Success(plan);
    assert f in [f] && Indexed([f], PlaceOf(f));
    assert checks[0] in checks;
    forall c | c in checks ensures FromFile(c, disk, [f], true) { assert c == VerifyManagedFile(disk, f, true); }
    DownloadsRepairIffUnshadowed(env, disk, [f], recorded, checks, true, plan, now);
  }

  // ---- the order of the queue

  const CHAIN_FIRST := LoaderPlans.Processor("first", {}, [LoaderPlans.Output("x", None, None)])
  const CHAIN_SECOND := LoaderPlans.Processor("second", {"x"}, [LoaderPlans.Output("y", None, None)])
  const CHAIN: Option<Loader> := Some(Loader.Loader([CHAIN_FIRST, CHAIN_SECOND], []))

  /** Two programs, the second of which needs the output of the first. */
  const CHAINED := LoaderPlans.Tools(
    (id: string, inputs: LoaderPlans.Cache) =>
      if id == "first" && inputs == map[] then (map["x" := []], true)
      else if id == "second" && inputs == map["x" := []] then (map["y" := []], true)
      else (map[], false),
    (archive: Bytes, entry: string) => None)

  function ChainFile(path: RelativePath): ManagedFile {
    ManagedFile(path, Cache, path, Other, Origin.Loader, Some(0), Some(Digest(Sha256, [])), None, None, None, 0, None)
  }

  const CHAIN_FILES := [ChainFile("x"), ChainFile("y")]
  const CHAIN_RECORDED: Recorded := map[(Cache, "x") := [], (Cache, "y") := []]

  lemma ChainPaths()
    ensures LoaderPlans.PathsOf(CHAIN_FIRST.outputs) == {"x"} && LoaderPlans.PathsOf(CHAIN_SECOND.outputs) == {"y"}
    ensures RecordedInputs(CHAIN_RECORDED, CHAIN_FIRST) == map[] && RecordedInputs(CHAIN_RECORDED, CHAIN_SECOND) == map["x" := []]
  {
    assert CHAIN_FIRST.outputs[0] in CHAIN_FIRST.outputs && CHAIN_SECOND.outputs[0] in CHAIN_SECOND.outputs;
  }

  lemma ChainPrograms()
    ensures Rebuilds(CHAINED, CHAIN_RECORDED, CHAIN_FIRST) && Rebuilds(CHAINED, CHAIN_RECORDED, CHAIN_SECOND)
  {
    ChainPaths();
    assert RecordedOutputs(CHAIN_RECORDED, CHAIN_FIRST) == map["x" := []] && RecordedOutputs(CHAIN_RECORDED, CHAIN_SECOND) == map["y" := []];
  }

  lemma ChainRoutes()
    ensures RouteOf(ChainFile("x"), CHAIN) == ByProcessor(CHAIN_FIRST) && RouteOf(ChainFile("y"), CHAIN) == ByProcessor(CHAIN_SECOND)
  {
    var processors := CHAIN.value.processors;
    assert processors[1..][0] == CHAIN_SECOND;
    assert CHAIN_FIRST.outputs[0] in CHAIN_FIRST.outputs && CHAIN_SECOND.outputs[0] in CHAIN_SECOND.outputs;
    assert Declares(CHAIN_FIRST, "x") && !Declares(CHAIN_FIRST, "y") && Declares(CHAIN_SECOND, "y");
    assert FindProcessor(processors[1..], "y") == Some(CHAIN_SECOND);
    assert FindProcessor(processors, "y") == Some(CHAIN_SECOND);
  }

  lemma ChainIsContained()
    ensures Contained(CHAINED, CHAIN.value.processors)
  {
    ChainPaths();
    forall p, inputs | p in CHAIN.value.processors ensures CHAINED.run(p.id, inputs).0.Keys <= LoaderPlans.PathsOf(p.outputs) {
      assert p == CHAIN_FIRST || p == CHAIN_SECOND;
      if p == CHAIN_FIRST {
        assert CHAINED.run("first", inputs).0.Keys <= {"x"};
      } else {
        assert CHAINED.run("second", inputs).0.Keys <= {"y"};
      }
    }
  }

  lemma ChainIsRepairable(env: Environment)
    requires env.tools == CHAINED
    ensures Repairable(env, Index(CHAIN_FILES, []), CHAIN, CHAIN_RECORDED) && Contained(env.tools, CHAIN.value.processors)
  {
    ChainPrograms();
    ChainRoutes();
    assert CHAIN_FILES[0] in CHAIN_FILES && CHAIN_FILES[1] in CHAIN_FILES;
    forall place | place in CHAIN_RECORDED ensures Indexed(CHAIN_FILES, place) && !InNatives(place) {
      assert place == PlaceOf(CHAIN_FILES[0]) || place == PlaceOf(CHAIN_FILES[1]);
    }
    assert Records(CHAIN_FILES, CHAIN_RECORDED);
    ChainIsContained();
  }

  /** The two checks of an empty disk, in one order or the other. */
  function ChainChecks(inOrder: bool): seq<FileCheck> {
    var x, y := VerifyManagedFile(map[], ChainFile("x"), true), VerifyManagedFile(map[], ChainFile("y"), true);
    if inOrder then [x, y] else [y, x]
  }

  function ChainQueue(inOrder: bool): seq<LoaderPlans.Processor> {
    if inOrder then [CHAIN_FIRST, CHAIN_SECOND] else [CHAIN_SECOND, CHAIN_FIRST]
  }

  lemma TwoChecksPlanned(first: FileCheck, second: FileCheck, files: seq<ManagedFile>, loader: Option<Loader>, one: RepairPlan, two: RepairPlan)
    requires AddCheck(NOTHING, first, files, loader) == Success(one) && AddCheck(one, second, files, loader) == Success(two)
    ensures PlanAll([first, second], files, loader) == Success(two)
  {
    var checks := [first, second];
    assert checks[..1] == [first] && [first][..0] == [];
    assert PlanAll([first], files, loader) == Success(one);
  }

  /** A missing file of the chain queues its processor, unless that is queued already. */
  lemma ChainCheckQueues(plan: RepairPlan, second: bool)
    requires !QueuedProcessor(plan, if second then "second" else "first")
    ensures
      var f := if second then ChainFile("y") else ChainFile("x");
      var p := if second then CHAIN_SECOND else CHAIN_FIRST;
      AddCheck(plan, VerifyManagedFile(map[], f, true), CHAIN_FILES, CHAIN) == Success(plan.(processors := plan.processors + [p]))
  {
    ChainRoutes();
    assert CHAIN_FILES[1..][0] == ChainFile("y");
    assert FindFile(CHAIN_FILES, "x", Cache) == Some(ChainFile("x"));
    assert FindFile(CHAIN_FILES[1..], "y", Cache) == Some(ChainFile("y"));
    assert FindFile(CHAIN_FILES, "y", Cache) == Some(ChainFile("y"));
  }

  lemma ChainIsPlanned(inOrder: bool)
    ensures PlanAll(ChainChecks(inOrder), CHAIN_FILES, CHAIN) == Success(NOTHING.(processors := ChainQueue(inOrder)))
  {
    var checks, queue := ChainChecks(inOrder), ChainQueue(inOrder);
    var one := NOTHING.(processors := [] + [queue[0]]);
    ChainCheckQueues(NOTHING, !inOrder);
    ChainCheckQueues(one, inOrder);
    assert one.processors + [queue[1]] == queue;
    TwoChecksPlanned(checks[0], checks[1], CHAIN_FILES, CHAIN, one, NOTHING.(processors := queue));
  }

  lemma ChainFed()
    ensures ProcessorsFed({}, [CHAIN_FIRST, CHAIN_SECOND]) && !ProcessorsFed({}, [CHAIN_SECOND, CHAIN_FIRST])
  {
    ChainPaths();
    var queue := [CHAIN_FIRST, CHAIN_SECOND];
    assert CanRun({}, CHAIN_FIRST) && CanRun({} + {"x"}, CHAIN_SECOND);
    assert queue[1..] == [CHAIN_SECOND] && [CHAIN_SECOND][1..] == [];
    assert ProcessorsFed({} + {"x"}, queue[1..]);
    assert "x" in CHAIN_SECOND.inputs && CHAIN_SECOND.outputs[0] in CHAIN_SECOND.outputs;
    assert !CanRun({}, CHAIN_SECOND);
  }

  lemma ChainIsFedInOrder(inOrder: bool)
    ensures Independent(map[], CHAIN_RECORDED, NOTHING.(processors := ChainQueue(inOrder))) <==> inOrder
  {
    var disk: Disk, plan := map[], NOTHING.(processors := ChainQueue(inOrder));
    assert Good(CacheOf(disk), CHAIN_RECORDED) + RequestPaths(plan.downloads) == {};
    assert {} + LoaderPlans.Destinations(plan.entries) == {};
    ChainFed();
  }

  lemma ChainVerified(inOrder: bool)
    ensures IsVerification(ChainChecks(inOrder), map[], CHAIN_FILES, true)
  {
    var disk: Disk, checks := map[], ChainChecks(inOrder);
    assert CHAIN_FILES[0] in CHAIN_FILES && CHAIN_FILES[1] in CHAIN_FILES;
    assert checks[0] in checks && checks[1] in checks;
    forall c | c in checks ensures FromFile(c, disk, CHAIN_FILES, true) {
      assert c == VerifyManagedFile(disk, CHAIN_FILES[0], true) || c == VerifyManagedFile(disk, CHAIN_FILES[1], true);
    }
  }

  /** Damaged processors are queued in the order of their checks: the same damage is repaired in one order and not in the other. */
  lemma QueueOrderMatters(env: Environment, inOrder: bool, now: nat)
    requires env.tools == CHAINED
    ensures
      var plan := PlanAll(ChainChecks(inOrder), CHAIN_FILES, CHAIN);
      && plan == Success(NOTHING.(processors := ChainQueue(inOrder)))
      && (Succeeds(env, map[], plan.value, Index(CHAIN_FILES, []), now) <==> inOrder)
  {
    var disk: Disk, plan := map[], NOTHING.(processors := ChainQueue(inOrder));
    ChainIsRepairable(env);
    ChainIsPlanned(inOrder);
    ChainVerified(inOrder);
    ChainIsFedInOrder(inOrder);
    ChainIsFragile(env, inOrder);
    ChainIsTargeted(inOrder);
    RepairSucceedsIff(env, disk, Index(CHAIN_FILES, []), CHAIN, CHAIN_RECORDED, ChainChecks(inOrder), true, plan, now);
  }

  lemma ChainIsFragile(env: Environment, inOrder: bool)
    requires env.tools == CHAINED
    ensures Fragile(env, CHAIN_RECORDED, NOTHING.(processors := ChainQueue(inOrder)))
  {
    ChainPaths();
  }

  lemma ChainIsTargeted(inOrder: bool)
    ensures AllTargeted(map[], Index(CHAIN_FILES, []), CHAIN_RECORDED, NOTHING.(processors := ChainQueue(inOrder)))
  {
    var plan := NOTHING.(processors := ChainQueue(inOrder));
    assert CHAIN_FIRST in plan.processors && CHAIN_SECOND in plan.processors;
    assert CHAIN_FIRST.outputs[0] in CHAIN_FIRST.outputs && CHAIN_SECOND.outputs[0] in CHAIN_SECOND.outputs;
    assert "x" in LoaderPlans.Declared(plan.processors) && "y" in LoaderPlans.Declared(plan.processors);
    assert (Cache, "x") in PlanPlaces(plan) && (Cache, "y") in PlanPlaces(plan);
  }

  // ---- a refused repair and its stamps

  /**
   * A repair that its final verification refuses has stamped the index already. The second of two files with one
   * key is corrupted at its right size, which even quick verification notices by its old stamp; the repair
   * executes without error and is refused; from then on quick verification calls the corrupted file valid.
   */
  lemma RefusedRepairFoolsQuickVerification(env: Environment, disk: Disk, a: ManagedFile, b: ManagedFile, now: nat)
    returns (refreshed: seq<ManagedFile>)
    requires SameKey(a, b) && a.location == Cache && a.path != b.path && a.source.Some?
    requires IsFile(disk, PlaceOf(a)) && Matches(disk[PlaceOf(a)].bytes, a.size, a.hash)
    requires IsFile(disk, PlaceOf(b)) && SizeFits(disk, b) && !Accepted(disk[PlaceOf(b)], b) && !MetadataUnchanged(disk[PlaceOf(b)], b)
    ensures VerifyManagedFile(disk, b, false).state == Corrupted
    ensures
      var plan := PlanAll(ChecksOf(disk, [a, b], false), [a, b], None);
      && plan.Success?
      && var run := Execute(env, disk, plan.value, [], now);
      && run.error.None? && !Succeeds(env, disk, plan.value, Index([a, b], []), now)
      && Refreshed(run.disk, [a, b], refreshed)
      && VerifyManagedFile(run.disk, refreshed[1], false).state == Valid
      && VerifyManagedFile(run.disk, refreshed[1], true).state == Corrupted
  {
    SharedKeyDefeatsRepair(env, disk, a, b, false, now);
    var plan := PlanAll(ChecksOf(disk, [a, b], false), [a, b], None).value;
    assert plan.downloads[1..] == [];
    assert Downloads(env, disk, plan.downloads, now) == Ran(disk, None);
    assert Execute(env, disk, plan, [], now) == Ran(disk, None);
    refreshed := [Snapshot(disk, a).value, Snapshot(disk, b).value];
    RefreshedQuickSeesOnlySizes(disk, [a, b], refreshed, 1);
  }
}
