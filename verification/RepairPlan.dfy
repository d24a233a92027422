/** Deciding what a repair has to do about each invalid file. */
module RepairPlanning {
  import opened Wrappers
  import opened Contents
  import opened ManagedFiles
  import opened Verification
  import LoaderPlans

  datatype Extraction = Extraction(archive: RelativePath, exclusions: seq<string>)

  datatype Index = Index(files: seq<ManagedFile>, archives: seq<Extraction>)

  datatype Loader = Loader(processors: seq<LoaderPlans.Processor>, entries: seq<LoaderPlans.ArchiveEntry>)

  datatype Request = Request(source: string, path: RelativePath, size: Option<nat>, hash: Option<FileHash>)

  /** A file outside the managed roots, or one in the cache. */
  datatype CopySource = Outside(file: string) | Cached(path: RelativePath)

  datatype Copy = Copy(source: CopySource, destination: Place, size: Option<nat>, hash: Option<FileHash>)

  datatype RepairPlan = RepairPlan(
    downloads: seq<Request>, copies: seq<Copy>, removals: seq<RelativePath>,
    entries: seq<LoaderPlans.ArchiveEntry>, processors: seq<LoaderPlans.Processor>, nativeInvalid: bool)

  const NOTHING := RepairPlan([], [], [], [], [], false)

  datatype RepairError =
    | MissingSource(path: RelativePath)
    | OfflinePlanUnavailable
    | DownloadFailed(path: RelativePath)
    | LoaderFailed(error: LoaderPlans.LoaderError)
    | CopyFailed(destination: Place)
    | RemovalFailed(path: RelativePath)
    | ExtractionFailed
    | UnsafeEntry
    | FinalVerification(missing: nat, corrupted: nat)

  /** The first file with the id and location of a check. */
  function FindFile(files: seq<ManagedFile>, id: string, location: Location): Option<ManagedFile> {
    if files == [] then None
    else if files[0].id == id && files[0].location == location then Some(files[0])
    else FindFile(files[1..], id, location)
  }

  predicate Declares(p: LoaderPlans.Processor, path: RelativePath) {
    exists o :: o in p.outputs && o.path == path
  }

  function FindProcessor(processors: seq<LoaderPlans.Processor>, path: RelativePath): Option<LoaderPlans.Processor> {
    if processors == [] then None
    else if Declares(processors[0], path) then Some(processors[0])
    else FindProcessor(processors[1..], path)
  }

  function FindEntry(entries: seq<LoaderPlans.ArchiveEntry>, path: RelativePath): Option<LoaderPlans.ArchiveEntry> {
    if entries == [] then None
    else if entries[0].destination == path then Some(entries[0])
    else FindEntry(entries[1..], path)
  }

  /** Where the content of a managed file can come from again. */
  datatype Route =
    | ByDownload(source: string)
    | ByOutsideCopy(file: string)
    | ByProcessor(processor: LoaderPlans.Processor)
    | ByEntry(entry: LoaderPlans.ArchiveEntry)
    | ByCacheCopy(from: RelativePath)
    | ByRemoval
    | Nowhere(error: RepairError)

  function RouteOf(file: ManagedFile, loader: Option<Loader>): Route {
    if file.location == Instance then
      if file.repairFrom.Some? then ByCacheCopy(file.repairFrom.value) else ByRemoval
    else if file.source.Some? then ByDownload(file.source.value)
    else if file.sourcePath.Some? then ByOutsideCopy(file.sourcePath.value)
    else if file.origin != Origin.Loader then Nowhere(MissingSource(file.path))
    else if loader.None? then Nowhere(OfflinePlanUnavailable)
    else
      match FindProcessor(loader.value.processors, file.path)
      case Some(p) => ByProcessor(p)
      case None =>
        match FindEntry(loader.value.entries, file.path)
        case Some(e) => ByEntry(e)
        case None => Nowhere(MissingSource(file.path))
  }

  function RequestOf(file: ManagedFile, source: string): Request {
    Request(source, file.path, file.size, file.hash)
  }

  function CopyOf(file: ManagedFile, source: CopySource): Copy {
    Copy(source, PlaceOf(file), file.size, file.hash)
  }

  predicate QueuedProcessor(plan: RepairPlan, id: string) {
    exists p :: p in plan.processors && p.id == id
  }

  predicate QueuedEntry(plan: RepairPlan, destination: RelativePath) {
    exists e :: e in plan.entries && e.destination == destination
  }

  /** What one invalid indexed file adds to the plan. */
  function AddFile(plan: RepairPlan, file: ManagedFile, loader: Option<Loader>): Result<RepairPlan, RepairError> {
    var marked := plan.(nativeInvalid := plan.nativeInvalid || (file.location == Cache && file.kind == NativeArchive));
    match RouteOf(file, loader)
    case ByDownload(source) => Success(marked.(downloads := plan.downloads + [RequestOf(file, source)]))
    case ByOutsideCopy(outside) => Success(marked.(copies := plan.copies + [CopyOf(file, Outside(outside))]))
    case ByProcessor(p) => Success(if QueuedProcessor(plan, p.id) then marked else marked.(processors := plan.processors + [p]))
    case ByEntry(e) => Success(if QueuedEntry(plan, e.destination) then marked else marked.(entries := plan.entries + [e]))
    case ByCacheCopy(path) => Success(plan.(copies := plan.copies + [CopyOf(file, Cached(path))]))
    case ByRemoval =>
      Success(plan.(removals := plan.removals + [file.path], nativeInvalid := plan.nativeInvalid || file.kind == ExtractedNative))
    case Nowhere(error) => Failure(error)
  }

  function AddCheck(plan: RepairPlan, check: FileCheck, files: seq<ManagedFile>, loader: Option<Loader>): Result<RepairPlan, RepairError> {
    if check.state == Valid then Success(plan)
    else if check.state == Unexpected && check.location == Instance then
      Success(plan.(removals := plan.removals + [check.path], nativeInvalid := plan.nativeInvalid || check.kind == ExtractedNative))
    else
      match FindFile(files, check.id, check.location)
      case None => Failure(MissingSource(check.path))
      case Some(file) => AddFile(plan, file, loader)
  }

  function PlanAll(checks: seq<FileCheck>, files: seq<ManagedFile>, loader: Option<Loader>): Result<RepairPlan, RepairError> {
    if checks == [] then Success(NOTHING)
    else
      match PlanAll(checks[..|checks| - 1], files, loader)
      case Failure(error) => Failure(error)
      case Success(plan) => AddCheck(plan, checks[|checks| - 1], files, loader)
  }

  /** `resolve_repair_plan_unlocked`: one pass over the checks. */
  method ResolveRepairPlan(checks: seq<FileCheck>, files: seq<ManagedFile>, loader: Option<Loader>) returns (plan: Result<RepairPlan, RepairError>)
    ensures plan == PlanAll(checks, files, loader)
  {
    var building := NOTHING;
    for i := 0 to |checks|
      invariant PlanAll(checks[..i], files, loader) == Success(building)
    {
      assert checks[..i + 1][..i] == checks[..i];
      var next := AddCheck(building, checks[i], files, loader);
      if next.Failure? {
        FailureIsFinal(checks, files, loader, i + 1);
        return next;
      }
      building := next.value;
    }
    assert checks[..|checks|] == checks;
    plan := Success(building);
  }

  lemma {:induction false} FailureIsFinal(checks: seq<FileCheck>, files: seq<ManagedFile>, loader: Option<Loader>, i: nat)
    requires i <= |checks| && PlanAll(checks[..i], files, loader).Failure?
    ensures PlanAll(checks, files, loader) == PlanAll(checks[..i], files, loader)
    decreases |checks|
  {
    if i == |checks| {
      assert checks[..i] == checks;
    } else {
      assert checks[..|checks| - 1][..i] == checks[..i];
      FailureIsFinal(checks[..|checks| - 1], files, loader, i);
    }
  }

  // ---- looking files up again

  predicate SameKey(a: ManagedFile, b: ManagedFile) {
    a.id == b.id && a.location == b.location
  }

  ghost predicate UniqueKeys(files: seq<ManagedFile>) {
    forall i, j :: 0 <= i < j < |files| ==> !SameKey(files[i], files[j])
  }

  ghost predicate UniquePlaces(files: seq<ManagedFile>) {
    forall i, j :: 0 <= i < j < |files| ==> PlaceOf(files[i]) != PlaceOf(files[j])
  }

  /** A check leads back to the entry with its key that comes first in the index. */
  lemma {:induction false} LookupFindsFirst(files: seq<ManagedFile>, i: nat)
    requires i < |files| && forall k :: 0 <= k < i ==> !SameKey(files[k], files[i])
    ensures FindFile(files, files[i].id, files[i].location) == Some(files[i])
  {
    if i > 0 { LookupFindsFirst(files[1..], i - 1); }
  }

  lemma {:induction false} FoundIsListed(files: seq<ManagedFile>, id: string, location: Location)
    ensures FindFile(files, id, location).Some? ==>
      var f := FindFile(files, id, location).value;
      f in files && f.id == id && f.location == location
  {
    if files != [] { FoundIsListed(files[1..], id, location); }
  }

  /** With distinct places, every file is found again from its own check exactly when no two files share a key. */
  lemma LookupsFaithfulIffUniqueKeys(files: seq<ManagedFile>)
    requires UniquePlaces(files)
    ensures UniqueKeys(files) <==> forall i :: 0 <= i < |files| ==> FindFile(files, files[i].id, files[i].location) == Some(files[i])
  {
    if UniqueKeys(files) {
      forall i | 0 <= i < |files| ensures FindFile(files, files[i].id, files[i].location) == Some(files[i]) { LookupFindsFirst(files, i); }
    } else {
      var i, j :| 0 <= i < j < |files| && SameKey(files[i], files[j]);
      assert PlaceOf(files[i]) != PlaceOf(files[j]);
      assert FindFile(files, files[i].id, files[i].location) == FindFile(files, files[j].id, files[j].location);
    }
  }

  lemma {:induction false} ProcessorIsListed(processors: seq<LoaderPlans.Processor>, path: RelativePath)
    ensures FindProcessor(processors, path).Some? ==>
      FindProcessor(processors, path).value in processors && Declares(FindProcessor(processors, path).value, path)
  {
    if processors != [] { ProcessorIsListed(processors[1..], path); }
  }

  lemma {:induction false} EntryIsListed(entries: seq<LoaderPlans.ArchiveEntry>, path: RelativePath)
    ensures FindEntry(entries, path).Some? ==> FindEntry(entries, path).value in entries && FindEntry(entries, path).value.destination == path
  {
    if entries != [] { EntryIsListed(entries[1..], path); }
  }

  // ---- what the plan contains

  /** The plan takes care of an invalid file. */
  ghost predicate Handles(plan: RepairPlan, file: ManagedFile, loader: Option<Loader>) {
    match RouteOf(file, loader)
    case ByDownload(source) => RequestOf(file, source) in plan.downloads
    case ByOutsideCopy(outside) => CopyOf(file, Outside(outside)) in plan.copies
    case ByProcessor(p) => QueuedProcessor(plan, p.id)
    case ByEntry(e) => QueuedEntry(plan, e.destination)
    case ByCacheCopy(path) => CopyOf(file, Cached(path)) in plan.copies
    case ByRemoval => file.path in plan.removals && (file.kind == ExtractedNative ==> plan.nativeInvalid)
    case Nowhere(_) => false
  }

  /** The lookup by id and location leads to this very file. */
  predicate Found(files: seq<ManagedFile>, f: ManagedFile) {
    FindFile(files, f.id, f.location) == Some(f)
  }

  ghost predicate NeedsDownload(files: seq<ManagedFile>, loader: Option<Loader>, q: Request) {
    exists f :: f in files && Found(files, f) && RouteOf(f, loader).ByDownload? && q == RequestOf(f, RouteOf(f, loader).source)
  }

  ghost predicate NeedsCopy(files: seq<ManagedFile>, loader: Option<Loader>, c: Copy) {
    exists f :: f in files && Found(files, f) && CopiedBy(f, loader, c)
  }

  ghost predicate CopiedBy(f: ManagedFile, loader: Option<Loader>, c: Copy) {
    match RouteOf(f, loader)
    case ByOutsideCopy(outside) => c == CopyOf(f, Outside(outside))
    case ByCacheCopy(path) => c == CopyOf(f, Cached(path))
    case _ => false
  }

  ghost predicate NeedsProcessor(files: seq<ManagedFile>, loader: Option<Loader>, p: LoaderPlans.Processor) {
    loader.Some? && p in loader.value.processors && exists f :: f in files && Found(files, f) && RouteOf(f, loader) == ByProcessor(p)
  }

  ghost predicate NeedsEntry(files: seq<ManagedFile>, loader: Option<Loader>, e: LoaderPlans.ArchiveEntry) {
    loader.Some? && e in loader.value.entries && exists f :: f in files && Found(files, f) && RouteOf(f, loader) == ByEntry(e)
  }

  /** Everything in the plan is there for some indexed file, or removes an unexpected one. */
  ghost predicate Justified(plan: RepairPlan, checks: seq<FileCheck>, files: seq<ManagedFile>, loader: Option<Loader>) {
    && (forall q :: q in plan.downloads ==> NeedsDownload(files, loader, q))
    && (forall c :: c in plan.copies ==> NeedsCopy(files, loader, c))
    && (forall p :: p in plan.processors ==> NeedsProcessor(files, loader, p))
    && (forall e :: e in plan.entries ==> NeedsEntry(files, loader, e))
    && (forall r :: r in plan.removals ==> NeedsRemoval(checks, files, loader, r, plan.nativeInvalid))
  }

  /** `marked`: the plan knows that the natives are invalid. */
  ghost predicate NeedsRemoval(checks: seq<FileCheck>, files: seq<ManagedFile>, loader: Option<Loader>, path: RelativePath, marked: bool) {
    || (exists c :: c in checks && UnexpectedAt(c, path, marked))
    || (exists f :: f in files && RemovedAt(f, loader, path, marked))
  }

  predicate UnexpectedAt(c: FileCheck, path: RelativePath, marked: bool) {
    c.state == Unexpected && c.location == Instance && c.path == path && (c.kind == ExtractedNative ==> marked)
  }

  predicate RemovedAt(f: ManagedFile, loader: Option<Loader>, path: RelativePath, marked: bool) {
    f.location == Instance && f.path == path && RouteOf(f, loader).ByRemoval? && (f.kind == ExtractedNative ==> marked)
  }

  ghost predicate Grows(a: RepairPlan, b: RepairPlan) {
    && a.downloads <= b.downloads && a.copies <= b.copies && a.removals <= b.removals
    && a.entries <= b.entries && a.processors <= b.processors && (a.nativeInvalid ==> b.nativeInvalid)
  }

  lemma AddFileHandles(plan: RepairPlan, file: ManagedFile, loader: Option<Loader>)
    requires AddFile(plan, file, loader).Success?
    ensures Handles(AddFile(plan, file, loader).value, file, loader)
    ensures Grows(plan, AddFile(plan, file, loader).value)
    ensures file.location == Cache && file.kind == NativeArchive ==> AddFile(plan, file, loader).value.nativeInvalid
  {
    var next := AddFile(plan, file, loader).value;
    match RouteOf(file, loader) {
      case ByProcessor(p) =>
        if !QueuedProcessor(plan, p.id) { assert p in next.processors; }
      case ByEntry(e) =>
        if !QueuedEntry(plan, e.destination) { assert e in next.entries; }
      case _ =>
    }
  }

  lemma HandlingGrows(a: RepairPlan, b: RepairPlan, file: ManagedFile, loader: Option<Loader>)
    requires Grows(a, b) && Handles(a, file, loader)
    ensures Handles(b, file, loader)
  {
    match RouteOf(file, loader) {
      case ByProcessor(p) =>
        var q :| q in a.processors && q.id == p.id;
        assert q in b.processors;
      case ByEntry(e) =>
        var q :| q in a.entries && q.destination == e.destination;
        assert q in b.entries;
      case ByDownload(source) => assert RequestOf(file, source) in b.downloads;
      case ByOutsideCopy(outside) => assert CopyOf(file, Outside(outside)) in b.copies;
      case ByCacheCopy(path) => assert CopyOf(file, Cached(path)) in b.copies;
      case ByRemoval => assert file.path in b.removals;
    }
  }

  lemma AddFileJustified(plan: RepairPlan, file: ManagedFile, checks: seq<FileCheck>, files: seq<ManagedFile>, loader: Option<Loader>)
    requires AddFile(plan, file, loader).Success?
    requires Justified(plan.(nativeInvalid := AddFile(plan, file, loader).value.nativeInvalid), checks, files, loader) && file in files && Found(files, file)
    ensures Justified(AddFile(plan, file, loader).value, checks, files, loader)
  {
    match RouteOf(file, loader) {
      case ByDownload(source) => assert NeedsDownload(files, loader, RequestOf(file, source));
      case ByOutsideCopy(outside) =>
        assert CopiedBy(file, loader, CopyOf(file, Outside(outside)));
        assert NeedsCopy(files, loader, CopyOf(file, Outside(outside)));
      case ByCacheCopy(path) =>
        assert CopiedBy(file, loader, CopyOf(file, Cached(path)));
        assert NeedsCopy(files, loader, CopyOf(file, Cached(path)));
      case ByProcessor(p) =>
        ProcessorIsListed(loader.value.processors, file.path);
        assert NeedsProcessor(files, loader, p);
      case ByEntry(e) =>
        EntryIsListed(loader.value.entries, file.path);
        assert NeedsEntry(files, loader, e);
      case ByRemoval => assert RemovedAt(file, loader, file.path, AddFile(plan, file, loader).value.nativeInvalid);
    }
  }

  lemma MoreChecksJustify(plan: RepairPlan, front: seq<FileCheck>, check: FileCheck, files: seq<ManagedFile>, loader: Option<Loader>, marked: bool)
    requires Justified(plan, front, files, loader) && (plan.nativeInvalid ==> marked)
    ensures Justified(plan.(nativeInvalid := marked), front + [check], files, loader)
  {
    forall r | r in plan.removals ensures NeedsRemoval(front + [check], files, loader, r, marked) {
      assert NeedsRemoval(front, files, loader, r, plan.nativeInvalid);
      if c :| c in front && UnexpectedAt(c, r, plan.nativeInvalid) {
        assert c in front + [check] && UnexpectedAt(c, r, marked);
      } else {
        var f :| f in files && RemovedAt(f, loader, r, plan.nativeInvalid);
        assert RemovedAt(f, loader, r, marked);
      }
    }
  }

  lemma AddCheckJustified(plan: RepairPlan, front: seq<FileCheck>, check: FileCheck, files: seq<ManagedFile>, loader: Option<Loader>)
    requires Justified(plan, front, files, loader) && AddCheck(plan, check, files, loader).Success?
    ensures Justified(AddCheck(plan, check, files, loader).value, front + [check], files, loader)
    ensures Grows(plan, AddCheck(plan, check, files, loader).value)
  {
    if check.state != Valid && !(check.state == Unexpected && check.location == Instance) {
      AddFileHandles(plan, FindFile(files, check.id, check.location).value, loader);
    }
    MoreChecksJustify(plan, front, check, files, loader, AddCheck(plan, check, files, loader).value.nativeInvalid);
    if check.state == Valid {
    } else if check.state == Unexpected && check.location == Instance {
      assert check in front + [check] && UnexpectedAt(check, check.path, AddCheck(plan, check, files, loader).value.nativeInvalid);
    } else {
      FoundIsListed(files, check.id, check.location);
      var file := FindFile(files, check.id, check.location).value;
      AddFileJustified(plan, file, front + [check], files, loader);
    }
  }

  /** Nothing is planned without a reason. */
  lemma {:induction false} PlanIsJustified(checks: seq<FileCheck>, files: seq<ManagedFile>, loader: Option<Loader>)
    requires PlanAll(checks, files, loader).Success?
    ensures Justified(PlanAll(checks, files, loader).value, checks, files, loader)
    decreases |checks|
  {
    if checks != [] {
      var front, last := checks[..|checks| - 1], checks[|checks| - 1];
      PlanIsJustified(front, files, loader);
      assert checks == front + [last];
      AddCheckJustified(PlanAll(front, files, loader).value, front, last, files, loader);
    }
  }

  /** What the plan must do about a check. */
  ghost predicate Answers(plan: RepairPlan, check: FileCheck, files: seq<ManagedFile>, loader: Option<Loader>) {
    if check.state == Valid then true
    else if check.state == Unexpected && check.location == Instance then
      check.path in plan.removals && (check.kind == ExtractedNative ==> plan.nativeInvalid)
    else
      var found := FindFile(files, check.id, check.location);
      && found.Some? && Handles(plan, found.value, loader)
      && (found.value.location == Cache && found.value.kind == NativeArchive ==> plan.nativeInvalid)
  }

  lemma AnsweringGrows(a: RepairPlan, b: RepairPlan, check: FileCheck, files: seq<ManagedFile>, loader: Option<Loader>)
    requires Grows(a, b) && Answers(a, check, files, loader)
    ensures Answers(b, check, files, loader)
  {
    if check.state == Valid {
    } else if check.state == Unexpected && check.location == Instance {
      assert check.path in b.removals;
    } else {
      HandlingGrows(a, b, FindFile(files, check.id, check.location).value, loader);
    }
  }

  lemma AddCheckAnswers(plan: RepairPlan, check: FileCheck, files: seq<ManagedFile>, loader: Option<Loader>)
    requires AddCheck(plan, check, files, loader).Success?
    ensures Answers(AddCheck(plan, check, files, loader).value, check, files, loader)
  {
    if check.state != Valid && !(check.state == Unexpected && check.location == Instance) {
      AddFileHandles(plan, FindFile(files, check.id, check.location).value, loader);
    }
  }

  /** Every check is answered, in whatever order the checks arrive. */
  lemma {:induction false} PlanAnswersEveryCheck(checks: seq<FileCheck>, files: seq<ManagedFile>, loader: Option<Loader>, check: FileCheck)
    requires PlanAll(checks, files, loader).Success? && check in checks
    ensures Answers(PlanAll(checks, files, loader).value, check, files, loader)
    decreases |checks|
  {
    var front, last := checks[..|checks| - 1], checks[|checks| - 1];
    assert checks == front + [last];
    var plan := PlanAll(front, files, loader).value;
    AddCheckAnswers(plan, last, files, loader);
    if check != last {
      PlanAnswersEveryCheck(front, files, loader, check);
      PlanIsJustified(front, files, loader);
      AddCheckJustified(plan, front, last, files, loader);
      AnsweringGrows(plan, PlanAll(checks, files, loader).value, check, files, loader);
    }
  }

  /** Planning succeeds exactly when every check that needs an indexed file finds one with a route. */
  ghost predicate Plannable(check: FileCheck, files: seq<ManagedFile>, loader: Option<Loader>) {
    check.state == Valid || (check.state == Unexpected && check.location == Instance) ||
    (var found := FindFile(files, check.id, check.location); found.Some? && !RouteOf(found.value, loader).Nowhere?)
  }

  lemma {:induction false} PlanSucceedsIff(checks: seq<FileCheck>, files: seq<ManagedFile>, loader: Option<Loader>)
    ensures PlanAll(checks, files, loader).Success? <==> forall c :: c in checks ==> Plannable(c, files, loader)
    decreases |checks|
  {
    if checks != [] {
      var front, last := checks[..|checks| - 1], checks[|checks| - 1];
      assert checks == front + [last];
      PlanSucceedsIff(front, files, loader);
      assert (forall c :: c in checks ==> Plannable(c, files, loader)) <==> (forall c :: c in front ==> Plannable(c, files, loader)) && Plannable(last, files, loader);
    }
  }
}
