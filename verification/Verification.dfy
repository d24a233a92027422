/** Files explicitly owned by the library, and the disk they live on. */
module ManagedFiles {
  import opened Wrappers
  import opened Contents

  type RelativePath = string

  datatype Location = Cache | Instance

  datatype Kind = VersionMetadata | Client | Library | AssetIndex | Asset | NativeArchive | ExtractedNative | Logging | Other

  datatype Origin = Minecraft | Loader | Provider | Component(id: string) | UserOptional

  /** `stampSize` and `stampTime` are the metadata recorded when the file was last snapshotted. */
  datatype ManagedFile = ManagedFile(
    id: string, location: Location, path: RelativePath, kind: Kind, origin: Origin,
    size: Option<nat>, hash: Option<FileHash>,
    source: Option<string>, sourcePath: Option<string>, repairFrom: Option<RelativePath>,
    stampSize: nat, stampTime: Option<nat>)

  /** A managed root and a path below it. Joining is injective, so this is the absolute path. */
  type Place = (Location, RelativePath)

  function PlaceOf(file: ManagedFile): Place {
    (file.location, file.path)
  }

  /** What a path holds: a regular file with its modification time, or anything else. */
  datatype Entry = File(bytes: Bytes, modified: Option<nat>) | NonFile(length: nat)

  type Disk = map<Place, Entry>
}

/** Quick and full verification of managed files. */
module Verification {
  import opened Wrappers
  import opened Contents
  import opened ManagedFiles

  datatype FileState = Valid | Missing | Corrupted | Unexpected

  datatype FileCheck = FileCheck(
    id: string, path: RelativePath, location: Location, kind: Kind, state: FileState,
    expectedSize: Option<nat>, actualSize: Option<nat>)

  function Check(file: ManagedFile, state: FileState, actual: Option<nat>): FileCheck {
    FileCheck(file.id, file.path, file.location, file.kind, state, file.size, actual)
  }

  predicate MetadataUnchanged(entry: Entry, file: ManagedFile)
    requires entry.File?
  {
    file.stampSize == |entry.bytes| && file.stampTime == entry.modified
  }

  predicate Accepted(entry: Entry, file: ManagedFile)
    requires entry.File?
  {
    Matches(entry.bytes, file.size, file.hash)
  }

  /** `verify_managed_file`. A quick verification trusts unchanged metadata and does not hash. */
  function VerifyManagedFile(disk: Disk, file: ManagedFile, full: bool): FileCheck {
    if PlaceOf(file) !in disk then Check(file, Missing, None)
    else
      match disk[PlaceOf(file)]
      case NonFile(length) => Check(file, Corrupted, Some(length))
      case File(bytes, modified) =>
        if file.size.Some? && file.size.value != |bytes| then Check(file, Corrupted, Some(|bytes|))
        else
          var valid := (!full && MetadataUnchanged(File(bytes, modified), file)) || Accepted(File(bytes, modified), file);
          Check(file, if valid then Valid else Corrupted, Some(|bytes|))
  }

  datatype Report = Report(checks: seq<FileCheck>, valid: nat, missing: nat, corrupted: nat, unexpected: nat, bytesChecked: nat)

  function CountState(checks: seq<FileCheck>, state: FileState): nat {
    if checks == [] then 0 else (if checks[0].state == state then 1 else 0) + CountState(checks[1..], state)
  }

  function SumActual(checks: seq<FileCheck>): nat {
    if checks == [] then 0
    else (if checks[0].actualSize.Some? then checks[0].actualSize.value else 0) + SumActual(checks[1..])
  }

  function ReportOf(checks: seq<FileCheck>): Report {
    Report(checks, CountState(checks, Valid), CountState(checks, Missing), CountState(checks, Corrupted),
           CountState(checks, Unexpected), SumActual(checks))
  }

  predicate IsHealthy(report: Report) {
    report.missing == 0 && report.corrupted == 0 && report.unexpected == 0
  }

  lemma {:induction false} CountOneMore(checks: seq<FileCheck>, c: FileCheck, state: FileState)
    ensures CountState(checks + [c], state) == CountState(checks, state) + (if c.state == state then 1 else 0)
    ensures SumActual(checks + [c]) == SumActual(checks) + (if c.actualSize.Some? then c.actualSize.value else 0)
  {
    if checks != [] {
      CountOneMore(checks[1..], c, state);
      assert (checks + [c])[1..] == checks[1..] + [c];
    }
  }

  /** `build_report`. */
  method BuildReport(checks: seq<FileCheck>) returns (report: Report)
    ensures report == ReportOf(checks)
  {
    report := Report(checks, 0, 0, 0, 0, 0);
    for i := 0 to |checks|
      invariant report == ReportOf(checks[..i]).(checks := checks)
    {
      var c := checks[i];
      assert checks[..i + 1] == checks[..i] + [c];
      forall state ensures CountState(checks[..i + 1], state) == CountState(checks[..i], state) + (if c.state == state then 1 else 0) {
        CountOneMore(checks[..i], c, state);
      }
      CountOneMore(checks[..i], c, Valid);
      if c.actualSize.Some? { report := report.(bytesChecked := report.bytesChecked + c.actualSize.value); }
      match c.state {
        case Valid => report := report.(valid := report.valid + 1);
        case Missing => report := report.(missing := report.missing + 1);
        case Corrupted => report := report.(corrupted := report.corrupted + 1);
        case Unexpected => report := report.(unexpected := report.unexpected + 1);
      }
    }
    assert checks[..|checks|] == checks;
  }

  lemma {:induction false} HealthyMeansAllValid(checks: seq<FileCheck>)
    ensures IsHealthy(ReportOf(checks)) <==> forall c :: c in checks ==> c.state == Valid
    ensures CountState(checks, Valid) + CountState(checks, Missing) + CountState(checks, Corrupted) + CountState(checks, Unexpected) == |checks|
  {
    if checks != [] {
      HealthyMeansAllValid(checks[1..]);
      assert checks == [checks[0]] + checks[1..];
    }
  }

  function ChecksOf(disk: Disk, files: seq<ManagedFile>, full: bool): seq<FileCheck> {
    seq(|files|, i requires 0 <= i < |files| => VerifyManagedFile(disk, files[i], full))
  }

  // ---- the order in which concurrent checks complete

  lemma {:induction false} CountSplit(a: seq<FileCheck>, b: seq<FileCheck>, state: FileState)
    ensures CountState(a + b, state) == CountState(a, state) + CountState(b, state)
    ensures SumActual(a + b) == SumActual(a) + SumActual(b)
  {
    if a == [] {
      assert a + b == b;
    } else {
      CountSplit(a[1..], b, state);
      assert (a + b)[1..] == a[1..] + b;
    }
  }

  lemma RemoveOne(a: seq<FileCheck>, b: seq<FileCheck>, k: nat)
    requires a != [] && k < |b| && b[k] == a[0] && multiset(a) == multiset(b)
    ensures multiset(a[1..]) == multiset(b[..k] + b[k + 1..])
  {
    assert a == [a[0]] + a[1..];
    assert b == b[..k] + ([b[k]] + b[k + 1..]);
    assert multiset(a[1..]) == multiset(a) - multiset{a[0]};
    assert multiset(b[..k] + b[k + 1..]) == multiset(b) - multiset{b[k]};
  }

  lemma CountsAround(b: seq<FileCheck>, k: nat, state: FileState)
    requires k < |b|
    ensures CountState(b, state) == CountState(b[..k] + b[k + 1..], state) + (if b[k].state == state then 1 else 0)
    ensures SumActual(b) == SumActual(b[..k] + b[k + 1..]) + (if b[k].actualSize.Some? then b[k].actualSize.value else 0)
  {
    assert b == b[..k] + b[k..] && b[k..][0] == b[k] && b[k..][1..] == b[k + 1..];
    CountSplit(b[..k], b[k..], state);
    CountSplit(b[..k], b[k + 1..], state);
  }

  lemma OccursIn(a: seq<FileCheck>, b: seq<FileCheck>) returns (k: nat)
    requires a != [] && multiset(a) == multiset(b)
    ensures k < |b| && b[k] == a[0]
  {
    assert a[0] in multiset(b);
    k :| 0 <= k < |b| && b[k] == a[0];
  }

  /** Whatever order the checks complete in, the counters of the report are the same. */
  lemma {:induction false} CountersIgnoreOrder(a: seq<FileCheck>, b: seq<FileCheck>, state: FileState)
    requires multiset(a) == multiset(b)
    ensures CountState(a, state) == CountState(b, state) && SumActual(a) == SumActual(b)
    decreases |a|
  {
    if a == [] {
      assert |multiset(b)| == 0;
    } else {
      var k := OccursIn(a, b);
      RemoveOne(a, b, k);
      CountersIgnoreOrder(a[1..], b[..k] + b[k + 1..], state);
      CountsAround(b, k, state);
    }
  }

  // ---- quick against full

  /** The stamp of `file` is not vouching for anything wrong. */
  predicate StampSound(disk: Disk, file: ManagedFile) {
    PlaceOf(file) in disk && disk[PlaceOf(file)].File? && MetadataUnchanged(disk[PlaceOf(file)], file)
      && (file.size.Some? ==> file.size.value == |disk[PlaceOf(file)].bytes|)
    ==> Accepted(disk[PlaceOf(file)], file)
  }

  /** Both modes agree on a file exactly when its stamp is sound. */
  lemma QuickAgreesIffStampSound(disk: Disk, file: ManagedFile)
    ensures VerifyManagedFile(disk, file, false) == VerifyManagedFile(disk, file, true) <==> StampSound(disk, file)
    ensures VerifyManagedFile(disk, file, true).state == Valid ==> VerifyManagedFile(disk, file, false).state == Valid
  {
  }

  ghost predicate StampsSound(disk: Disk, files: seq<ManagedFile>) {
    forall i :: 0 <= i < |files| ==> StampSound(disk, files[i])
  }

  /** Both modes give the same report exactly when every stamp is sound. */
  lemma QuickReportIsFullReport(disk: Disk, files: seq<ManagedFile>, unexpected: seq<FileCheck>)
    ensures ReportOf(ChecksOf(disk, files, false) + unexpected) == ReportOf(ChecksOf(disk, files, true) + unexpected)
            <==> StampsSound(disk, files)
  {
    var quick, full := ChecksOf(disk, files, false), ChecksOf(disk, files, true);
    forall i | 0 <= i < |files| ensures quick[i] == full[i] <==> StampSound(disk, files[i]) {
      QuickAgreesIffStampSound(disk, files[i]);
    }
    if quick + unexpected == full + unexpected {
      forall i | 0 <= i < |files| ensures StampSound(disk, files[i]) {
        assert (quick + unexpected)[i] == quick[i] && (full + unexpected)[i] == full[i];
      }
    }
    if StampsSound(disk, files) { assert quick == full; }
  }

  // ---- where sound stamps come from

  /** `snapshot_managed_file`: copies the metadata, looks at no content. `None` when there is no regular file. */
  function Snapshot(disk: Disk, file: ManagedFile): Option<ManagedFile> {
    if PlaceOf(file) in disk && disk[PlaceOf(file)].File? then
      var entry := disk[PlaceOf(file)];
      Some(file.(stampSize := |entry.bytes|, stampTime := entry.modified))
    else None
  }

  /** The stamp was taken from this disk. */
  predicate StampedFrom(disk: Disk, file: ManagedFile) {
    Snapshot(disk, file) == Some(file)
  }

  /** No content changed without its size or its modification time changing too. */
  ghost predicate ChangesShow(before: Disk, after: Disk, place: Place) {
    place in before && place in after && before[place].File? && after[place].File?
    && |before[place].bytes| == |after[place].bytes| && before[place].modified == after[place].modified
    ==> before[place].bytes == after[place].bytes
  }

  /** A stamp taken over valid content stays sound through every change that shows in the metadata. */
  lemma ValidStampsStaySound(before: Disk, after: Disk, file: ManagedFile)
    requires StampedFrom(before, file) && Accepted(before[PlaceOf(file)], file)
    requires ChangesShow(before, after, PlaceOf(file))
    ensures StampSound(after, file)
  {
  }

  /** `refresh_index`: stamps every entry anew; `None` when some entry is no regular file. */
  method RefreshIndex(disk: Disk, files: seq<ManagedFile>) returns (refreshed: Option<seq<ManagedFile>>)
    ensures refreshed.None? <==> exists i :: 0 <= i < |files| && Snapshot(disk, files[i]).None?
    ensures refreshed.Some? ==> Refreshed(disk, files, refreshed.value)
  {
    var done: seq<ManagedFile> := [];
    for i := 0 to |files|
      invariant Refreshed(disk, files[..i], done)
      invariant forall k :: 0 <= k < i ==> Snapshot(disk, files[k]).Some?
    {
      var stamped := Snapshot(disk, files[i]);
      if stamped.None? { return None; }
      done := done + [stamped.value];
    }
    assert files[..|files|] == files;
    refreshed := Some(done);
  }

  ghost predicate Refreshed(disk: Disk, files: seq<ManagedFile>, refreshed: seq<ManagedFile>) {
    |refreshed| == |files| && forall i :: 0 <= i < |files| ==> Snapshot(disk, files[i]) == Some(refreshed[i])
  }

  predicate SizeFits(disk: Disk, file: ManagedFile) {
    PlaceOf(file) in disk && disk[PlaceOf(file)].File? && file.size.Some? ==> file.size.value == |disk[PlaceOf(file)].bytes|
  }

  /**
   * Refreshing hashes nothing: it leaves sound stamps exactly when every file of the right size also has
   * the right content. A healthy full verification right afterwards is enough, so a repair that ends in
   * one establishes the invariant.
   */
  lemma RefreshIsSoundIffContentIs(disk: Disk, files: seq<ManagedFile>, refreshed: seq<ManagedFile>)
    requires Refreshed(disk, files, refreshed)
    ensures StampsSound(disk, refreshed) <==>
              forall i :: 0 <= i < |refreshed| && SizeFits(disk, refreshed[i]) ==> VerifyManagedFile(disk, refreshed[i], true).state == Valid
    ensures IsHealthy(ReportOf(ChecksOf(disk, refreshed, true))) ==>
              StampsSound(disk, refreshed) && forall f :: f in refreshed ==> StampedFrom(disk, f) && Accepted(disk[PlaceOf(f)], f)
  {
    var checks := ChecksOf(disk, refreshed, true);
    HealthyMeansAllValid(checks);
    forall i | 0 <= i < |refreshed|
      ensures StampedFrom(disk, refreshed[i])
      ensures SizeFits(disk, refreshed[i]) ==> (StampSound(disk, refreshed[i]) <==> checks[i].state == Valid)
      ensures !SizeFits(disk, refreshed[i]) ==> StampSound(disk, refreshed[i]) && checks[i].state == Corrupted
      ensures checks[i].state == Valid ==> Accepted(disk[PlaceOf(refreshed[i])], refreshed[i])
    {
      assert Snapshot(disk, files[i]) == Some(refreshed[i]);
    }
    assert forall i :: 0 <= i < |refreshed| ==> checks[i] in checks;
  }

  /** What an installation records for one finished download: missing expectations are taken from the file itself. */
  function InstalledEntry(disk: Disk, file: ManagedFile): Option<ManagedFile> {
    if PlaceOf(file) in disk && disk[PlaceOf(file)].File? then
      var bytes := disk[PlaceOf(file)].bytes;
      Snapshot(disk, file.(size := if file.size.Some? then file.size else Some(|bytes|),
                           hash := if file.hash.Some? then file.hash else Some(Digest(Sha256, bytes))))
    else None
  }

  /** After a verified download the recorded entry is stamped over valid content, and pins the content exactly. */
  lemma InstallEstablishesSoundStamp(disk: Disk, file: ManagedFile)
    requires PlaceOf(file) in disk && disk[PlaceOf(file)].File? && Accepted(disk[PlaceOf(file)], file)
    ensures
      var entry := InstalledEntry(disk, file);
      && entry.Some? && StampedFrom(disk, entry.value) && Accepted(disk[PlaceOf(file)], entry.value)
      && forall bytes :: Matches(bytes, entry.value.size, entry.value.hash) ==> bytes == disk[PlaceOf(file)].bytes
  {
  }

  /** Every stamp was taken from this disk, over accepted content. */
  ghost predicate Vouched(disk: Disk, files: seq<ManagedFile>) {
    forall f :: f in files ==> StampedFrom(disk, f) && Accepted(disk[PlaceOf(f)], f)
  }

  /**
   * Quick verification refines full verification: stamps taken over accepted content give the same report in
   * both modes on every later disk whose changes show in size or modification time.
   */
  lemma QuickRefinesFull(before: Disk, after: Disk, files: seq<ManagedFile>, unexpected: seq<FileCheck>)
    requires Vouched(before, files) && forall f :: f in files ==> ChangesShow(before, after, PlaceOf(f))
    ensures ReportOf(ChecksOf(after, files, false) + unexpected) == ReportOf(ChecksOf(after, files, true) + unexpected)
  {
    forall i | 0 <= i < |files| ensures StampSound(after, files[i]) {
      assert files[i] in files;
      ValidStampsStaySound(before, after, files[i]);
    }
    QuickReportIsFullReport(after, files, unexpected);
  }

  /** What an installation records for its verified downloads. */
  ghost predicate RecordedByInstall(disk: Disk, files: seq<ManagedFile>, entries: seq<ManagedFile>) {
    && |entries| == |files|
    && forall i :: 0 <= i < |files| ==>
         && PlaceOf(files[i]) in disk && disk[PlaceOf(files[i])].File? && Accepted(disk[PlaceOf(files[i])], files[i])
         && InstalledEntry(disk, files[i]) == Some(entries[i])
  }

  /** After an installation of verified downloads quick verification refines full verification. */
  lemma QuickRefinesFullAfterInstall(before: Disk, after: Disk, files: seq<ManagedFile>, entries: seq<ManagedFile>, unexpected: seq<FileCheck>)
    requires RecordedByInstall(before, files, entries)
    requires forall f :: f in files ==> ChangesShow(before, after, PlaceOf(f))
    ensures Vouched(before, entries)
    ensures ReportOf(ChecksOf(after, entries, false) + unexpected) == ReportOf(ChecksOf(after, entries, true) + unexpected)
  {
    forall f | f in entries ensures StampedFrom(before, f) && Accepted(before[PlaceOf(f)], f) && ChangesShow(before, after, PlaceOf(f)) {
      var i :| 0 <= i < |entries| && entries[i] == f;
      assert files[i] in files;
      InstallEstablishesSoundStamp(before, files[i]);
    }
    QuickRefinesFull(before, after, entries, unexpected);
  }

  /** Right after stamps were taken, quick verification looks at nothing but sizes. */
  lemma RefreshedQuickSeesOnlySizes(disk: Disk, files: seq<ManagedFile>, refreshed: seq<ManagedFile>, i: nat)
    requires Refreshed(disk, files, refreshed) && i < |files|
    ensures VerifyManagedFile(disk, refreshed[i], false).state == (if SizeFits(disk, files[i]) then Valid else Corrupted)
    ensures VerifyManagedFile(disk, refreshed[i], true).state ==
            (if SizeFits(disk, files[i]) && Accepted(disk[PlaceOf(files[i])], files[i]) then Valid else Corrupted)
  {
    assert Snapshot(disk, files[i]) == Some(refreshed[i]);
  }
}
