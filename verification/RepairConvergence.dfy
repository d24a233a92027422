/** What a repair changes, and when it brings every indexed file back. */
module RepairConvergence {
  import opened Wrappers
  import opened Contents
  import opened ManagedFiles
  import opened Verification
  import opened RepairPlanning
  import opened Repairing
  import LoaderPlans

  type Recorded = map<Place, Bytes>

  predicate SameAt(a: Disk, b: Disk, place: Place) {
    (place in a <==> place in b) && (place in a ==> a[place] == b[place])
  }

  ghost predicate SameOff(a: Disk, b: Disk, touched: set<Place>) {
    forall place :: place !in touched ==> SameAt(a, b, place)
  }

  // ---- what each phase may touch

  ghost function RequestPlaces(requests: seq<Request>): set<Place> {
    set q | q in requests :: (Cache, q.path)
  }

  ghost function CopyPlaces(copies: seq<Copy>): set<Place> {
    set c | c in copies :: c.destination
  }

  ghost function LoaderPlaces(entries: seq<LoaderPlans.ArchiveEntry>, processors: seq<LoaderPlans.Processor>): set<Place> {
    set path | path in LoaderPlans.Destinations(entries) + LoaderPlans.Declared(processors) :: (Cache, path)
  }

  ghost function RemovalPlaces(paths: seq<RelativePath>): set<Place> {
    set p | p in paths :: (Instance, p)
  }

  /** The processors write nothing beyond their declared outputs. */
  ghost predicate Contained(tools: LoaderPlans.Tools, processors: seq<LoaderPlans.Processor>) {
    forall p, inputs | p in processors :: tools.run(p.id, inputs).0.Keys <= LoaderPlans.PathsOf(p.outputs)
  }

  lemma {:induction false} DownloadsTouch(env: Environment, disk: Disk, requests: seq<Request>, now: nat)
    ensures SameOff(disk, Downloads(env, disk, requests, now).disk, RequestPlaces(requests))
    decreases |requests|
  {
    if requests != [] {
      assert requests == [requests[0]] + requests[1..];
      assert (Cache, requests[0].path) in RequestPlaces(requests) by { assert requests[0] in requests; }
      assert RequestPlaces(requests[1..]) <= RequestPlaces(requests);
      DownloadsTouch(env, DownloadOne(env, disk, requests[0], now).disk, requests[1..], now);
    }
  }

  lemma {:induction false} CopiesTouch(env: Environment, disk: Disk, copies: seq<Copy>, now: nat)
    ensures SameOff(disk, Copies(env, disk, copies, now).disk, CopyPlaces(copies))
    decreases |copies|
  {
    if copies != [] {
      assert copies == [copies[0]] + copies[1..];
      assert copies[0].destination in CopyPlaces(copies) by { assert copies[0] in copies; }
      assert CopyPlaces(copies[1..]) <= CopyPlaces(copies);
      CopiesTouch(env, CopyOne(env, disk, copies[0], now).disk, copies[1..], now);
    }
  }

  lemma {:induction false} RemovalsTouch(disk: Disk, paths: seq<RelativePath>)
    ensures SameOff(disk, Removals(disk, paths).disk, RemovalPlaces(paths))
    ensures forall place :: place in Removals(disk, paths).disk ==> SameAt(disk, Removals(disk, paths).disk, place)
    decreases |paths|
  {
    if paths != [] {
      assert paths == [paths[0]] + paths[1..];
      assert (Instance, paths[0]) in RemovalPlaces(paths) by { assert paths[0] in paths; }
      assert RemovalPlaces(paths[1..]) <= RemovalPlaces(paths);
      RemovalsTouch(RemoveManaged(disk, paths[0]).disk, paths[1..]);
    }
  }

  lemma {:induction false} OnlyIntoIsPart(copies: seq<Copy>, location: Location)
    ensures forall c :: c in OnlyInto(copies, location) <==> c in copies && c.destination.0 == location
  {
    if copies != [] {
      OnlyIntoIsPart(copies[1..], location);
      assert copies == [copies[0]] + copies[1..];
    }
  }

  lemma {:induction false} ExecuteWrites(tools: LoaderPlans.Tools, cache: LoaderPlans.Cache, processors: seq<LoaderPlans.Processor>)
    requires Contained(tools, processors)
    ensures LoaderPlans.AgreeOutside(LoaderPlans.Execute(tools, cache, processors, None).cache, cache, LoaderPlans.Declared(processors))
    ensures cache.Keys <= LoaderPlans.Execute(tools, cache, processors, None).cache.Keys
    decreases |processors|
  {
    if processors != [] {
      var p, rest := processors[0], processors[1..];
      assert processors == [p] + rest;
      LoaderPlans.DeclaredCons(p, rest);
      assert p in processors;
      ExecuteWrites(tools, LoaderPlans.Step(tools, cache, p).0, rest);
    }
  }

  lemma {:induction false} ExtractWrites(tools: LoaderPlans.Tools, cache: LoaderPlans.Cache, entries: seq<LoaderPlans.ArchiveEntry>)
    ensures LoaderPlans.AgreeOutside(LoaderPlans.Extract(tools, cache, entries, None).0, cache, LoaderPlans.Destinations(entries))
    ensures cache.Keys <= LoaderPlans.Extract(tools, cache, entries, None).0.Keys
    decreases |entries|
  {
    LoaderPlans.ExtractionLeaves(tools, cache, entries);
    if entries != [] {
      var e := entries[0];
      if e.archive in cache && tools.unzip(cache[e.archive], e.entry).Some? {
        ExtractWrites(tools, cache[e.destination := tools.unzip(cache[e.archive], e.entry).value], entries[1..]);
      }
    }
  }

  lemma WithCacheTouches(disk: Disk, cache: LoaderPlans.Cache, now: nat, paths: set<RelativePath>)
    requires LoaderPlans.AgreeOutside(cache, CacheOf(disk), paths)
    ensures SameOff(disk, WithCache(disk, cache, now), set p | p in paths :: (Cache, p))
  {
    forall place | place !in (set p | p in paths :: (Cache, p)) ensures SameAt(disk, WithCache(disk, cache, now), place) {
      if place.0 == Cache {
        assert place.1 !in paths;
        if place.1 in cache {
          assert place.1 in CacheOf(disk) && cache[place.1] == CacheOf(disk)[place.1];
          assert place == (Cache, place.1);
        }
      }
    }
  }

  lemma LoaderTouches(env: Environment, disk: Disk, entries: seq<LoaderPlans.ArchiveEntry>, processors: seq<LoaderPlans.Processor>, now: nat)
    requires Contained(env.tools, processors)
    ensures SameOff(disk, RunLoader(env, disk, entries, processors, now).disk, LoaderPlaces(entries, processors))
  {
    var before := CacheOf(disk);
    var (extracted, error) := LoaderPlans.Extract(env.tools, before, entries, None);
    var paths := LoaderPlans.Destinations(entries) + LoaderPlans.Declared(processors);
    ExtractWrites(env.tools, before, entries);
    ExecuteWrites(env.tools, extracted, processors);
    WithCacheTouches(disk, if error.Some? then extracted else LoaderPlans.Execute(env.tools, extracted, processors, None).cache, now, paths);
  }

  /** Every place the plan names, apart from the natives. */
  ghost function PlanPlaces(plan: RepairPlan): set<Place> {
    RequestPlaces(plan.downloads) + LoaderPlaces(plan.entries, plan.processors) + CopyPlaces(plan.copies)
  }

  predicate Extracts(plan: RepairPlan, archives: seq<Extraction>) {
    plan.nativeInvalid && archives != []
  }

  ghost predicate Touched(plan: RepairPlan, archives: seq<Extraction>, place: Place) {
    || place in PlanPlaces(plan)
    || (if Extracts(plan, archives) then InNatives(place) else place in RemovalPlaces(plan.removals))
  }

  lemma TouchTransitively(a: Disk, b: Disk, c: Disk, first: set<Place>, second: set<Place>)
    requires SameOff(a, b, first) && SameOff(b, c, second)
    ensures SameOff(a, c, first + second)
  {
  }

  lemma TouchMore(a: Disk, b: Disk, few: set<Place>, more: set<Place>)
    requires SameOff(a, b, few) && few <= more
    ensures SameOff(a, b, more)
  {
  }

  lemma PhasesTouch(env: Environment, disk: Disk, plan: RepairPlan, now: nat)
    requires Contained(env.tools, plan.processors)
    ensures SameOff(disk, AfterLoader(env, disk, plan, now).disk, RequestPlaces(plan.downloads) + LoaderPlaces(plan.entries, plan.processors))
    ensures SameOff(disk, AfterCopies(env, disk, plan, now).disk, PlanPlaces(plan))
  {
    var requests, steps, copies := RequestPlaces(plan.downloads), LoaderPlaces(plan.entries, plan.processors), CopyPlaces(plan.copies);
    var d := Downloads(env, disk, plan.downloads, now);
    DownloadsTouch(env, disk, plan.downloads, now);
    LoaderTouches(env, d.disk, plan.entries, plan.processors, now);
    TouchTransitively(disk, d.disk, RunLoader(env, d.disk, plan.entries, plan.processors, now).disk, requests, steps);
    var l := AfterLoader(env, disk, plan, now);
    CopyPhasesTouch(env, l.disk, plan.copies, now);
    if l.error.None? {
      TouchTransitively(disk, l.disk, AfterCopies(env, disk, plan, now).disk, requests + steps, copies);
    }
  }

  lemma CopyPhasesTouch(env: Environment, disk: Disk, copies: seq<Copy>, now: nat)
    ensures SameOff(disk, Copies(env, disk, OnlyInto(copies, Cache), now).disk, CopyPlaces(copies))
    ensures
      var c := Copies(env, disk, OnlyInto(copies, Cache), now);
      SameOff(disk, Copies(env, c.disk, OnlyInto(copies, Instance), now).disk, CopyPlaces(copies))
  {
    var c := Copies(env, disk, OnlyInto(copies, Cache), now);
    OnlyIntoIsPart(copies, Cache);
    OnlyIntoIsPart(copies, Instance);
    CopiesTouch(env, disk, OnlyInto(copies, Cache), now);
    CopiesTouch(env, c.disk, OnlyInto(copies, Instance), now);
    TouchMore(disk, c.disk, CopyPlaces(OnlyInto(copies, Cache)), CopyPlaces(copies));
    TouchMore(c.disk, Copies(env, c.disk, OnlyInto(copies, Instance), now).disk, CopyPlaces(OnlyInto(copies, Instance)), CopyPlaces(copies));
    TouchTransitively(disk, c.disk, Copies(env, c.disk, OnlyInto(copies, Instance), now).disk, CopyPlaces(copies), CopyPlaces(copies));
  }

  /** However a repair ends, it has changed nothing outside its destinations, removals, processor outputs and the natives. */
  lemma RepairIsFramed(env: Environment, disk: Disk, plan: RepairPlan, archives: seq<Extraction>, now: nat, place: Place)
    requires Contained(env.tools, plan.processors) && !Touched(plan, archives, place)
    ensures SameAt(disk, Execute(env, disk, plan, archives, now).disk, place)
  {
    PhasesTouch(env, disk, plan, now);
    var c := AfterCopies(env, disk, plan, now);
    RemovalsTouch(c.disk, plan.removals);
  }

  // ---- the recorded contents come back

  /** The size and hash accept this content and no other. */
  ghost predicate Exactly(content: Bytes, size: Option<nat>, hash: Option<FileHash>) {
    forall bytes :: Matches(bytes, size, hash) <==> bytes == content
  }

  ghost predicate Held(disk: Disk, recorded: Recorded, place: Place) {
    place in recorded && IsFile(disk, place) && disk[place].bytes == recorded[place]
  }

  ghost predicate Unblocked(disk: Disk, recorded: Recorded) {
    forall place :: place in recorded ==> !Blocked(disk, place)
  }

  /** What is right stays right, and the targets become right. */
  ghost predicate Restores(before: Disk, after: Disk, recorded: Recorded, targets: set<Place>) {
    forall place :: place in recorded && (Held(before, recorded, place) || place in targets) ==> Held(after, recorded, place)
  }

  lemma RestoreTransitively(a: Disk, b: Disk, c: Disk, recorded: Recorded, first: set<Place>, second: set<Place>)
    requires Restores(a, b, recorded, first) && Restores(b, c, recorded, second)
    ensures Restores(a, c, recorded, first + second)
  {
  }

  ghost predicate Served(env: Environment, recorded: Recorded, q: Request) {
    var place := (Cache, q.path);
    place in recorded && env.fetch(q.source) == Some(recorded[place]) && Exactly(recorded[place], q.size, q.hash)
  }

  lemma DownloadOneRestores(env: Environment, disk: Disk, q: Request, now: nat, recorded: Recorded)
    requires Served(env, recorded, q) && Unblocked(disk, recorded)
    ensures
      var r := DownloadOne(env, disk, q, now);
      r.error.None? && Restores(disk, r.disk, recorded, {(Cache, q.path)}) && Unblocked(r.disk, recorded)
  {
    assert Matches(recorded[(Cache, q.path)], q.size, q.hash);
  }

  lemma {:induction false} DownloadsRestore(env: Environment, disk: Disk, requests: seq<Request>, now: nat, recorded: Recorded)
    requires Unblocked(disk, recorded) && forall q :: q in requests ==> Served(env, recorded, q)
    ensures
      var r := Downloads(env, disk, requests, now);
      r.error.None? && Restores(disk, r.disk, recorded, RequestPlaces(requests)) && Unblocked(r.disk, recorded)
    decreases |requests|
  {
    if requests != [] {
      var q, rest := requests[0], requests[1..];
      assert requests == [q] + rest;
      DownloadOneRestores(env, disk, q, now, recorded);
      var one := DownloadOne(env, disk, q, now);
      DownloadsRestore(env, one.disk, rest, now, recorded);
      RestoreTransitively(disk, one.disk, Downloads(env, one.disk, rest, now).disk, recorded, {(Cache, q.path)}, RequestPlaces(rest));
      assert RequestPlaces(requests) == {(Cache, q.path)} + RequestPlaces(rest);
    }
  }

  /** The copy's source holds what the destination should. */
  ghost predicate Sourced(env: Environment, disk: Disk, recorded: Recorded, c: Copy) {
    && c.destination in recorded && Exactly(recorded[c.destination], c.size, c.hash)
    && match c.source
       case Outside(file) => env.outside(file) == Some(recorded[c.destination])
       case Cached(path) => Held(disk, recorded, (Cache, path)) && recorded[(Cache, path)] == recorded[c.destination]
  }

  lemma CopyOneRestores(env: Environment, disk: Disk, c: Copy, now: nat, recorded: Recorded)
    requires Sourced(env, disk, recorded, c) && Unblocked(disk, recorded)
    ensures
      var r := CopyOne(env, disk, c, now);
      r.error.None? && Restores(disk, r.disk, recorded, {c.destination}) && Unblocked(r.disk, recorded)
  {
    assert Matches(recorded[c.destination], c.size, c.hash);
  }

  lemma {:induction false} CopiesRestore(env: Environment, disk: Disk, copies: seq<Copy>, now: nat, recorded: Recorded)
    requires Unblocked(disk, recorded) && forall c :: c in copies ==> Sourced(env, disk, recorded, c)
    ensures
      var r := Copies(env, disk, copies, now);
      r.error.None? && Restores(disk, r.disk, recorded, CopyPlaces(copies)) && Unblocked(r.disk, recorded)
    decreases |copies|
  {
    if copies != [] {
      var c, rest := copies[0], copies[1..];
      assert copies == [c] + rest;
      CopyOneRestores(env, disk, c, now, recorded);
      var one := CopyOne(env, disk, c, now);
      forall d | d in rest ensures Sourced(env, one.disk, recorded, d) { assert d in copies && Sourced(env, disk, recorded, d); }
      CopiesRestore(env, one.disk, rest, now, recorded);
      RestoreTransitively(disk, one.disk, Copies(env, one.disk, rest, now).disk, recorded, {c.destination}, CopyPlaces(rest));
      assert CopyPlaces(copies) == {c.destination} + CopyPlaces(rest);
    }
  }

  // ---- the loader's part, seen in the cache

  ghost predicate CacheHeld(cache: LoaderPlans.Cache, recorded: Recorded, path: RelativePath) {
    (Cache, path) in recorded && path in cache && cache[path] == recorded[(Cache, path)]
  }

  /** The cache paths that hold their recorded content. */
  ghost function Good(cache: LoaderPlans.Cache, recorded: Recorded): set<RelativePath> {
    set place | place in recorded && place.0 == Cache && CacheHeld(cache, recorded, place.1) :: place.1
  }

  lemma GoodMeansHeld(cache: LoaderPlans.Cache, recorded: Recorded, path: RelativePath)
    ensures path in Good(cache, recorded) <==> CacheHeld(cache, recorded, path)
  {
    if CacheHeld(cache, recorded, path) { assert (Cache, path) in recorded && (Cache, path).1 == path; }
  }

  /** Writing recorded contents makes exactly those paths good. */
  lemma GoodGrows(before: LoaderPlans.Cache, after: LoaderPlans.Cache, recorded: Recorded, paths: set<RelativePath>)
    requires LoaderPlans.AgreeOutside(after, before, paths)
    requires forall path :: path in paths ==> CacheHeld(after, recorded, path)
    ensures Good(after, recorded) == Good(before, recorded) + paths
  {
    forall path ensures path in Good(after, recorded) <==> path in Good(before, recorded) + paths {
      GoodMeansHeld(before, recorded, path);
      GoodMeansHeld(after, recorded, path);
    }
  }

  /** The archive entry yields the recorded content when its archive does. */
  ghost predicate Yields(tools: LoaderPlans.Tools, recorded: Recorded, e: LoaderPlans.ArchiveEntry) {
    && (Cache, e.archive) in recorded && (Cache, e.destination) in recorded
    && tools.unzip(recorded[(Cache, e.archive)], e.entry) == Some(recorded[(Cache, e.destination)])
    && Matches(recorded[(Cache, e.destination)], None, e.hash)
  }

  /** Every entry finds its archive good: from the start, or because an earlier entry extracted it. */
  ghost predicate EntriesFed(good: set<RelativePath>, entries: seq<LoaderPlans.ArchiveEntry>)
    decreases |entries|
  {
    entries == [] || (entries[0].archive in good && EntriesFed(good + {entries[0].destination}, entries[1..]))
  }

  lemma {:induction false} ExtractRestores(tools: LoaderPlans.Tools, cache: LoaderPlans.Cache, entries: seq<LoaderPlans.ArchiveEntry>, recorded: Recorded)
    requires forall e :: e in entries ==> Yields(tools, recorded, e)
    requires EntriesFed(Good(cache, recorded), entries)
    ensures
      var r := LoaderPlans.Extract(tools, cache, entries, None);
      r.1.None? && Good(r.0, recorded) == Good(cache, recorded) + LoaderPlans.Destinations(entries)
    decreases |entries|
  {
    if entries == [] {
      assert LoaderPlans.Destinations(entries) == {};
    } else {
      var e, rest := entries[0], entries[1..];
      assert entries == [e] + rest && e in entries;
      GoodMeansHeld(cache, recorded, e.archive);
      var next := cache[e.destination := recorded[(Cache, e.destination)]];
      GoodGrows(cache, next, recorded, {e.destination});
      ExtractRestores(tools, next, rest, recorded);
      assert LoaderPlans.Destinations(entries) == {e.destination} + LoaderPlans.Destinations(rest);
    }
  }

  /** The archives of these entries yield nothing at all unless they hold what was recorded. */
  ghost predicate FragileEntries(tools: LoaderPlans.Tools, recorded: Recorded, entries: seq<LoaderPlans.ArchiveEntry>) {
    forall e, bytes :: e in entries && (Cache, e.archive) in recorded && bytes != recorded[(Cache, e.archive)] ==> tools.unzip(bytes, e.entry).None?
  }

  lemma {:induction false} UnfedEntriesFail(tools: LoaderPlans.Tools, cache: LoaderPlans.Cache, entries: seq<LoaderPlans.ArchiveEntry>, recorded: Recorded)
    requires forall e :: e in entries ==> Yields(tools, recorded, e)
    requires FragileEntries(tools, recorded, entries) && !EntriesFed(Good(cache, recorded), entries)
    ensures LoaderPlans.Extract(tools, cache, entries, None).1.Some?
    decreases |entries|
  {
    var e, rest := entries[0], entries[1..];
    assert entries == [e] + rest && e in entries;
    GoodMeansHeld(cache, recorded, e.archive);
    if e.archive in Good(cache, recorded) {
      var next := cache[e.destination := recorded[(Cache, e.destination)]];
      GoodGrows(cache, next, recorded, {e.destination});
      UnfedEntriesFail(tools, next, rest, recorded);
    }
  }

  /** The processor turns recorded inputs into exactly its recorded outputs, and its pins fit them. */
  ghost predicate Rebuilds(tools: LoaderPlans.Tools, recorded: Recorded, p: LoaderPlans.Processor) {
    && (forall path :: path in p.inputs ==> (Cache, path) in recorded)
    && (forall o :: o in p.outputs ==> (Cache, o.path) in recorded)
    && tools.run(p.id, RecordedInputs(recorded, p)) == (RecordedOutputs(recorded, p), true)
    && (forall o :: o in p.outputs ==> PinFits(recorded, o))
  }

  ghost predicate PinFits(recorded: Recorded, o: LoaderPlans.Output)
    requires (Cache, o.path) in recorded
  {
    && Matches(recorded[(Cache, o.path)], o.size, o.hash)
    && ((o.size.Some? || o.hash.Some?) ==> Exactly(recorded[(Cache, o.path)], o.size, o.hash))
  }

  ghost function RecordedInputs(recorded: Recorded, p: LoaderPlans.Processor): LoaderPlans.Cache
    requires forall path :: path in p.inputs ==> (Cache, path) in recorded
  {
    map path | path in p.inputs :: recorded[(Cache, path)]
  }

  ghost function RecordedOutputs(recorded: Recorded, p: LoaderPlans.Processor): LoaderPlans.Cache
    requires forall o :: o in p.outputs ==> (Cache, o.path) in recorded
  {
    map path | path in LoaderPlans.PathsOf(p.outputs) :: recorded[(Cache, path)]
  }

  lemma {:induction false} PinsSucceed(cache: LoaderPlans.Cache, id: string, outputs: seq<LoaderPlans.Output>, recorded: Recorded)
    requires forall o :: o in outputs ==> CacheHeld(cache, recorded, o.path) && PinFits(recorded, o)
    ensures LoaderPlans.PinAll(cache, id, outputs).1.None?
  {
    if outputs != [] {
      assert outputs == [outputs[0]] + outputs[1..] && outputs[0] in outputs;
      PinsSucceed(cache, id, outputs[1..], recorded);
    }
  }

  /** A processor gets its outputs right: it reads good inputs, or it is skipped because its pinned outputs are good already. */
  ghost predicate CanRun(good: set<RelativePath>, p: LoaderPlans.Processor) {
    || p.inputs <= good
    || (p.outputs != [] && forall o :: o in p.outputs ==> (o.size.Some? || o.hash.Some?) && o.path in good)
  }

  /** Every processor can run where it stands in the queue, on what the earlier ones leave. */
  ghost predicate ProcessorsFed(good: set<RelativePath>, processors: seq<LoaderPlans.Processor>)
    decreases |processors|
  {
    processors == [] ||
    (CanRun(good, processors[0]) && ProcessorsFed(good + LoaderPlans.PathsOf(processors[0].outputs), processors[1..]))
  }

  /** Skipping happens exactly when every output is pinned and good. */
  lemma SkippedMeansGood(tools: LoaderPlans.Tools, cache: LoaderPlans.Cache, p: LoaderPlans.Processor, recorded: Recorded)
    requires Rebuilds(tools, recorded, p)
    ensures LoaderPlans.OutputsValid(cache, p) <==>
            p.outputs != [] && forall o :: o in p.outputs ==> (o.size.Some? || o.hash.Some?) && o.path in Good(cache, recorded)
  {
    forall o | o in p.outputs
      ensures LoaderPlans.OutputIntact(cache, o) <==> (o.size.Some? || o.hash.Some?) && o.path in Good(cache, recorded)
    {
      GoodMeansHeld(cache, recorded, o.path);
      assert PinFits(recorded, o);
    }
  }

  lemma FedInputsAreRecorded(cache: LoaderPlans.Cache, p: LoaderPlans.Processor, recorded: Recorded)
    requires forall path :: path in p.inputs ==> (Cache, path) in recorded
    ensures p.inputs <= Good(cache, recorded) <==> LoaderPlans.Restrict(cache, p.inputs) == RecordedInputs(recorded, p)
  {
    forall path | path in p.inputs ensures path in Good(cache, recorded) <==> path in cache && cache[path] == recorded[(Cache, path)] {
      GoodMeansHeld(cache, recorded, path);
    }
    var seen, wanted := LoaderPlans.Restrict(cache, p.inputs), RecordedInputs(recorded, p);
    if seen == wanted {
      forall path | path in p.inputs ensures path in cache && cache[path] == recorded[(Cache, path)] {
        assert path in wanted && path in seen;
      }
    }
  }

  lemma StepRestoresOutputs(tools: LoaderPlans.Tools, cache: LoaderPlans.Cache, p: LoaderPlans.Processor, recorded: Recorded)
    requires Rebuilds(tools, recorded, p) && CanRun(Good(cache, recorded), p)
    ensures
      var (after, pinned, error) := LoaderPlans.Step(tools, cache, p);
      error.None? && Good(after, recorded) == Good(cache, recorded) + LoaderPlans.PathsOf(p.outputs)
  {
    SkippedMeansGood(tools, cache, p, recorded);
    if LoaderPlans.OutputsValid(cache, p) {
      assert LoaderPlans.PathsOf(p.outputs) <= Good(cache, recorded);
    } else {
      FedInputsAreRecorded(cache, p, recorded);
      var after := cache + RecordedOutputs(recorded, p);
      forall o | o in p.outputs ensures CacheHeld(after, recorded, o.path) { assert o.path in LoaderPlans.PathsOf(p.outputs); }
      PinsSucceed(after, p.id, p.outputs, recorded);
      GoodGrows(cache, after, recorded, LoaderPlans.PathsOf(p.outputs));
    }
  }

  lemma {:induction false} ExecuteRestores(tools: LoaderPlans.Tools, cache: LoaderPlans.Cache, processors: seq<LoaderPlans.Processor>, recorded: Recorded)
    requires forall p :: p in processors ==> Rebuilds(tools, recorded, p)
    requires ProcessorsFed(Good(cache, recorded), processors)
    ensures
      var o := LoaderPlans.Execute(tools, cache, processors, None);
      o.error.None? && Good(o.cache, recorded) == Good(cache, recorded) + LoaderPlans.Declared(processors)
    decreases |processors|
  {
    if processors == [] {
      assert LoaderPlans.Declared(processors) == {};
    } else {
      var p, rest := processors[0], processors[1..];
      assert processors == [p] + rest && p in processors;
      StepRestoresOutputs(tools, cache, p, recorded);
      ExecuteRestores(tools, LoaderPlans.Step(tools, cache, p).0, rest, recorded);
      LoaderPlans.DeclaredCons(p, rest);
    }
  }

  /** These processors fail on any input but the recorded one. */
  ghost predicate FragileProcessors(tools: LoaderPlans.Tools, recorded: Recorded, processors: seq<LoaderPlans.Processor>) {
    forall p, inputs :: p in processors && (forall path :: path in p.inputs ==> (Cache, path) in recorded) && inputs != RecordedInputs(recorded, p) ==>
      !tools.run(p.id, inputs).1
  }

  lemma UnfedStepFails(tools: LoaderPlans.Tools, cache: LoaderPlans.Cache, p: LoaderPlans.Processor, recorded: Recorded)
    requires Rebuilds(tools, recorded, p) && FragileProcessors(tools, recorded, [p]) && !CanRun(Good(cache, recorded), p)
    ensures LoaderPlans.Step(tools, cache, p).2.Some?
  {
    SkippedMeansGood(tools, cache, p, recorded);
    FedInputsAreRecorded(cache, p, recorded);
    assert p in [p];
  }

  lemma {:induction false} UnfedProcessorsFail(tools: LoaderPlans.Tools, cache: LoaderPlans.Cache, processors: seq<LoaderPlans.Processor>, recorded: Recorded)
    requires forall p :: p in processors ==> Rebuilds(tools, recorded, p)
    requires FragileProcessors(tools, recorded, processors) && !ProcessorsFed(Good(cache, recorded), processors)
    ensures LoaderPlans.Execute(tools, cache, processors, None).error.Some?
    decreases |processors|
  {
    var p, rest := processors[0], processors[1..];
    assert processors == [p] + rest && p in processors;
    if CanRun(Good(cache, recorded), p) {
      StepRestoresOutputs(tools, cache, p, recorded);
      UnfedProcessorsFail(tools, LoaderPlans.Step(tools, cache, p).0, rest, recorded);
    } else {
      UnfedStepFails(tools, cache, p, recorded);
    }
  }

  lemma CacheViewHolds(disk: Disk, recorded: Recorded, path: RelativePath)
    ensures Held(disk, recorded, (Cache, path)) <==> CacheHeld(CacheOf(disk), recorded, path)
  {
    if IsFile(disk, (Cache, path)) { assert (Cache, path).1 in CachePaths(disk); }
  }

  lemma WithCacheHolds(disk: Disk, cache: LoaderPlans.Cache, now: nat, recorded: Recorded, targets: set<RelativePath>)
    requires Good(cache, recorded) == Good(CacheOf(disk), recorded) + targets && Unblocked(disk, recorded)
    ensures Restores(disk, WithCache(disk, cache, now), recorded, set p | p in targets :: (Cache, p))
    ensures Unblocked(WithCache(disk, cache, now), recorded)
  {
    var after := WithCache(disk, cache, now);
    forall place | place in recorded && (Held(disk, recorded, place) || place in (set p | p in targets :: (Cache, p))) ensures Held(after, recorded, place) {
      if place.0 == Cache {
        CacheViewHolds(disk, recorded, place.1);
        GoodMeansHeld(CacheOf(disk), recorded, place.1);
        GoodMeansHeld(cache, recorded, place.1);
        assert place == (Cache, place.1);
      }
    }
  }

  /** The queued loader steps, each fed where it stands, starting from the good paths. */
  ghost predicate StepsFed(good: set<RelativePath>, plan: RepairPlan) {
    EntriesFed(good, plan.entries) && ProcessorsFed(good + LoaderPlans.Destinations(plan.entries), plan.processors)
  }

  /** The queued steps do what was recorded when they are given what was recorded. */
  ghost predicate StepsRebuild(tools: LoaderPlans.Tools, recorded: Recorded, plan: RepairPlan) {
    && (forall e :: e in plan.entries ==> Yields(tools, recorded, e))
    && (forall p :: p in plan.processors ==> Rebuilds(tools, recorded, p))
  }

  lemma LoaderRestores(env: Environment, disk: Disk, plan: RepairPlan, now: nat, recorded: Recorded)
    requires StepsRebuild(env.tools, recorded, plan) && StepsFed(Good(CacheOf(disk), recorded), plan) && Unblocked(disk, recorded)
    ensures
      var r := RunLoader(env, disk, plan.entries, plan.processors, now);
      && r.error.None? && Unblocked(r.disk, recorded)
      && Restores(disk, r.disk, recorded, LoaderPlaces(plan.entries, plan.processors))
  {
    var before := CacheOf(disk);
    ExtractRestores(env.tools, before, plan.entries, recorded);
    var extracted := LoaderPlans.Extract(env.tools, before, plan.entries, None).0;
    ExecuteRestores(env.tools, extracted, plan.processors, recorded);
    var after := LoaderPlans.Execute(env.tools, extracted, plan.processors, None).cache;
    var targets := LoaderPlans.Destinations(plan.entries) + LoaderPlans.Declared(plan.processors);
    assert Good(after, recorded) == Good(before, recorded) + targets;
    WithCacheHolds(disk, after, now, recorded, targets);
  }

  /** Steps that accept nothing but what was recorded fail when one of them is not fed. */
  lemma UnfedLoaderFails(env: Environment, disk: Disk, plan: RepairPlan, now: nat, recorded: Recorded)
    requires StepsRebuild(env.tools, recorded, plan) && !StepsFed(Good(CacheOf(disk), recorded), plan)
    requires FragileEntries(env.tools, recorded, plan.entries) && FragileProcessors(env.tools, recorded, plan.processors)
    ensures RunLoader(env, disk, plan.entries, plan.processors, now).error.Some?
  {
    var before := CacheOf(disk);
    if EntriesFed(Good(before, recorded), plan.entries) {
      ExtractRestores(env.tools, before, plan.entries, recorded);
      UnfedProcessorsFail(env.tools, LoaderPlans.Extract(env.tools, before, plan.entries, None).0, plan.processors, recorded);
    } else {
      UnfedEntriesFail(env.tools, before, plan.entries, recorded);
    }
  }

  ghost function RequestPaths(requests: seq<Request>): set<RelativePath> {
    set q | q in requests :: q.path
  }

  /** Downloads make exactly the requested paths good. */
  lemma GoodAfterDownloads(env: Environment, disk: Disk, requests: seq<Request>, now: nat, recorded: Recorded)
    requires Unblocked(disk, recorded) && forall q :: q in requests ==> Served(env, recorded, q)
    ensures Good(CacheOf(Downloads(env, disk, requests, now).disk), recorded) == Good(CacheOf(disk), recorded) + RequestPaths(requests)
  {
    var after := Downloads(env, disk, requests, now).disk;
    DownloadsRestore(env, disk, requests, now, recorded);
    DownloadsTouch(env, disk, requests, now);
    forall path ensures path in Good(CacheOf(after), recorded) <==> path in Good(CacheOf(disk), recorded) + RequestPaths(requests) {
      CacheViewHolds(disk, recorded, path);
      CacheViewHolds(after, recorded, path);
      GoodMeansHeld(CacheOf(disk), recorded, path);
      GoodMeansHeld(CacheOf(after), recorded, path);
      assert path in RequestPaths(requests) <==> (Cache, path) in RequestPlaces(requests);
      if path in RequestPaths(requests) { assert (Cache, path) in recorded; } else { assert SameAt(disk, after, (Cache, path)); }
    }
  }
}
