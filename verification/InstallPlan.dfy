/** Assembling the downloads of an installation, and working through them. */
module InstallPlans {
  import opened Wrappers
  import opened Contents
  import opened Ordering

  datatype Phase = Metadata | Client | Libraries | Assets | Natives | Logging | Loader | Finalizing

  datatype Download = Download(phase: Phase, id: string, source: string, destination: string, size: Option<nat>, hash: Option<FileHash>)

  /** Two downloads to one destination may stand for each other. */
  predicate Agree(a: Download, b: Download) {
    a.source == b.source && a.hash == b.hash
  }

  ghost predicate DistinctDestinations(ds: seq<Download>) {
    forall i, j :: 0 <= i < j < |ds| ==> ds[i].destination != ds[j].destination
  }

  /** The first entry for each destination. */
  function Firsts(ds: seq<Download>): map<string, Download> {
    if ds == [] then map[]
    else
      var before, d := Firsts(ds[..|ds| - 1]), ds[|ds| - 1];
      if d.destination in before then before else before[d.destination := d]
  }

  /** The destination of the first entry that disagrees with the earlier one it would be merged into. */
  function Clash(ds: seq<Download>): Option<string> {
    if ds == [] then None
    else
      var before, d := ds[..|ds| - 1], ds[|ds| - 1];
      match Clash(before)
      case Some(destination) => Some(destination)
      case None =>
        if d.destination in Firsts(before) && !Agree(Firsts(before)[d.destination], d) then Some(d.destination) else None
  }

  function Values(m: map<string, Download>, keys: seq<string>): (r: seq<Download>)
    requires forall k :: k in keys ==> k in m
    ensures |r| == |keys| && forall i :: 0 <= i < |keys| ==> r[i] == m[keys[i]]
  {
    if keys == [] then [] else [m[keys[0]]] + Values(m, keys[1..])
  }

  function InOrder(m: map<string, Download>): seq<Download> {
    Values(m, Ascending(m.Keys))
  }

  lemma {:induction false} FirstsSpec(ds: seq<Download>)
    ensures forall k :: k in Firsts(ds) <==> exists d :: d in ds && d.destination == k
    ensures forall k :: k in Firsts(ds) ==> Firsts(ds)[k] in ds && Firsts(ds)[k].destination == k
  {
    if ds != [] {
      FirstsSpec(ds[..|ds| - 1]);
      assert ds == ds[..|ds| - 1] + [ds[|ds| - 1]];
    }
  }

  /** An entry is kept exactly when no earlier one has its destination. */
  lemma {:induction false} EarlierEntryWins(ds: seq<Download>, i: nat)
    requires i < |ds| && forall j :: 0 <= j < i ==> ds[j].destination != ds[i].destination
    ensures ds[i].destination in Firsts(ds) && Firsts(ds)[ds[i].destination] == ds[i]
  {
    var front := ds[..|ds| - 1];
    if i < |front| {
      EarlierEntryWins(front, i);
    } else {
      FirstsSpec(front);
    }
  }

  lemma {:induction false} ClashSpec(ds: seq<Download>)
    ensures Clash(ds).None? ==> forall d :: d in ds ==> d.destination in Firsts(ds) && Agree(Firsts(ds)[d.destination], d)
    ensures Clash(ds).Some? ==> exists i, j :: 0 <= i < j < |ds| && Disagree(ds, i, j) && ds[j].destination == Clash(ds).value
  {
    if ds != [] {
      var front, d := ds[..|ds| - 1], ds[|ds| - 1];
      ClashSpec(front);
      FirstsSpec(front);
      assert ds == front + [d];
      if Clash(front).Some? {
        var i, j :| 0 <= i < j < |front| && Disagree(front, i, j) && front[j].destination == Clash(front).value;
        assert Disagree(ds, i, j);
      } else if Clash(ds).Some? {
        var first := Firsts(front)[d.destination];
        var i :| 0 <= i < |front| && front[i] == first;
        assert ds[i] == first && Disagree(ds, i, |front|);
      }
    }
  }

  predicate Disagree(ds: seq<Download>, i: nat, j: nat)
    requires i < |ds| && j < |ds|
  {
    ds[i].destination == ds[j].destination && !Agree(ds[i], ds[j])
  }

  /** Merging fails exactly when two entries for one destination disagree on source or hash. */
  lemma ClashIffDisagreement(ds: seq<Download>)
    ensures Clash(ds).Some? <==> exists i, j :: 0 <= i < j < |ds| && Disagree(ds, i, j)
  {
    ClashSpec(ds);
    if Clash(ds).None? {
      forall i, j | 0 <= i < j < |ds| ensures !Disagree(ds, i, j) {
        assert ds[i] in ds && ds[j] in ds;
      }
    }
  }

  lemma InOrderIsDistinct(m: map<string, Download>)
    requires forall k :: k in m ==> m[k].destination == k
    ensures DistinctDestinations(InOrder(m))
    ensures forall d :: d in InOrder(m) <==> d.destination in m && m[d.destination] == d
  {
    var keys, ds := Ascending(m.Keys), InOrder(m);
    forall i, j | 0 <= i < j < |ds| ensures ds[i].destination != ds[j].destination {
      assert keys[i] in keys && keys[j] in keys;
    }
    forall d ensures d in ds <==> d.destination in m && m[d.destination] == d {
      if d in ds {
        var i :| 0 <= i < |ds| && ds[i] == d;
        assert keys[i] in keys;
      }
      if d.destination in m && m[d.destination] == d {
        assert d.destination in keys;
        var i :| 0 <= i < |keys| && keys[i] == d.destination;
        assert ds[i] == d;
      }
    }
  }

  // ---- the known total

  function AllSizesKnown(ds: seq<Download>): bool {
    forall d :: d in ds ==> d.size.Some?
  }

  function SumSizes(ds: seq<Download>): nat
    requires AllSizesKnown(ds)
  {
    if ds == [] then 0 else ds[0].size.value + SumSizes(ds[1..])
  }

  function TotalBytes(ds: seq<Download>): Option<nat> {
    if AllSizesKnown(ds) then Some(SumSizes(ds)) else None
  }

  lemma {:induction false} SumAppend(ds: seq<Download>, d: Download)
    requires AllSizesKnown(ds) && d.size.Some?
    ensures SumSizes(ds + [d]) == SumSizes(ds) + d.size.value
  {
    if ds == [] {
      assert [d][1..] == [];
      assert [] + [d] == [d];
    } else {
      assert (ds + [d])[1..] == ds[1..] + [d];
      SumAppend(ds[1..], d);
    }
  }

  method ComputeTotal(ds: seq<Download>) returns (total: Option<nat>)
    ensures total == TotalBytes(ds)
  {
    var sum := 0;
    for i := 0 to |ds|
      invariant AllSizesKnown(ds[..i]) && sum == SumSizes(ds[..i])
    {
      if ds[i].size.None? {
        assert ds[i] in ds;
        return None;
      }
      SumAppend(ds[..i], ds[i]);
      assert ds[..i + 1] == ds[..i] + [ds[i]];
      sum := sum + ds[i].size.value;
    }
    assert ds[..|ds|] == ds;
    total := Some(sum);
  }

  // ---- assembly

  /** What a resolved version contributes: a client, libraries with optional natives, assets, a logging file. */
  datatype Parts = Parts(client: Download, libraries: seq<Library>, assets: seq<Download>, logging: Option<Download>)

  datatype Library = Library(artifact: Option<Download>, native: Option<Download>)

  function Keep(tasks: map<string, Download>, d: Download): map<string, Download> {
    if d.destination in tasks then tasks else tasks[d.destination := d]
  }

  function KeepSome(tasks: map<string, Download>, d: Option<Download>): map<string, Download> {
    if d.Some? then Keep(tasks, d.value) else tasks
  }

  function LibraryDownloads(libraries: seq<Library>): seq<Download> {
    if libraries == [] then []
    else
      var last := libraries[|libraries| - 1];
      LibraryDownloads(libraries[..|libraries| - 1]) + Optional(last.artifact) + Optional(last.native)
  }

  function Optional(d: Option<Download>): seq<Download> {
    if d.Some? then [d.value] else []
  }

  /** Everything that is only entered where the destination is still free, in order. */
  function Offered(parts: Parts): seq<Download> {
    [parts.client] + LibraryDownloads(parts.libraries) + parts.assets
  }

  /** The task table: first offer per destination, except that the logging file replaces what it finds. */
  function Tasks(parts: Parts): map<string, Download> {
    var offered := Firsts(Offered(parts));
    if parts.logging.Some? then offered[parts.logging.value.destination := parts.logging.value] else offered
  }

  lemma FirstsAppend(ds: seq<Download>, d: Download)
    ensures Firsts(ds + [d]) == Keep(Firsts(ds), d)
  {
    assert (ds + [d])[..|ds|] == ds;
  }

  lemma FirstsAppendSome(ds: seq<Download>, d: Option<Download>)
    ensures Firsts(ds + Optional(d)) == KeepSome(Firsts(ds), d)
  {
    if d.Some? { FirstsAppend(ds, d.value); } else { assert ds + [] == ds; }
  }

  lemma LibraryStep(start: seq<Download>, libraries: seq<Library>, i: nat)
    requires i < |libraries|
    ensures Firsts(start + LibraryDownloads(libraries[..i + 1])) ==
            KeepSome(KeepSome(Firsts(start + LibraryDownloads(libraries[..i])), libraries[i].artifact), libraries[i].native)
  {
    var before, library := start + LibraryDownloads(libraries[..i]), libraries[i];
    assert libraries[..i + 1][..i] == libraries[..i];
    assert start + LibraryDownloads(libraries[..i + 1]) == before + Optional(library.artifact) + Optional(library.native);
    FirstsAppendSome(before, library.artifact);
    FirstsAppendSome(before + Optional(library.artifact), library.native);
  }

  datatype PlanError = DuplicatePath(destination: string)

  /** The plan, filled in place. */
  class InstallPlan {
    var downloads: seq<Download>
    var totalBytes: Option<nat>

    /** `finish_install_plan`. */
    constructor Finish(parts: Parts)
      ensures downloads == InOrder(Tasks(parts)) && totalBytes == TotalBytes(downloads)
    {
      var tasks := Keep(map[], parts.client);
      assert Firsts([parts.client]) == tasks by {
        FirstsAppend([], parts.client);
        assert [] + [parts.client] == [parts.client];
      }
      ghost var start := [parts.client];
      assert parts.libraries[..0] == [] && start + [] == start;
      for i := 0 to |parts.libraries|
        invariant tasks == Firsts(start + LibraryDownloads(parts.libraries[..i]))
      {
        LibraryStep(start, parts.libraries, i);
        tasks := KeepSome(tasks, parts.libraries[i].artifact);
        tasks := KeepSome(tasks, parts.libraries[i].native);
      }
      assert parts.libraries[..|parts.libraries|] == parts.libraries;
      ghost var middle := start + LibraryDownloads(parts.libraries);
      assert middle + parts.assets[..0] == middle;
      for i := 0 to |parts.assets|
        invariant tasks == Firsts(middle + parts.assets[..i])
      {
        assert middle + parts.assets[..i + 1] == (middle + parts.assets[..i]) + [parts.assets[i]];
        FirstsAppend(middle + parts.assets[..i], parts.assets[i]);
        tasks := Keep(tasks, parts.assets[i]);
      }
      assert middle + parts.assets[..|parts.assets|] == Offered(parts);
      if parts.logging.Some? {
        tasks := tasks[parts.logging.value.destination := parts.logging.value];
      }
      var ds := InOrder(tasks);
      var total := ComputeTotal(ds);
      downloads, totalBytes := ds, total;
    }

    method FindDestination(destination: string) returns (found: Option<Download>)
      ensures found.None? <==> forall d :: d in downloads ==> d.destination != destination
      ensures found.Some? ==> destination in Firsts(downloads) && Firsts(downloads)[destination] == found.value
    {
      for i := 0 to |downloads|
        invariant forall j :: 0 <= j < i ==> downloads[j].destination != destination
      {
        if downloads[i].destination == destination {
          EarlierEntryWins(downloads, i);
          return Some(downloads[i]);
        }
      }
      found := None;
    }

    /** `attach_loader`: append what the loader adds, insist on agreement where both have a destination. */
    method AttachLoader(loader: seq<Download>) returns (error: Option<PlanError>)
      requires DistinctDestinations(downloads)
      modifies this
      ensures error.None? <==> Clash(old(downloads) + loader).None?
      ensures error.Some? ==> Clash(old(downloads) + loader) == Some(error.value.destination)
      ensures error.None? ==> Attached(old(downloads), loader, downloads) && totalBytes == TotalBytes(downloads)
    {
      ghost var base := downloads;
      AttachedNothing(base, loader);
      for i := 0 to |loader|
        invariant Clash(base + loader[..i]).None?
        invariant Attached(base, loader[..i], downloads)
      {
        error := AttachOne(base, loader[..i], loader[i]);
        TakeOneMore(loader, i);
        if error.Some? {
          ClashIsFinal(base, loader, i + 1);
          return;
        }
      }
      assert loader[..|loader|] == loader;
      totalBytes := ComputeTotal(downloads);
      error := None;
    }

    /** One loader download meets the plan. */
    method AttachOne(ghost base: seq<Download>, ghost seen: seq<Download>, download: Download) returns (error: Option<PlanError>)
      requires Clash(base + seen).None? && Attached(base, seen, downloads)
      modifies this`downloads
      ensures error.None? <==> Clash(base + (seen + [download])).None?
      ensures error.Some? ==> Clash(base + (seen + [download])) == Some(error.value.destination)
      ensures error.None? ==> Attached(base, seen + [download], downloads)
    {
      MeetOne(base, seen, downloads, download);
      var existing := FindDestination(download.destination);
      FirstsSpec(downloads);
      if existing.Some? {
        if existing.value.source != download.source || existing.value.hash != download.hash {
          return Some(DuplicatePath(download.destination));
        }
      } else {
        downloads := downloads + [download.(phase := Loader)];
      }
      error := None;
    }
  }

  lemma ClashAppend(ds: seq<Download>, d: Download)
    requires Clash(ds).None?
    ensures Clash(ds + [d]) == if d.destination in Firsts(ds) && !Agree(Firsts(ds)[d.destination], d) then Some(d.destination) else None
  {
    assert (ds + [d])[..|ds|] == ds;
  }

  /** The merge as specified and the list as executed hold the same destinations, with agreeing entries. */
  ghost predicate SameMerge(executed: map<string, Download>, specified: map<string, Download>) {
    executed.Keys == specified.Keys && forall k :: k in executed ==> Agree(executed[k], specified[k])
  }

  lemma MeetKnown(executed: map<string, Download>, specified: map<string, Download>, d: Download)
    requires SameMerge(executed, specified)
    ensures d.destination in executed <==> d.destination in specified
    ensures d.destination in executed ==> (Agree(executed[d.destination], d) <==> Agree(specified[d.destination], d))
    ensures d.destination !in executed ==> SameMerge(Keep(executed, d.(phase := Loader)), Keep(specified, d))
  {
    assert d.destination in executed.Keys <==> d.destination in specified.Keys;
  }

  lemma Assoc(a: seq<Download>, b: seq<Download>, d: Download)
    ensures a + (b + [d]) == (a + b) + [d]
  {
  }

  /** How the next loader download changes the merge, both as specified and as executed. */
  lemma MeetOne(base: seq<Download>, seen: seq<Download>, ds: seq<Download>, d: Download)
    requires Clash(base + seen).None? && Attached(base, seen, ds)
    ensures
      var next := base + (seen + [d]);
      && (d.destination in Firsts(ds) && !Agree(Firsts(ds)[d.destination], d) ==> Clash(next) == Some(d.destination))
      && (d.destination in Firsts(ds) && Agree(Firsts(ds)[d.destination], d) ==> Clash(next).None? && Attached(base, seen + [d], ds))
      && (d.destination !in Firsts(ds) ==> Clash(next).None? && Attached(base, seen + [d], ds + [d.(phase := Loader)]))
  {
    Assoc(base, seen, d);
    ClashAppend(base + seen, d);
    FirstsAppend(base + seen, d);
    MeetKnown(Firsts(ds), Firsts(base + seen), d);
    AttachedOneMore(base, seen, d);
    if d.destination !in Firsts(ds) {
      FirstsAppend(ds, d.(phase := Loader));
      Assoc(base, Added(base, seen), d.(phase := Loader));
    }
  }

  /** The loader downloads for destinations the list does not have yet, each once. */
  function Added(base: seq<Download>, loader: seq<Download>): seq<Download> {
    if loader == [] then []
    else
      var before, d := Added(base, loader[..|loader| - 1]), loader[|loader| - 1];
      if d.destination in Firsts(base + loader[..|loader| - 1]) then before else before + [d.(phase := Loader)]
  }

  ghost predicate Attached(base: seq<Download>, loader: seq<Download>, result: seq<Download>) {
    && result == base + Added(base, loader)
    && SameMerge(Firsts(result), Firsts(base + loader))
  }

  lemma AttachedNothing(base: seq<Download>, loader: seq<Download>)
    requires DistinctDestinations(base)
    ensures Clash(base + loader[..0]).None? && Attached(base, loader[..0], base)
  {
    DistinctDoNotClash(base);
    assert base + loader[..0] == base;
  }

  lemma TakeOneMore(loader: seq<Download>, i: nat)
    requires i < |loader|
    ensures loader[..i + 1] == loader[..i] + [loader[i]]
  {
  }

  lemma AttachedOneMore(base: seq<Download>, loader: seq<Download>, d: Download)
    ensures Added(base, loader + [d]) ==
      if d.destination in Firsts(base + loader) then Added(base, loader) else Added(base, loader) + [d.(phase := Loader)]
  {
    assert (loader + [d])[..|loader|] == loader;
  }

  lemma DistinctDoNotClash(ds: seq<Download>)
    requires DistinctDestinations(ds)
    ensures Clash(ds).None?
  {
    ClashIffDisagreement(ds);
  }

  lemma {:induction false} ClashIsFinal(base: seq<Download>, loader: seq<Download>, i: nat)
    requires i <= |loader| && Clash(base + loader[..i]).Some?
    ensures Clash(base + loader) == Clash(base + loader[..i])
    decreases |loader|
  {
    if i == |loader| {
      assert loader[..i] == loader;
    } else {
      var front := loader[..|loader| - 1];
      assert front[..i] == loader[..i];
      ClashIsFinal(base, front, i);
      assert (base + loader)[..|base + loader| - 1] == base + front;
    }
  }

  /** The next entry in the merge. */
  lemma MergeNext(front: seq<Download>, d: Download, next: seq<Download>)
    requires next == front + [d] && Clash(front).None?
    ensures Firsts(next) == Keep(Firsts(front), d)
    ensures Clash(next) == if d.destination in Firsts(front) && !Agree(Firsts(front)[d.destination], d) then Some(d.destination) else None
  {
    FirstsAppend(front, d);
    ClashAppend(front, d);
  }

  lemma FirstClashWins(downloads: seq<Download>, i: nat)
    requires i <= |downloads| && Clash(downloads[..i]).Some?
    ensures Clash(downloads) == Clash(downloads[..i])
  {
    assert [] + downloads == downloads && [] + downloads[..i] == downloads[..i];
    ClashIsFinal([], downloads, i);
  }

  /** `deduplicate_downloads`. A clash leaves the drained vector empty. */
  method DeduplicateDownloads(downloads: seq<Download>) returns (kept: seq<Download>, error: Option<PlanError>)
    ensures error.None? <==> Clash(downloads).None?
    ensures error.Some? ==> Clash(downloads) == Some(error.value.destination) && kept == []
    ensures error.None? ==> kept == InOrder(Firsts(downloads))
  {
    var unique: map<string, Download> := map[];
    for i := 0 to |downloads|
      invariant Clash(downloads[..i]).None? && unique == Firsts(downloads[..i])
    {
      var download := downloads[i];
      MergeNext(downloads[..i], download, downloads[..i + 1]);
      if download.destination in unique {
        var previous := unique[download.destination];
        if previous.source != download.source || previous.hash != download.hash {
          FirstClashWins(downloads, i + 1);
          return [], Some(DuplicatePath(download.destination));
        }
      } else {
        unique := unique[download.destination := download];
      }
    }
    assert downloads[..|downloads|] == downloads;
    kept, error := InOrder(unique), None;
  }

  // ---- what the assembled plan guarantees

  /** Deduplication keeps one entry per destination, the earliest, and loses no destination. */
  lemma DeduplicatedIsDistinct(downloads: seq<Download>)
    ensures DistinctDestinations(InOrder(Firsts(downloads)))
    ensures forall d :: d in InOrder(Firsts(downloads)) ==> d in downloads
    ensures forall d :: d in downloads ==> exists e :: e in InOrder(Firsts(downloads)) && e.destination == d.destination
  {
    FirstsSpec(downloads);
    var m := Firsts(downloads);
    InOrderIsDistinct(m);
    forall d | d in downloads ensures exists e :: e in InOrder(m) && e.destination == d.destination {
      assert m[d.destination] in InOrder(m);
    }
  }

  /** A finished plan has distinct destinations. */
  lemma FinishedPlanIsDistinct(parts: Parts)
    ensures DistinctDestinations(InOrder(Tasks(parts)))
  {
    FirstsSpec(Offered(parts));
    InOrderIsDistinct(Tasks(parts));
  }

  /** Attaching a loader keeps destinations distinct, keeps every earlier entry, and covers every loader file. */
  lemma {:induction false} AttachedIsDistinct(base: seq<Download>, loader: seq<Download>)
    requires DistinctDestinations(base)
    ensures DistinctDestinations(base + Added(base, loader))
    ensures forall k :: (exists d :: d in base + Added(base, loader) && d.destination == k) <==> k in Firsts(base + loader)
  {
    FirstsSpec(base + loader);
    if loader == [] {
      assert base + [] == base;
      FirstsSpec(base);
    } else {
      var front, d := loader[..|loader| - 1], loader[|loader| - 1];
      AttachedIsDistinct(base, front);
      FirstsSpec(base + front);
      assert base + loader == (base + front) + [d];
      FirstsAppend(base + front, d);
      var before := base + Added(base, front);
      if d.destination in Firsts(base + front) {
        assert Added(base, loader) == Added(base, front);
      } else {
        assert base + Added(base, loader) == before + [d.(phase := Loader)];
        assert forall i :: 0 <= i < |before| ==> before[i] in before;
      }
    }
  }

  // ---- working through the plan

  const PHASES: seq<Phase> := [Client, Libraries, Assets, Natives, Logging, Loader]

  function OfPhase(ds: seq<Download>, phase: Phase): seq<Download> {
    if ds == [] then []
    else (if ds[0].phase == phase then [ds[0]] else []) + OfPhase(ds[1..], phase)
  }

  /** The order in which the phases visit the downloads. */
  function VisitOrder(ds: seq<Download>, phases: seq<Phase>): seq<Download> {
    if phases == [] then [] else VisitOrder(ds, phases[..|phases| - 1]) + OfPhase(ds, phases[|phases| - 1])
  }

  function Flatten(chunks: seq<seq<Download>>): seq<Download> {
    if chunks == [] then [] else Flatten(chunks[..|chunks| - 1]) + chunks[|chunks| - 1]
  }

  lemma FlattenAppend(chunks: seq<seq<Download>>, chunk: seq<Download>)
    ensures Flatten(chunks + [chunk]) == Flatten(chunks) + chunk
  {
    assert (chunks + [chunk])[..|chunks|] == chunks;
  }

  /** Why the loop ended before the last chunk. */
  datatype Stop = Cancelled | DownloadFailed

  /** Before which chunk a cancellation is seen, and which chunk's downloads fail, if any. */
  datatype Trouble = Trouble(patience: Option<nat>, failing: Option<nat>)

  /**
   * The download loops of `install_inner`: phase by phase, in chunks no larger than the concurrency limit. Only
   * chunks whose downloads all succeeded count.
   */
  method InstallDownloads(downloads: seq<Download>, concurrency: nat, trouble: Trouble)
    returns (chunks: seq<seq<Download>>, completed: nat, stop: Option<Stop>)
    requires concurrency > 0
    ensures completed == |Flatten(chunks)| && Bounded(chunks, concurrency)
    ensures Flatten(chunks) <= VisitOrder(downloads, PHASES)
    ensures stop.None? ==> Flatten(chunks) == VisitOrder(downloads, PHASES)
    ensures Stopped(stop, chunks, trouble)
  {
    chunks, completed, stop := [], 0, None;
    for p := 0 to |PHASES|
      invariant Flatten(chunks) == VisitOrder(downloads, PHASES[..p]) && completed == |Flatten(chunks)|
      invariant Bounded(chunks, concurrency) && Passed(chunks, trouble) && stop.None?
    {
      VisitStep(downloads, p);
      VisitGrows(downloads, p + 1);
      ghost var before := Flatten(chunks);
      chunks, completed, stop := InstallPhase(OfPhase(downloads, PHASES[p]), concurrency, trouble, chunks, completed);
      if stop.Some? {
        PrefixExtends(Flatten(chunks), before + OfPhase(downloads, PHASES[p]), VisitOrder(downloads, PHASES));
        return;
      }
    }
    assert PHASES[..|PHASES|] == PHASES;
  }

  ghost predicate Bounded(chunks: seq<seq<Download>>, concurrency: nat) {
    forall c :: c in chunks ==> 0 < |c| <= concurrency
  }

  /** Neither trouble came before the chunks that are done. */
  predicate Passed(chunks: seq<seq<Download>>, trouble: Trouble) {
    && (trouble.patience.Some? ==> |chunks| <= trouble.patience.value)
    && (trouble.failing.Some? ==> |chunks| <= trouble.failing.value)
  }

  /** The loop stops exactly at the trouble that comes first; a cancellation is seen before the chunk starts. */
  predicate Stopped(stop: Option<Stop>, chunks: seq<seq<Download>>, trouble: Trouble) {
    && Passed(chunks, trouble)
    && (stop == Some(Cancelled) ==> trouble.patience == Some(|chunks|))
    && (stop == Some(DownloadFailed) ==> trouble.failing == Some(|chunks|) && trouble.patience != Some(|chunks|))
  }

  /** The chunks of one phase. */
  method InstallPhase(tasks: seq<Download>, concurrency: nat, trouble: Trouble, chunks0: seq<seq<Download>>, completed0: nat)
    returns (chunks: seq<seq<Download>>, completed: nat, stop: Option<Stop>)
    requires concurrency > 0 && completed0 == |Flatten(chunks0)| && Bounded(chunks0, concurrency) && Passed(chunks0, trouble)
    ensures completed == |Flatten(chunks)| && Bounded(chunks, concurrency)
    ensures Flatten(chunks) <= Flatten(chunks0) + tasks
    ensures stop.None? ==> Flatten(chunks) == Flatten(chunks0) + tasks
    ensures Stopped(stop, chunks, trouble)
  {
    chunks, completed := chunks0, completed0;
    ghost var before := Flatten(chunks0);
    var i := 0;
    while i < |tasks|
      invariant 0 <= i <= |tasks|
      invariant Flatten(chunks) == before + tasks[..i] && completed == |Flatten(chunks)|
      invariant Bounded(chunks, concurrency) && Passed(chunks, trouble)
    {
      if trouble.patience == Some(|chunks|) { return chunks, completed, Some(Cancelled); }
      if trouble.failing == Some(|chunks|) { return chunks, completed, Some(DownloadFailed); }
      var end := if i + concurrency <= |tasks| then i + concurrency else |tasks|;
      var chunk := tasks[i..end];
      FlattenAppend(chunks, chunk);
      assert before + tasks[..i] + chunk == before + tasks[..end];
      chunks := chunks + [chunk];
      completed := completed + |chunk|;
      i := end;
    }
    assert tasks[..i] == tasks;
    stop := None;
  }

  lemma VisitStep(ds: seq<Download>, p: nat)
    requires p < |PHASES|
    ensures VisitOrder(ds, PHASES[..p + 1]) == VisitOrder(ds, PHASES[..p]) + OfPhase(ds, PHASES[p])
  {
    assert PHASES[..p + 1][..p] == PHASES[..p];
  }

  lemma PrefixExtends(a: seq<Download>, b: seq<Download>, c: seq<Download>)
    requires a <= b <= c
    ensures a <= c
  {
  }

  lemma {:induction false} VisitGrows(ds: seq<Download>, p: nat)
    requires p <= |PHASES|
    ensures VisitOrder(ds, PHASES[..p]) <= VisitOrder(ds, PHASES)
    decreases |PHASES| - p
  {
    if p == |PHASES| {
      assert PHASES[..p] == PHASES;
    } else {
      VisitGrows(ds, p + 1);
      assert PHASES[..p + 1][..p] == PHASES[..p];
    }
  }

  ghost function CountOf(ds: seq<Download>, d: Download): nat {
    if ds == [] then 0 else (if ds[0] == d then 1 else 0) + CountOf(ds[1..], d)
  }

  lemma {:induction false} CountAppend(a: seq<Download>, b: seq<Download>, d: Download)
    ensures CountOf(a + b, d) == CountOf(a, d) + CountOf(b, d)
  {
    if a == [] {
      assert a + b == b;
    } else {
      assert (a + b)[1..] == a[1..] + b;
      CountAppend(a[1..], b, d);
    }
  }

  lemma {:induction false} CountOfPhase(ds: seq<Download>, phase: Phase, d: Download)
    ensures CountOf(OfPhase(ds, phase), d) == if d.phase == phase then CountOf(ds, d) else 0
    ensures |OfPhase(ds, phase)| <= |ds|
  {
    if ds != [] {
      CountOfPhase(ds[1..], phase, d);
      var rest := OfPhase(ds[1..], phase);
      assert ds[0].phase == phase ==> ([ds[0]] + rest)[1..] == rest;
      assert [] + rest == rest;
    }
  }

  lemma {:induction false} CountVisits(ds: seq<Download>, phases: seq<Phase>, d: Download)
    requires Distinct(phases)
    ensures CountOf(VisitOrder(ds, phases), d) == if d.phase in phases then CountOf(ds, d) else 0
  {
    if phases != [] {
      var front, last := phases[..|phases| - 1], phases[|phases| - 1];
      CountVisits(ds, front, d);
      CountOfPhase(ds, last, d);
      CountAppend(VisitOrder(ds, front), OfPhase(ds, last), d);
      assert phases == front + [last] && last !in front;
    }
  }

  function CountPhases(ds: seq<Download>, phases: seq<Phase>): nat {
    if ds == [] then 0 else (if ds[0].phase in phases then 1 else 0) + CountPhases(ds[1..], phases)
  }

  lemma {:induction false} LengthOfPhases(ds: seq<Download>, phases: seq<Phase>)
    requires Distinct(phases)
    ensures |VisitOrder(ds, phases)| == CountPhases(ds, phases)
    decreases |phases|
  {
    if phases == [] {
      NoPhaseNoCount(ds);
    } else {
      var front, last := phases[..|phases| - 1], phases[|phases| - 1];
      LengthOfPhases(ds, front);
      assert phases == front + [last] && last !in front;
      SplitPhaseCount(ds, front, last);
    }
  }

  lemma {:induction false} NoPhaseNoCount(ds: seq<Download>)
    ensures CountPhases(ds, []) == 0
  {
    if ds != [] { NoPhaseNoCount(ds[1..]); }
  }

  lemma {:induction false} SplitPhaseCount(ds: seq<Download>, front: seq<Phase>, last: Phase)
    requires last !in front
    ensures CountPhases(ds, front + [last]) == CountPhases(ds, front) + |OfPhase(ds, last)|
  {
    if ds != [] { SplitPhaseCount(ds[1..], front, last); }
  }

  lemma {:induction false} CountPhasesFull(ds: seq<Download>, phases: seq<Phase>)
    ensures CountPhases(ds, phases) <= |ds|
    ensures CountPhases(ds, phases) == |ds| <==> forall d :: d in ds ==> d.phase in phases
  {
    if ds != [] {
      CountPhasesFull(ds[1..], phases);
      assert ds == [ds[0]] + ds[1..];
    }
  }

  /** Every download is visited as often as it is planned, so the count of completed files reaches the total. */
  lemma EveryDownloadVisitedOnce(ds: seq<Download>, d: Download)
    ensures d.phase in PHASES ==> CountOf(VisitOrder(ds, PHASES), d) == CountOf(ds, d)
    ensures |VisitOrder(ds, PHASES)| == |ds| <==> forall e :: e in ds ==> e.phase in PHASES
  {
    CountVisits(ds, PHASES, d);
    LengthOfPhases(ds, PHASES);
    CountPhasesFull(ds, PHASES);
  }

  /** The phases `finish_install_plan` gives to what it enters. */
  ghost predicate PhasesAssigned(parts: Parts) {
    && parts.client.phase == Client
    && (forall l :: l in parts.libraries ==> (l.artifact.Some? ==> l.artifact.value.phase == Libraries) && (l.native.Some? ==> l.native.value.phase == Natives))
    && (forall a :: a in parts.assets ==> a.phase == Assets)
    && (parts.logging.Some? ==> parts.logging.value.phase == Logging)
  }

  ghost predicate AllVisited(ds: seq<Download>) {
    forall d :: d in ds ==> d.phase in PHASES
  }

  lemma {:induction false} LibrariesAreVisited(libraries: seq<Library>)
    requires forall l :: l in libraries ==> (l.artifact.Some? ==> l.artifact.value.phase == Libraries) && (l.native.Some? ==> l.native.value.phase == Natives)
    ensures AllVisited(LibraryDownloads(libraries))
    decreases |libraries|
  {
    if libraries != [] {
      LibrariesAreVisited(libraries[..|libraries| - 1]);
      assert libraries[|libraries| - 1] in libraries;
    }
  }

  lemma {:induction false} AddedIsVisited(base: seq<Download>, loader: seq<Download>)
    ensures AllVisited(Added(base, loader))
    decreases |loader|
  {
    if loader != [] { AddedIsVisited(base, loader[..|loader| - 1]); }
  }

  lemma FinishedIsVisited(parts: Parts)
    requires PhasesAssigned(parts)
    ensures AllVisited(InOrder(Tasks(parts)))
  {
    LibrariesAreVisited(parts.libraries);
    assert AllVisited(Offered(parts));
    FirstsSpec(Offered(parts));
    InOrderIsDistinct(Tasks(parts));
  }

  /** Every plan the two assembly steps produce is worked through completely: the completed count reaches the total. */
  lemma CompletedReachesTotal(parts: Parts, loader: seq<Download>)
    requires PhasesAssigned(parts)
    ensures
      var finished := InOrder(Tasks(parts));
      && |VisitOrder(finished, PHASES)| == |finished|
      && |VisitOrder(finished + Added(finished, loader), PHASES)| == |finished + Added(finished, loader)|
  {
    FinishedIsVisited(parts);
    VisitedInFull(InOrder(Tasks(parts)), loader, parts.client);
  }

  lemma VisitedInFull(finished: seq<Download>, loader: seq<Download>, d: Download)
    requires AllVisited(finished)
    ensures |VisitOrder(finished, PHASES)| == |finished|
    ensures |VisitOrder(finished + Added(finished, loader), PHASES)| == |finished + Added(finished, loader)|
  {
    AddedIsVisited(finished, loader);
    EveryDownloadVisitedOnce(finished, d);
    EveryDownloadVisitedOnce(finished + Added(finished, loader), d);
  }
}
