/** Executing a loader plan: a small build system that skips the steps whose pinned outputs are intact. */
module LoaderPlans {
  import opened Wrappers
  import opened Contents

  type Path = string

  type Cache = map<Path, Bytes>

  datatype Output = Output(path: Path, size: Option<nat>, hash: Option<FileHash>)

  /** `inputs` are the jar, the class path and the cache paths among the arguments. */
  datatype Processor = Processor(id: string, inputs: set<Path>, outputs: seq<Output>)

  datatype ArchiveEntry = ArchiveEntry(archive: Path, entry: string, destination: Path, hash: Option<FileHash>)

  datatype LoaderError = Cancelled | BadArchive | Mismatch | ProcessorFailed(id: string) | InvalidOutput(id: string, path: Path)

  /**
   * The programs behind the plan, deterministic in what they read: `run` gives the files a processor
   * writes and whether it succeeded, `unzip` the content of an archive entry.
   */
  datatype Tools = Tools(run: (string, Cache) -> (Cache, bool), unzip: (Bytes, string) -> Option<Bytes>)

  function Restrict(cache: Cache, paths: set<Path>): Cache {
    map p | p in paths && p in cache :: cache[p]
  }

  predicate OutputIntact(cache: Cache, o: Output) {
    (o.size.Some? || o.hash.Some?) && o.path in cache && Matches(cache[o.path], o.size, o.hash)
  }

  /** `outputs_are_valid`: a processor without outputs or with an unpinned one is never skipped. */
  predicate OutputsValid(cache: Cache, p: Processor) {
    p.outputs != [] && forall o :: o in p.outputs ==> OutputIntact(cache, o)
  }

  /** `snapshot_outputs` for one output. */
  function Pin(cache: Cache, id: string, o: Output): Result<Output, LoaderError> {
    if o.path !in cache then Failure(InvalidOutput(id, o.path))
    else
      var bytes := cache[o.path];
      if o.hash.Some? then
        if Matches(bytes, Some(|bytes|), o.hash) then Success(o.(size := Some(|bytes|))) else Failure(Mismatch)
      else Success(Output(o.path, Some(|bytes|), Some(Digest(Sha256, bytes))))
  }

  /** The outputs after pinning from the front until the first failure. */
  function PinAll(cache: Cache, id: string, outputs: seq<Output>): (seq<Output>, Option<LoaderError>) {
    if outputs == [] then ([], None)
    else
      match Pin(cache, id, outputs[0])
      case Failure(error) =>
        // The size is stored before a recorded hash is compared.
        (if error.Mismatch? then [outputs[0].(size := Some(|cache[outputs[0].path]|))] + outputs[1..] else outputs, Some(error))
      case Success(o) =>
        var (rest, error) := PinAll(cache, id, outputs[1..]);
        ([o] + rest, error)
  }

  /** Run one processor whatever its outputs look like, and pin what it produced. */
  function Force(tools: Tools, cache: Cache, p: Processor): (Cache, Processor, Option<LoaderError>) {
    var (writes, ok) := tools.run(p.id, Restrict(cache, p.inputs));
    if !ok then (cache + writes, p, Some(ProcessorFailed(p.id)))
    else
      var (outputs, error) := PinAll(cache + writes, p.id, p.outputs);
      (cache + writes, p.(outputs := outputs), error)
  }

  function Step(tools: Tools, cache: Cache, p: Processor): (Cache, Processor, Option<LoaderError>) {
    if OutputsValid(cache, p) then (cache, p, None) else Force(tools, cache, p)
  }

  datatype Outcome = Outcome(cache: Cache, processors: seq<Processor>, error: Option<LoaderError>, executed: seq<string>)

  /** The processor loop; `patience` is how many processors start before cancellation is seen, if it is. */
  function Execute(tools: Tools, cache: Cache, processors: seq<Processor>, patience: Option<nat>): Outcome
    decreases |processors|
  {
    if processors == [] then Outcome(cache, [], None, [])
    else if patience == Some(0) then Outcome(cache, processors, Some(Cancelled), [])
    else
      var ran := if OutputsValid(cache, processors[0]) then [] else [processors[0].id];
      var (after, p, error) := Step(tools, cache, processors[0]);
      if error.Some? then Outcome(after, [p] + processors[1..], error, ran)
      else
        var rest := Execute(tools, after, processors[1..], if patience.Some? then Some(patience.value - 1) else None);
        Outcome(rest.cache, [p] + rest.processors, rest.error, ran + rest.executed)
  }

  /** Every processor run in order, none skipped. */
  function ExecuteAll(tools: Tools, cache: Cache, processors: seq<Processor>): Outcome
    decreases |processors|
  {
    if processors == [] then Outcome(cache, [], None, [])
    else
      var (after, p, error) := Force(tools, cache, processors[0]);
      if error.Some? then Outcome(after, [p] + processors[1..], error, [processors[0].id])
      else
        var rest := ExecuteAll(tools, after, processors[1..]);
        Outcome(rest.cache, [p] + rest.processors, rest.error, [processors[0].id] + rest.executed)
  }

  function Wait(patience: Option<nat>): Option<nat> {
    if patience.Some? && patience.value > 0 then Some(patience.value - 1) else patience
  }

  /** Archive entries are always extracted again; `patience` as for `Execute`. */
  function Extract(tools: Tools, cache: Cache, entries: seq<ArchiveEntry>, patience: Option<nat>): (Cache, Option<LoaderError>)
    decreases |entries|
  {
    if entries == [] then (cache, None)
    else if patience == Some(0) then (cache, Some(Cancelled))
    else
      var e := entries[0];
      if e.archive !in cache then (cache, Some(BadArchive))
      else
        match tools.unzip(cache[e.archive], e.entry)
        case None => (cache, Some(BadArchive))
        case Some(bytes) =>
          if Matches(bytes, None, e.hash) then Extract(tools, cache[e.destination := bytes], entries[1..], Wait(patience))
          else (cache[e.destination := bytes], Some(Mismatch))
  }

  /** The cache and the plan, both updated in place. */
  class LoaderRun {
    var cache: Cache
    var processors: seq<Processor>

    constructor (cache: Cache, processors: seq<Processor>)
      ensures this.cache == cache && this.processors == processors
    {
      this.cache, this.processors := cache, processors;
    }

    method ExtractEntries(tools: Tools, entries: seq<ArchiveEntry>, patience: Option<nat>) returns (error: Option<LoaderError>)
      modifies this`cache
      ensures (cache, error) == Extract(tools, old(cache), entries, patience)
    {
      assert entries[0..] == entries;
      var left := patience;
      for i := 0 to |entries|
        invariant Extract(tools, old(cache), entries, patience) == Extract(tools, cache, entries[i..], left)
      {
        var e := entries[i];
        assert entries[i..][1..] == entries[i + 1..];
        if left == Some(0) { return Some(Cancelled); }
        left := Wait(left);
        if e.archive !in cache { return Some(BadArchive); }
        var bytes := tools.unzip(cache[e.archive], e.entry);
        if bytes.None? { return Some(BadArchive); }
        cache := cache[e.destination := bytes.value];
        if !Matches(bytes.value, None, e.hash) { return Some(Mismatch); }
      }
      assert entries[|entries|..] == [];
      error := None;
    }

    /** The body of the processor loop. */
    method RunProcessor(tools: Tools, i: nat) returns (ran: seq<string>, error: Option<LoaderError>)
      requires i < |processors|
      modifies this
      ensures |processors| == |old(processors)| && processors == old(processors)[i := processors[i]]
      ensures (cache, processors[i], error) == Step(tools, old(cache), old(processors)[i])
      ensures ran == if OutputsValid(old(cache), old(processors)[i]) then [] else [old(processors)[i].id]
    {
      if OutputsValid(cache, processors[i]) { return [], None; }
      ran := [processors[i].id];
      var (after, p, failure) := Force(tools, cache, processors[i]);
      cache, processors, error := after, processors[i := p], failure;
    }

    /** `execute_loader_plan`, processors part. */
    method ExecuteProcessors(tools: Tools, patience: Option<nat>) returns (error: Option<LoaderError>, executed: seq<string>)
      modifies this
      ensures Outcome(cache, processors, error, executed) == Execute(tools, old(cache), old(processors), patience)
    {
      var left := patience;
      executed := [];
      ghost var all := Execute(tools, cache, processors, patience);
      assert processors[0..] == processors;
      for i := 0 to |processors|
        invariant i <= |processors| == |old(processors)|
        invariant ResumesAs(all, processors[..i], executed, Execute(tools, cache, processors[i..], left))
      {
        ghost var c0, ps0, left0, executed0 := cache, processors, left, executed;
        SplitAt(ps0, i);
        if left == Some(0) { return Some(Cancelled), executed; }
        if left.Some? { left := Some(left.value - 1); }
        var ran;
        ran, error := RunProcessor(tools, i);
        executed := executed + ran;
        SplitUpdated(ps0, i, processors[i]);
        if error.Some? { return error, executed; }
        ResumeAfter(all, ps0[..i], executed0, Execute(tools, c0, ps0[i..], left0), processors[i], ran,
                    Execute(tools, cache, processors[i + 1..], left));
      }
      assert processors[|processors|..] == [] && processors[..|processors|] == processors;
      error := None;
    }
  }

  lemma SplitAt(ps: seq<Processor>, i: nat)
    requires i < |ps|
    ensures ps == ps[..i] + ps[i..] && ps[i..][0] == ps[i] && ps[i..][1..] == ps[i + 1..]
  {
  }

  lemma SplitUpdated(ps: seq<Processor>, i: nat, p: Processor)
    requires i < |ps|
    ensures ps[i := p][..i + 1] == ps[..i] + [p] && ps[i := p][i + 1..] == ps[i + 1..]
    ensures ps[i := p] == ps[..i] + ([p] + ps[i + 1..])
  {
  }

  /** A finished front and the outcome of the rest make up the whole outcome. */
  ghost predicate ResumesAs(all: Outcome, done: seq<Processor>, executed: seq<string>, rest: Outcome) {
    all == Outcome(rest.cache, done + rest.processors, rest.error, executed + rest.executed)
  }

  lemma ResumeAfter(all: Outcome, done: seq<Processor>, executed: seq<string>, tail: Outcome, p: Processor, ran: seq<string>, rest: Outcome)
    requires ResumesAs(all, done, executed, tail)
    requires tail == Outcome(rest.cache, [p] + rest.processors, rest.error, ran + rest.executed)
    ensures ResumesAs(all, done + [p], executed + ran, rest)
  {
    assert done + ([p] + rest.processors) == (done + [p]) + rest.processors;
    assert executed + (ran + rest.executed) == (executed + ran) + rest.executed;
  }

  // ---- skipping intact processors changes nothing

  function Writes(tools: Tools, cache: Cache, p: Processor): Cache {
    tools.run(p.id, Restrict(cache, p.inputs)).0
  }

  ghost function Declared(processors: seq<Processor>): set<Path> {
    set p, o | p in processors && o in p.outputs :: o.path
  }

  /** Everything the processors write when all are run from `cache`. */
  ghost function AllWrites(tools: Tools, cache: Cache, processors: seq<Processor>): set<Path>
    decreases |processors|
  {
    if processors == [] then {}
    else
      var w := Writes(tools, cache, processors[0]);
      w.Keys + AllWrites(tools, cache + w, processors[1..])
  }

  /**
   * Each processor writes its declared outputs, no two write the same path, and nobody reads what it or
   * a later processor writes.
   */
  ghost predicate Separated(tools: Tools, cache: Cache, processors: seq<Processor>)
    decreases |processors|
  {
    processors == [] ||
    (var p, w := processors[0], Writes(tools, cache, processors[0]);
     var later := AllWrites(tools, cache + w, processors[1..]);
     && (forall o :: o in p.outputs ==> o.path in w)
     && p.inputs !! w.Keys + later
     && w.Keys !! later
     && Separated(tools, cache + w, processors[1..]))
  }

  ghost predicate AgreeOutside(a: Cache, b: Cache, except: set<Path>) {
    forall p :: p !in except ==> (p in a <==> p in b) && (p in a ==> a[p] == b[p])
  }

  lemma {:induction false} PinAllSpec(cache: Cache, id: string, outputs: seq<Output>)
    requires PinAll(cache, id, outputs).1.None?
    ensures |PinAll(cache, id, outputs).0| == |outputs|
    ensures forall i :: 0 <= i < |outputs| ==>
      Pin(cache, id, outputs[i]) == Success(PinAll(cache, id, outputs).0[i])
  {
    if outputs != [] { PinAllSpec(cache, id, outputs[1..]); }
  }

  /** A pin recorded from some bytes accepts those bytes and no others. */
  lemma PinIsExact(cache: Cache, id: string, o: Output, bytes: Bytes)
    requires Pin(cache, id, o).Success?
    ensures
      var pinned := Pin(cache, id, o).value;
      && pinned.path == o.path && pinned.size.Some? && pinned.hash.Some?
      && (Matches(bytes, pinned.size, pinned.hash) <==> bytes == cache[o.path])
  {
  }

  /** Pinning an already pinned output from the same bytes leaves it as it is. */
  lemma {:induction false} PinningAgainChangesNothing(first: Cache, again: Cache, id: string, outputs: seq<Output>)
    requires PinAll(first, id, outputs).1.None?
    requires forall o :: o in outputs ==> o.path in first && o.path in again && again[o.path] == first[o.path]
    ensures PinAll(again, id, PinAll(first, id, outputs).0) == (PinAll(first, id, outputs).0, None)
  {
    if outputs != [] {
      PinningAgainChangesNothing(first, again, id, outputs[1..]);
      var pinned := PinAll(first, id, outputs).0;
      assert pinned[1..] == PinAll(first, id, outputs[1..]).0;
    }
  }

  lemma {:induction false} RunAllOnlyWrites(tools: Tools, cache: Cache, processors: seq<Processor>)
    requires ExecuteAll(tools, cache, processors).error.None?
    ensures AgreeOutside(ExecuteAll(tools, cache, processors).cache, cache, AllWrites(tools, cache, processors))
    decreases |processors|
  {
    if processors != [] {
      RunAllOnlyWrites(tools, cache + Writes(tools, cache, processors[0]), processors[1..]);
    }
  }

  ghost function PathsOf(outputs: seq<Output>): set<Path> {
    set o | o in outputs :: o.path
  }

  lemma SamePaths(a: seq<Output>, b: seq<Output>)
    requires |a| == |b| && forall i :: 0 <= i < |a| ==> a[i].path == b[i].path
    ensures PathsOf(a) == PathsOf(b)
  {
    forall p | p in PathsOf(a) ensures p in PathsOf(b) {
      var i :| 0 <= i < |a| && a[i].path == p;
      assert b[i] in b;
    }
    forall p | p in PathsOf(b) ensures p in PathsOf(a) {
      var i :| 0 <= i < |b| && b[i].path == p;
      assert a[i] in a;
    }
  }

  lemma DeclaredCons(p: Processor, rest: seq<Processor>)
    ensures Declared([p] + rest) == PathsOf(p.outputs) + Declared(rest)
  {
    assert forall q :: q in [p] + rest <==> q == p || q in rest;
  }

  lemma PinningKeepsPaths(cache: Cache, id: string, outputs: seq<Output>)
    requires PinAll(cache, id, outputs).1.None?
    ensures PathsOf(PinAll(cache, id, outputs).0) == PathsOf(outputs)
  {
    PinAllSpec(cache, id, outputs);
    SamePaths(outputs, PinAll(cache, id, outputs).0);
  }

  lemma {:induction false} RunAllKeepsShape(tools: Tools, cache: Cache, processors: seq<Processor>)
    requires ExecuteAll(tools, cache, processors).error.None?
    ensures |ExecuteAll(tools, cache, processors).processors| == |processors|
    ensures Declared(ExecuteAll(tools, cache, processors).processors) == Declared(processors)
    decreases |processors|
  {
    if processors != [] {
      var p := processors[0];
      var (after, pinned, error) := Force(tools, cache, p);
      var rest := ExecuteAll(tools, after, processors[1..]);
      RunAllKeepsShape(tools, after, processors[1..]);
      PinningKeepsPaths(after, p.id, p.outputs);
      DeclaredCons(p, processors[1..]);
      DeclaredCons(pinned, rest.processors);
      assert processors == [p] + processors[1..];
    }
  }

  /** One step of an incremental run, seen from a state that is right except for outputs still to come. */
  lemma StepRestores(tools: Tools, base: Cache, p: Processor, finished: Cache, damaged: Cache, later: set<Path>, broken: set<Path>)
    requires
      var (after, pinned, error) := Force(tools, base, p);
      var w := Writes(tools, base, p);
      && error.None?
      && (forall o :: o in p.outputs ==> o.path in w)
      && p.inputs !! w.Keys + later && w.Keys !! later
      && AgreeOutside(finished, after, later)
    requires broken <= later && AgreeOutside(damaged, finished, PathsOf(p.outputs) + broken)
    ensures
      var (after, pinned, error) := Force(tools, base, p);
      var (repaired, same, failure) := Step(tools, damaged, pinned);
      failure.None? && same == pinned && AgreeOutside(repaired, finished, broken)
  {
    var (after, pinned, error) := Force(tools, base, p);
    var w := Writes(tools, base, p);
    PinAllSpec(after, p.id, p.outputs);
    if OutputsValid(damaged, pinned) {
      IntactOutputsAgree(after, p, pinned, finished, damaged);
    } else {
      InputsUntouched(base, w, p, finished, damaged, later, broken);
      PinningAgainChangesNothing(after, damaged + w, p.id, p.outputs);
      RewrittenOutputsAgree(w, p, after, finished, damaged, later, broken);
    }
  }

  /** Damage to outputs leaves what the processor reads as it was. */
  lemma InputsUntouched(base: Cache, w: Cache, p: Processor, finished: Cache, damaged: Cache, later: set<Path>, broken: set<Path>)
    requires forall o :: o in p.outputs ==> o.path in w
    requires p.inputs !! w.Keys + later && broken <= later && AgreeOutside(finished, base + w, later)
    requires AgreeOutside(damaged, finished, PathsOf(p.outputs) + broken)
    ensures Restrict(damaged, p.inputs) == Restrict(base, p.inputs)
  {
    forall q | q in p.inputs ensures (q in damaged <==> q in base) && (q in base ==> damaged[q] == base[q]) {
      assert q !in w && q !in later && q !in PathsOf(p.outputs);
    }
  }

  /** Outputs that pass their exact pins hold the recorded bytes. */
  lemma IntactOutputsAgree(after: Cache, p: Processor, pinned: Processor, finished: Cache, damaged: Cache)
    requires |pinned.outputs| == |p.outputs|
    requires forall i :: 0 <= i < |p.outputs| ==> Pin(after, p.id, p.outputs[i]) == Success(pinned.outputs[i])
    requires OutputsValid(damaged, pinned)
    requires forall o :: o in p.outputs ==> o.path in after && o.path in finished && finished[o.path] == after[o.path]
    ensures forall q :: q in PathsOf(p.outputs) ==> q in damaged && q in finished && damaged[q] == finished[q]
  {
    forall q | q in PathsOf(p.outputs) ensures q in damaged && q in finished && damaged[q] == finished[q] {
      var i :| 0 <= i < |p.outputs| && p.outputs[i].path == q;
      assert pinned.outputs[i] in pinned.outputs && p.outputs[i] in p.outputs;
      assert OutputIntact(damaged, pinned.outputs[i]);
      PinIsExact(after, p.id, p.outputs[i], damaged[q]);
    }
  }

  lemma RewrittenOutputsAgree(w: Cache, p: Processor, after: Cache, finished: Cache, damaged: Cache, later: set<Path>, broken: set<Path>)
    requires forall o :: o in p.outputs ==> o.path in w
    requires forall q :: q in w ==> q in after && after[q] == w[q]
    requires w.Keys !! later && broken <= later && AgreeOutside(finished, after, later)
    requires AgreeOutside(damaged, finished, PathsOf(p.outputs) + broken)
    ensures AgreeOutside(damaged + w, finished, broken)
  {
  }

  /**
   * If the pins were recorded by a successful full run, then from any state in which only declared
   * outputs are damaged, skipping intact processors ends in exactly the cache of that full run.
   */
  lemma {:induction false} IncrementalEqualsFull(tools: Tools, base: Cache, processors: seq<Processor>, damaged: Cache)
    requires Separated(tools, base, processors) && ExecuteAll(tools, base, processors).error.None?
    requires AgreeOutside(damaged, ExecuteAll(tools, base, processors).cache, Declared(processors))
    ensures
      var full := ExecuteAll(tools, base, processors);
      var again := Execute(tools, damaged, full.processors, None);
      again.error.None? && again.cache == full.cache && again.processors == full.processors
    decreases |processors|
  {
    var full := ExecuteAll(tools, base, processors);
    if processors == [] {
      assert damaged == full.cache;
    } else {
      var p, rest := processors[0], processors[1..];
      assert processors == [p] + rest;
      DeclaredCons(p, rest);
      var w := Writes(tools, base, p);
      var (after, pinned, _) := Force(tools, base, p);
      var tail := ExecuteAll(tools, after, rest);
      var later := AllWrites(tools, after, rest);
      RunAllOnlyWrites(tools, after, rest);
      DeclaredIsWritten(tools, after, rest);
      StepRestores(tools, base, p, full.cache, damaged, later, Declared(rest));
      var (repaired, _, _) := Step(tools, damaged, pinned);
      IncrementalEqualsFull(tools, after, rest, repaired);
      assert full.processors == [pinned] + tail.processors;
      assert full.processors[1..] == tail.processors;
    }
  }

  lemma {:induction false} DeclaredIsWritten(tools: Tools, cache: Cache, processors: seq<Processor>)
    requires Separated(tools, cache, processors)
    ensures Declared(processors) <= AllWrites(tools, cache, processors)
    decreases |processors|
  {
    if processors != [] {
      assert processors == [processors[0]] + processors[1..];
      DeclaredCons(processors[0], processors[1..]);
      DeclaredIsWritten(tools, cache + Writes(tools, cache, processors[0]), processors[1..]);
    }
  }

  function WithoutOutputs(processors: seq<Processor>): seq<string> {
    if processors == [] then []
    else (if processors[0].outputs == [] then [processors[0].id] else []) + WithoutOutputs(processors[1..])
  }

  /** Freshly pinned outputs are intact wherever the bytes they were pinned from still are. */
  lemma PinnedOutputsAreIntact(after: Cache, p: Processor, pinned: Processor, finished: Cache)
    requires |pinned.outputs| == |p.outputs|
    requires forall i :: 0 <= i < |p.outputs| ==> Pin(after, p.id, p.outputs[i]) == Success(pinned.outputs[i])
    requires forall o :: o in p.outputs ==> o.path in after && o.path in finished && finished[o.path] == after[o.path]
    ensures OutputsValid(finished, pinned) <==> p.outputs != []
  {
    forall o | o in pinned.outputs ensures OutputIntact(finished, o) {
      var i :| 0 <= i < |pinned.outputs| && pinned.outputs[i] == o;
      assert p.outputs[i] in p.outputs;
      PinIsExact(after, p.id, p.outputs[i], finished[o.path]);
    }
  }

  /** Repeating a step on the finished cache changes nothing, and is skipped when the step declares outputs. */
  lemma StepAgain(tools: Tools, base: Cache, p: Processor, finished: Cache, later: set<Path>)
    requires
      var (after, pinned, error) := Force(tools, base, p);
      var w := Writes(tools, base, p);
      && error.None?
      && (forall o :: o in p.outputs ==> o.path in w)
      && p.inputs !! w.Keys + later && w.Keys !! later
      && AgreeOutside(finished, after, later)
    ensures
      var pinned := Force(tools, base, p).1;
      && Step(tools, finished, pinned) == (finished, pinned, None)
      && (OutputsValid(finished, pinned) <==> p.outputs != [])
  {
    var (after, pinned, _) := Force(tools, base, p);
    PinAllSpec(after, p.id, p.outputs);
    PinnedOutputsAreIntact(after, p, pinned, finished);
    StepRestores(tools, base, p, finished, finished, later, {});
    assert Step(tools, finished, pinned).0 == finished;
  }

  /** A second run right after a full one executes only the processors that declare no outputs. */
  lemma {:induction false} SecondRunOnlyRunsUndeclared(tools: Tools, base: Cache, processors: seq<Processor>)
    requires Separated(tools, base, processors) && ExecuteAll(tools, base, processors).error.None?
    ensures
      var full := ExecuteAll(tools, base, processors);
      Execute(tools, full.cache, full.processors, None).executed == WithoutOutputs(processors)
    decreases |processors|
  {
    if processors != [] {
      var full := ExecuteAll(tools, base, processors);
      var p, rest := processors[0], processors[1..];
      var (after, pinned, _) := Force(tools, base, p);
      var tail := ExecuteAll(tools, after, rest);
      RunAllOnlyWrites(tools, after, rest);
      StepAgain(tools, base, p, full.cache, AllWrites(tools, after, rest));
      SecondRunOnlyRunsUndeclared(tools, after, rest);
      assert full.processors[1..] == tail.processors;
    }
  }

  // ---- together with the archive entries

  ghost function Destinations(entries: seq<ArchiveEntry>): set<Path> {
    set e | e in entries :: e.destination
  }

  ghost function Archives(entries: seq<ArchiveEntry>): set<Path> {
    set e | e in entries :: e.archive
  }

  /** Extraction reads only archives, so it gives back every destination whatever state that was in. */
  lemma {:induction false} ExtractionRestores(tools: Tools, base: Cache, damaged: Cache, entries: seq<ArchiveEntry>, except: set<Path>)
    requires Extract(tools, base, entries, None).1.None? && Archives(entries) !! Destinations(entries)
    requires AgreeOutside(damaged, base, except) && Archives(entries) !! except
    ensures Extract(tools, damaged, entries, None).1.None?
    ensures AgreeOutside(Extract(tools, damaged, entries, None).0, Extract(tools, base, entries, None).0, except - Destinations(entries))
    ensures AgreeOutside(Extract(tools, base, entries, None).0, base, Destinations(entries))
    decreases |entries|
  {
    if entries != [] {
      var e, rest := entries[0], entries[1..];
      assert entries == [e] + rest;
      assert e.archive in Archives(entries) && e.destination in Destinations(entries);
      assert Archives(rest) <= Archives(entries);
      assert Destinations(entries) == {e.destination} + Destinations(rest);
      var bytes := tools.unzip(base[e.archive], e.entry).value;
      ExtractionRestores(tools, base[e.destination := bytes], damaged[e.destination := bytes], rest, except - {e.destination});
      assert except - {e.destination} - Destinations(rest) == except - Destinations(entries);
    }
  }

  /** The whole plan: extraction and incremental processors restore every destination and every declared output. */
  lemma PlanRestoresCache(tools: Tools, base: Cache, entries: seq<ArchiveEntry>, processors: seq<Processor>, damaged: Cache)
    requires Extract(tools, base, entries, None).1.None? && Archives(entries) !! Destinations(entries)
    requires
      var extracted := Extract(tools, base, entries, None).0;
      && Separated(tools, extracted, processors) && ExecuteAll(tools, extracted, processors).error.None?
      && AllWrites(tools, extracted, processors) !! Archives(entries) + Destinations(entries)
      && AgreeOutside(damaged, ExecuteAll(tools, extracted, processors).cache, Destinations(entries) + Declared(processors))
    ensures
      var full := ExecuteAll(tools, Extract(tools, base, entries, None).0, processors);
      var (again, error) := Extract(tools, damaged, entries, None);
      error.None? && Execute(tools, again, full.processors, None).cache == full.cache
        && Execute(tools, again, full.processors, None).error.None?
  {
    var extracted := Extract(tools, base, entries, None).0;
    var full := ExecuteAll(tools, extracted, processors);
    RunAllOnlyWrites(tools, extracted, processors);
    DeclaredIsWritten(tools, extracted, processors);
    var except := Destinations(entries) + AllWrites(tools, extracted, processors);
    ExtractionRestores(tools, base, base, entries, {});
    assert AgreeOutside(damaged, base, except);
    ExtractionRestores(tools, base, damaged, entries, except);
    var again := Extract(tools, damaged, entries, None).0;
    ExtractionLeaves(tools, damaged, entries);
    assert AgreeOutside(again, full.cache, Declared(processors));
    IncrementalEqualsFull(tools, extracted, processors, again);
  }

  lemma {:induction false} ExtractionLeaves(tools: Tools, cache: Cache, entries: seq<ArchiveEntry>)
    ensures AgreeOutside(Extract(tools, cache, entries, None).0, cache, Destinations(entries))
    decreases |entries|
  {
    if entries != [] {
      var e := entries[0];
      assert entries == [e] + entries[1..] && e in entries;
      assert Destinations(entries[1..]) <= Destinations(entries);
      if e.archive in cache && tools.unzip(cache[e.archive], e.entry).Some? {
        ExtractionLeaves(tools, cache[e.destination := tools.unzip(cache[e.archive], e.entry).value], entries[1..]);
      }
    }
  }
}
