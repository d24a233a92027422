/** Cache eviction: which files go, and what the index says afterwards. */
module Prune {
  import opened Wrappers
  import opened Ordering
  import opened ManagedFiles

  /** Length and modification time of a regular file in the cache. */
  datatype Stat = Stat(length: nat, modified: Option<nat>)

  type Stats = map<RelativePath, Stat>

  datatype Policy = Policy(maxSize: Option<nat>, maxAge: Option<nat>)

  datatype Candidate = Candidate(path: RelativePath, bytes: nat, temporary: bool)

  predicate EndsWith(path: string, suffix: string) {
    |suffix| <= |path| && path[|path| - |suffix|..] == suffix
  }

  predicate Contains(path: string, part: string) {
    part <= path || (path != [] && Contains(path[1..], part))
  }

  predicate IsTemporary(path: RelativePath) {
    EndsWith(path, ".part") || EndsWith(path, ".tmp") || Contains(path, ".staging/")
  }

  /** `cache_lock_key`: a part file shares the lock of the file it becomes. */
  function LockKey(path: RelativePath): string {
    "cache:" + if EndsWith(path, ".part") then path[..|path| - 5] else path
  }

  /** References of all instances whose managed index loads; the others contribute none. */
  function Referenced(indexes: seq<Option<seq<ManagedFile>>>): set<RelativePath> {
    set i, k | 0 <= i < |indexes| && indexes[i].Some? && 0 <= k < |indexes[i].value| && indexes[i].value[k].location == Cache
      :: indexes[i].value[k].path
  }

  /** Too young only if the clock has not passed the modification time plus the age limit. */
  predicate OldEnough(stat: Stat, policy: Policy, now: nat) {
    !(policy.maxAge.Some? && stat.modified.Some? && stat.modified.value <= now && now - stat.modified.value < policy.maxAge.value)
  }

  predicate Evictable(path: RelativePath, files: Stats, referenced: set<RelativePath>, policy: Policy, now: nat) {
    path !in referenced && path in files && OldEnough(files[path], policy, now)
  }

  /** Indexed, unreferenced, present and old enough. */
  function Unreferenced(index: set<RelativePath>, files: Stats, referenced: set<RelativePath>, policy: Policy, now: nat): set<RelativePath> {
    set path | path in index && Evictable(path, files, referenced, policy, now)
  }

  function Temporaries(files: Stats): set<RelativePath> {
    set path | path in files && IsTemporary(path)
  }

  function CandidateFor(path: RelativePath, files: Stats, plain: set<RelativePath>): Candidate
    requires path in files
  {
    Candidate(path, files[path].length, path !in plain)
  }

  function Listed(paths: seq<RelativePath>, files: Stats, plain: set<RelativePath>): (r: seq<Candidate>)
    requires forall p :: p in paths ==> p in files
    ensures |r| == |paths| && forall i :: 0 <= i < |r| ==> r[i] == CandidateFor(paths[i], files, plain)
  {
    if paths == [] then [] else [CandidateFor(paths[0], files, plain)] + Listed(paths[1..], files, plain)
  }

  function Assemble(plain: set<RelativePath>, files: Stats): seq<Candidate>
    requires plain <= files.Keys
  {
    Listed(Ascending(plain + Temporaries(files)), files, plain)
  }

  /** Candidates in path order; a path found both ways counts as indexed, not as temporary. */
  function Candidates(index: set<RelativePath>, files: Stats, referenced: set<RelativePath>, policy: Policy, now: nat): seq<Candidate> {
    Assemble(Unreferenced(index, files, referenced, policy, now), files)
  }

  // ---- staying under the size limit

  function Minus(a: nat, b: nat): nat {
    if a <= b then 0 else a - b
  }

  function Bytes(candidates: seq<Candidate>): nat {
    if candidates == [] then 0 else candidates[0].bytes + Bytes(candidates[1..])
  }

  /** The filter of the eviction loop, with `excess` bytes still to be freed. */
  function Retain(candidates: seq<Candidate>, excess: nat): seq<Candidate> {
    if candidates == [] then []
    else if candidates[0].temporary || excess > 0 then
      [candidates[0]] + Retain(candidates[1..], Minus(excess, candidates[0].bytes))
    else Retain(candidates[1..], excess)
  }

  lemma {:induction false} BytesAppend(a: seq<Candidate>, b: seq<Candidate>)
    ensures Bytes(a + b) == Bytes(a) + Bytes(b)
  {
    if a == [] {
      assert a + b == b;
    } else {
      BytesAppend(a[1..], b);
      assert (a + b)[1..] == a[1..] + b;
    }
  }

  lemma RetainStep(candidates: seq<Candidate>, i: nat, excess: nat)
    requires i < |candidates|
    ensures
      var c := candidates[i];
      Retain(candidates[i..], excess) ==
        if c.temporary || excess > 0 then [c] + Retain(candidates[i + 1..], Minus(excess, c.bytes))
        else Retain(candidates[i + 1..], excess)
  {
    assert candidates[i..][1..] == candidates[i + 1..];
  }

  /** What is kept for removal frees the excess whenever all candidates together could. */
  lemma {:induction false} RetainMeetsBudget(candidates: seq<Candidate>, excess: nat)
    ensures Bytes(Retain(candidates, excess)) >= if Bytes(candidates) <= excess then Bytes(candidates) else excess
    ensures Bytes(Retain(candidates, excess)) <= Bytes(candidates)
  {
    if candidates != [] {
      RetainMeetsBudget(candidates[1..], Minus(excess, candidates[0].bytes));
      RetainMeetsBudget(candidates[1..], excess);
    }
  }

  /** Candidate `i` goes exactly when it is temporary or the earlier choices had not yet freed the excess. */
  lemma {:induction false} RetainDecides(candidates: seq<Candidate>, excess: nat, i: nat)
    requires i < |candidates|
    ensures
      var before := Retain(candidates[..i], excess);
      Retain(candidates[..i + 1], excess) ==
        before + if candidates[i].temporary || Bytes(before) < excess then [candidates[i]] else []
  {
    var c := candidates[0];
    if i == 0 {
      assert candidates[..1] == [c] && [c][1..] == [] && candidates[..0] == [];
    } else {
      var left := if c.temporary || excess > 0 then Minus(excess, c.bytes) else excess;
      RetainDecides(candidates[1..], left, i - 1);
      assert candidates[..i][1..] == candidates[1..][..i - 1];
      assert candidates[..i + 1][1..] == candidates[1..][..i];
      var tail := Retain(candidates[1..][..i - 1], left);
      if c.temporary || excess > 0 {
        assert ([c] + tail)[1..] == tail;
        var last: seq<Candidate> := if candidates[i].temporary || Bytes(tail) < left then [candidates[i]] else [];
        assert [c] + (tail + last) == ([c] + tail) + last;
      }
    }
  }

  lemma {:induction false} RetainSelects(candidates: seq<Candidate>, excess: nat, c: Candidate)
    ensures c in Retain(candidates, excess) ==> c in candidates
    ensures c in candidates && c.temporary ==> c in Retain(candidates, excess)
  {
    if candidates != [] {
      var head, rest := candidates[0], candidates[1..];
      assert candidates == [head] + rest;
      RetainSelects(rest, if head.temporary || excess > 0 then Minus(excess, head.bytes) else excess, c);
    }
  }

  lemma {:induction false} RetainKeepsDistinct(candidates: seq<Candidate>, excess: nat)
    requires DistinctPaths(candidates)
    ensures DistinctPaths(Retain(candidates, excess))
  {
    if candidates != [] {
      var head, rest := candidates[0], candidates[1..];
      var left := if head.temporary || excess > 0 then Minus(excess, head.bytes) else excess;
      var kept := Retain(rest, left);
      RetainKeepsDistinct(rest, left);
      forall c | c in kept ensures c.path != head.path {
        RetainSelects(rest, left, c);
        var k :| 0 <= k < |rest| && rest[k] == c;
        assert candidates[k + 1] == c;
      }
    }
  }

  function TotalBytes(paths: seq<RelativePath>, files: Stats): nat
    requires forall p :: p in paths ==> p in files
  {
    if paths == [] then 0 else files[paths[0]].length + TotalBytes(paths[1..], files)
  }

  /** All regular files below the cache root together. */
  function CacheBytes(files: Stats): nat {
    TotalBytes(Ascending(files.Keys), files)
  }

  /** The plan of a prune: what it sets out to remove. */
  function Chosen(index: set<RelativePath>, files: Stats, referenced: set<RelativePath>, policy: Policy, now: nat): seq<Candidate> {
    var all := Candidates(index, files, referenced, policy, now);
    if policy.maxSize.Some? then Retain(all, Minus(CacheBytes(files), policy.maxSize.value)) else all
  }

  // ---- removing

  datatype Report = Report(candidates: seq<Candidate>, removedFiles: nat, removedBytes: nat, skippedLocked: nat, dryRun: bool)

  /** The files whose lock somebody else holds. */
  function Blocked(files: Stats, locked: set<string>): set<RelativePath> {
    set path | path in files && LockKey(path) in locked
  }

  /** A candidate is removed if its lock is free and it is still there. */
  predicate Removed(c: Candidate, files: Stats, blocked: set<RelativePath>) {
    c.path !in blocked && c.path in files
  }

  function Survivors(candidates: seq<Candidate>, blocked: set<RelativePath>): seq<Candidate> {
    if candidates == [] then []
    else (if candidates[0].path in blocked then [] else [candidates[0]]) + Survivors(candidates[1..], blocked)
  }

  ghost function Deleted(candidates: seq<Candidate>, files: Stats, blocked: set<RelativePath>): set<RelativePath> {
    set c | c in candidates && Removed(c, files, blocked) :: c.path
  }

  ghost function Unindexed(candidates: seq<Candidate>, files: Stats, blocked: set<RelativePath>): set<RelativePath> {
    set c | c in candidates && Removed(c, files, blocked) && !c.temporary :: c.path
  }

  ghost function SkippedOf(candidates: seq<Candidate>, blocked: set<RelativePath>): nat {
    if candidates == [] then 0
    else (if candidates[0].path in blocked then 1 else 0) + SkippedOf(candidates[1..], blocked)
  }

  lemma {:induction false} SkippedOneMore(candidates: seq<Candidate>, c: Candidate, blocked: set<RelativePath>)
    ensures SkippedOf(candidates + [c], blocked) == SkippedOf(candidates, blocked) + if c.path in blocked then 1 else 0
  {
    if candidates != [] {
      SkippedOneMore(candidates[1..], c, blocked);
      assert (candidates + [c])[1..] == candidates[1..] + [c];
    }
  }

  ghost predicate DistinctPaths(candidates: seq<Candidate>) {
    forall i, j :: 0 <= i < j < |candidates| ==> candidates[i].path != candidates[j].path
  }

  /** Each listed candidate carries the length of the file it names. */
  ghost predicate Measured(candidates: seq<Candidate>, files: Stats) {
    forall c :: c in candidates ==> c.path in files && c.bytes == files[c.path].length
  }

  lemma ChosenIsWellFormed(index: set<RelativePath>, files: Stats, referenced: set<RelativePath>, policy: Policy, now: nat)
    ensures
      var all, chosen := Candidates(index, files, referenced, policy, now), Chosen(index, files, referenced, policy, now);
      && DistinctPaths(chosen) && Measured(chosen, files)
      && (forall c :: c in chosen ==> c in all)
      && (forall c :: c in all && c.temporary ==> c in chosen)
  {
    var all := Candidates(index, files, referenced, policy, now);
    var plain := Unreferenced(index, files, referenced, policy, now);
    var paths := Ascending(plain + Temporaries(files));
    assert all == Listed(paths, files, plain);
    assert DistinctPaths(all);
    forall c | c in all ensures c.path in files && c.bytes == files[c.path].length {
      var i :| 0 <= i < |all| && all[i] == c;
      assert paths[i] in paths;
    }
    if policy.maxSize.Some? {
      var excess := Minus(CacheBytes(files), policy.maxSize.value);
      forall c: Candidate ensures (c in Retain(all, excess) ==> c in all) && (c in all && c.temporary ==> c in Retain(all, excess)) {
        RetainSelects(all, excess, c);
      }
      RetainKeepsDistinct(all, excess);
    }
  }

  /** A candidate is temporary exactly when it is not one of the unreferenced indexed files. */
  lemma CandidateMeaning(index: set<RelativePath>, files: Stats, referenced: set<RelativePath>, policy: Policy, now: nat, c: Candidate)
    requires c in Candidates(index, files, referenced, policy, now)
    ensures c.path in files
    ensures !c.temporary <==> c.path in index && Evictable(c.path, files, referenced, policy, now)
    ensures c.temporary ==> IsTemporary(c.path)
  {
    var plain := Unreferenced(index, files, referenced, policy, now);
    var paths := Ascending(plain + Temporaries(files));
    var all := Candidates(index, files, referenced, policy, now);
    var i :| 0 <= i < |all| && all[i] == c;
    assert paths[i] in paths;
  }

  /** The unreferenced files among the scanned keys. */
  function Select(keys: seq<RelativePath>, files: Stats, referenced: set<RelativePath>, policy: Policy, now: nat): set<RelativePath> {
    if keys == [] then {}
    else
      var last := keys[|keys| - 1];
      var before := Select(keys[..|keys| - 1], files, referenced, policy, now);
      if Evictable(last, files, referenced, policy, now) then before + {last} else before
  }

  lemma SelectStep(keys: seq<RelativePath>, i: nat, files: Stats, referenced: set<RelativePath>, policy: Policy, now: nat)
    requires i < |keys|
    ensures Select(keys[..i + 1], files, referenced, policy, now)
         == if Evictable(keys[i], files, referenced, policy, now) then Select(keys[..i], files, referenced, policy, now) + {keys[i]}
            else Select(keys[..i], files, referenced, policy, now)
  {
    assert keys[..i + 1][..i] == keys[..i];
  }

  lemma {:induction false} SelectSpec(keys: seq<RelativePath>, files: Stats, referenced: set<RelativePath>, policy: Policy, now: nat, p: RelativePath)
    ensures p in Select(keys, files, referenced, policy, now) <==> p in keys && Evictable(p, files, referenced, policy, now)
  {
    if keys != [] {
      SelectSpec(keys[..|keys| - 1], files, referenced, policy, now, p);
      assert keys == keys[..|keys| - 1] + [keys[|keys| - 1]];
    }
  }

  lemma SelectIsUnreferenced(index: set<RelativePath>, files: Stats, referenced: set<RelativePath>, policy: Policy, now: nat)
    ensures Select(Ascending(index), files, referenced, policy, now) == Unreferenced(index, files, referenced, policy, now)
  {
    forall p ensures p in Select(Ascending(index), files, referenced, policy, now) <==> p in Unreferenced(index, files, referenced, policy, now) {
      SelectSpec(Ascending(index), files, referenced, policy, now, p);
    }
  }

  /** What an executed prune leaves behind and reports. */
  ghost predicate Pruned(f0: Stats, i0: map<RelativePath, ManagedFile>, f1: Stats, i1: map<RelativePath, ManagedFile>,
                         report: Report, blocked: set<RelativePath>)
  {
    && f1 == f0 - Deleted(report.candidates, f0, blocked)
    && i1 == i0 - Unindexed(report.candidates, f0, blocked)
    && report.removedFiles == |Deleted(report.candidates, f0, blocked)|
    && report.removedBytes == Bytes(Survivors(report.candidates, blocked))
    && report.skippedLocked == SkippedOf(report.candidates, blocked)
  }

  class CacheManager {
    var files: Stats
    var index: map<RelativePath, ManagedFile>

    constructor (files: Stats, index: map<RelativePath, ManagedFile>)
      ensures this.files == files && this.index == index
    {
      this.files, this.index := files, index;
    }

    method ScanIndex(referenced: set<RelativePath>, policy: Policy, now: nat) returns (plain: set<RelativePath>)
      ensures plain == Unreferenced(index.Keys, files, referenced, policy, now)
    {
      plain := {};
      var keys := Ascending(index.Keys);
      for i := 0 to |keys|
        invariant plain == Select(keys[..i], files, referenced, policy, now)
      {
        SelectStep(keys, i, files, referenced, policy, now);
        if Evictable(keys[i], files, referenced, policy, now) { plain := plain + {keys[i]}; }
      }
      assert keys[..|keys|] == keys;
      SelectIsUnreferenced(index.Keys, files, referenced, policy, now);
    }

    method RetainWithin(candidates: seq<Candidate>, initial: nat) returns (kept: seq<Candidate>)
      ensures kept == Retain(candidates, initial)
    {
      var excess := initial;
      kept := [];
      assert candidates[0..] == candidates;
      for i := 0 to |candidates|
        invariant Retain(candidates, initial) == kept + Retain(candidates[i..], excess)
      {
        var c := candidates[i];
        RetainStep(candidates, i, excess);
        if c.temporary || excess > 0 {
          excess := Minus(excess, c.bytes);
          kept := kept + [c];
        }
      }
      assert candidates[|candidates|..] == [];
    }

    method Choose(referenced: set<RelativePath>, policy: Policy, now: nat) returns (candidates: seq<Candidate>)
      ensures candidates == Chosen(index.Keys, files, referenced, policy, now)
      ensures DistinctPaths(candidates) && Measured(candidates, files)
    {
      ChosenIsWellFormed(index.Keys, files, referenced, policy, now);
      var plain := ScanIndex(referenced, policy, now);
      candidates := Assemble(plain, files);
      if policy.maxSize.Some? {
        candidates := RetainWithin(candidates, Minus(CacheBytes(files), policy.maxSize.value));
      }
    }

    /** `prune`. `locked` are the lock keys somebody else holds throughout. */
    method PruneCache(policy: Policy, now: nat, indexes: seq<Option<seq<ManagedFile>>>, locked: set<string>, dryRun: bool)
      returns (report: Report)
      modifies this
      ensures report.dryRun == dryRun
      ensures report.candidates == Chosen(old(index).Keys, old(files), Referenced(indexes), policy, now)
      ensures dryRun ==> files == old(files) && index == old(index) && report == Report(report.candidates, 0, 0, 0, true)
      ensures !dryRun ==> Pruned(old(files), old(index), files, index, report, Blocked(old(files), locked))
    {
      var blocked := Blocked(files, locked);
      var candidates := Choose(Referenced(indexes), policy, now);
      report := Report(candidates, 0, 0, 0, dryRun);
      if !dryRun { report := Execute(candidates, blocked); }
    }

    method Execute(candidates: seq<Candidate>, blocked: set<RelativePath>) returns (report: Report)
      requires DistinctPaths(candidates) && Measured(candidates, files)
      modifies this
      ensures report.candidates == candidates && !report.dryRun
      ensures Pruned(old(files), old(index), files, index, report, blocked)
    {
      var removed: set<RelativePath>;
      report, removed := RemoveCandidates(candidates, blocked);
      if removed != {} {
        index := index - removed;
      }
    }

    /** One candidate: skipped when its lock is taken, otherwise removed and counted. */
    method RemoveCandidate(candidate: Candidate, blocked: set<RelativePath>, report: Report, ghost before: Stats, ghost done: seq<Candidate>,
                           unindexed: set<RelativePath>)
      returns (counted: Report, out: set<RelativePath>)
      requires FilesGone(before, files, done, blocked, unindexed) && Counted(before, done, blocked, report)
      requires candidate.path in before && candidate.bytes == before[candidate.path].length
      requires forall d :: d in done ==> d.path != candidate.path
      modifies this`files
      ensures FilesGone(before, files, done + [candidate], blocked, out) && Counted(before, done + [candidate], blocked, counted)
      ensures counted.candidates == report.candidates && counted.dryRun == report.dryRun
    {
      OneMoreGone(before, files, done, candidate, blocked, unindexed);
      OneMoreCounted(before, done, candidate, blocked, report);
      counted, out := report, unindexed;
      if candidate.path in blocked {
        counted := report.(skippedLocked := report.skippedLocked + 1);
      } else if candidate.path in files {
        counted := report.(removedFiles := report.removedFiles + 1,
                           removedBytes := report.removedBytes + files[candidate.path].length);
        files := files - {candidate.path};
        if !candidate.temporary { out := unindexed + {candidate.path}; }
      }
    }

    method RemoveCandidates(candidates: seq<Candidate>, blocked: set<RelativePath>) returns (report: Report, unindexed: set<RelativePath>)
      requires DistinctPaths(candidates) && Measured(candidates, files)
      modifies this`files
      ensures FilesGone(old(files), files, candidates, blocked, unindexed) && Counted(old(files), candidates, blocked, report)
      ensures report.candidates == candidates && !report.dryRun
    {
      report, unindexed := Report(candidates, 0, 0, 0, false), {};
      ghost var before := files;
      for i := 0 to |candidates|
        invariant FilesGone(before, files, candidates[..i], blocked, unindexed)
        invariant Counted(before, candidates[..i], blocked, report)
        invariant report.candidates == candidates && !report.dryRun
      {
        TakeNext(candidates, before, i);
        report, unindexed := RemoveCandidate(candidates[i], blocked, report, before, candidates[..i], unindexed);
      }
      assert candidates[..|candidates|] == candidates;
    }
  }

  lemma TakeNext(candidates: seq<Candidate>, files: Stats, i: nat)
    requires DistinctPaths(candidates) && Measured(candidates, files) && i < |candidates|
    ensures candidates[..i + 1] == candidates[..i] + [candidates[i]]
    ensures candidates[i].path in files && candidates[i].bytes == files[candidates[i].path].length
    ensures forall d :: d in candidates[..i] ==> d.path != candidates[i].path
  {
    assert candidates[i] in candidates;
  }

  ghost predicate FilesGone(before: Stats, files: Stats, done: seq<Candidate>, blocked: set<RelativePath>, unindexed: set<RelativePath>) {
    files == before - Deleted(done, before, blocked) && unindexed == Unindexed(done, before, blocked)
  }

  ghost predicate Counted(before: Stats, done: seq<Candidate>, blocked: set<RelativePath>, report: Report) {
    && report.removedFiles == |Deleted(done, before, blocked)|
    && report.removedBytes == Bytes(Survivors(done, blocked))
    && report.skippedLocked == SkippedOf(done, blocked)
  }

  lemma {:induction false} SurvivorsOneMore(candidates: seq<Candidate>, c: Candidate, blocked: set<RelativePath>)
    ensures Survivors(candidates + [c], blocked) == Survivors(candidates, blocked) + if c.path in blocked then [] else [c]
  {
    if candidates != [] {
      SurvivorsOneMore(candidates[1..], c, blocked);
      assert (candidates + [c])[1..] == candidates[1..] + [c];
    }
  }

  lemma OneMoreGone(before: Stats, files: Stats, done: seq<Candidate>, c: Candidate, blocked: set<RelativePath>, unindexed: set<RelativePath>)
    requires FilesGone(before, files, done, blocked, unindexed)
    requires c.path in before && forall d :: d in done ==> d.path != c.path
    ensures c.path in files && files[c.path] == before[c.path]
    ensures c.path in blocked ==> FilesGone(before, files, done + [c], blocked, unindexed)
    ensures c.path !in blocked ==>
      FilesGone(before, files - {c.path}, done + [c], blocked, unindexed + if c.temporary then {} else {c.path})
  {
    DeletedOneMore(before, done, c, blocked);
  }

  lemma OneMoreCounted(before: Stats, done: seq<Candidate>, c: Candidate, blocked: set<RelativePath>, report: Report)
    requires Counted(before, done, blocked, report)
    requires c.path in before && c.bytes == before[c.path].length && forall d :: d in done ==> d.path != c.path
    ensures c.path in blocked ==> Counted(before, done + [c], blocked, report.(skippedLocked := report.skippedLocked + 1))
    ensures c.path !in blocked ==>
      Counted(before, done + [c], blocked, report.(removedFiles := report.removedFiles + 1, removedBytes := report.removedBytes + c.bytes))
  {
    DeletedGrows(before, done, c, blocked);
    SkippedOneMore(done, c, blocked);
    SurvivorsGrow(done, c, blocked);
  }

  lemma DeletedGrows(before: Stats, done: seq<Candidate>, c: Candidate, blocked: set<RelativePath>)
    requires c.path in before && forall d :: d in done ==> d.path != c.path
    ensures |Deleted(done + [c], before, blocked)| == |Deleted(done, before, blocked)| + if c.path in blocked then 0 else 1
  {
    DeletedOneMore(before, done, c, blocked);
    var gone := Deleted(done, before, blocked);
    assert gone + {} == gone && |gone + {c.path}| == |gone| + 1;
  }

  lemma SurvivorsGrow(done: seq<Candidate>, c: Candidate, blocked: set<RelativePath>)
    ensures Bytes(Survivors(done + [c], blocked)) == Bytes(Survivors(done, blocked)) + if c.path in blocked then 0 else c.bytes
  {
    SurvivorsOneMore(done, c, blocked);
    var kept := Survivors(done, blocked);
    BytesAppend(kept, [c]);
    assert [c][1..] == [] && kept + [] == kept;
  }

  lemma DeletedOneMore(before: Stats, done: seq<Candidate>, c: Candidate, blocked: set<RelativePath>)
    requires c.path in before && forall d :: d in done ==> d.path != c.path
    ensures c.path !in Deleted(done, before, blocked)
    ensures Deleted(done + [c], before, blocked) == Deleted(done, before, blocked) + if c.path in blocked then {} else {c.path}
    ensures Unindexed(done + [c], before, blocked)
         == Unindexed(done, before, blocked) + if c.path in blocked || c.temporary then {} else {c.path}
  {
    assert forall d :: d in done + [c] <==> d in done || d == c;
    assert Removed(c, before, blocked) <==> c.path !in blocked;
  }

  // ---- the index and the files stay in agreement

  /** A referenced file is deleted exactly when its name looks temporary and its lock is free. */
  lemma ReferencedFilesGoOnlyIfTemporary(index: set<RelativePath>, files: Stats, indexes: seq<Option<seq<ManagedFile>>>,
                                         policy: Policy, now: nat, blocked: set<RelativePath>, p: RelativePath)
    requires p in Referenced(indexes)
    ensures
      var chosen := Chosen(index, files, Referenced(indexes), policy, now);
      p in Deleted(chosen, files, blocked) <==> p in files && IsTemporary(p) && p !in blocked
  {
    var referenced := Referenced(indexes);
    var all, chosen := Candidates(index, files, referenced, policy, now), Chosen(index, files, referenced, policy, now);
    ChosenIsWellFormed(index, files, referenced, policy, now);
    if p in Deleted(chosen, files, blocked) {
      var c :| c in chosen && Removed(c, files, blocked) && c.path == p;
      CandidateMeaning(index, files, referenced, policy, now, c);
    }
    if p in files && IsTemporary(p) && p !in blocked {
      var plain := Unreferenced(index, files, referenced, policy, now);
      var paths := Ascending(plain + Temporaries(files));
      assert p in paths;
      var i :| 0 <= i < |paths| && paths[i] == p;
      assert all[i] == Candidate(p, files[p].length, true);
      assert all[i] in chosen && Removed(all[i], files, blocked);
    }
  }

  /** An indexed file that is taken for a temporary one: present, unlocked, temporary-named and not evictable. */
  predicate Misnamed(path: RelativePath, index: set<RelativePath>, files: Stats, referenced: set<RelativePath>, policy: Policy, now: nat,
                     blocked: set<RelativePath>)
  {
    path in index && path in files && path !in blocked && IsTemporary(path) && !Evictable(path, files, referenced, policy, now)
  }

  /** The index loses exactly the indexed files that go, so no indexed file goes missing. */
  ghost predicate InAgreement(index: set<RelativePath>, files: Stats, deleted: set<RelativePath>, unindexed: set<RelativePath>) {
    && unindexed == deleted * index
    && (forall p :: p in index - unindexed && p in files ==> p in files.Keys - deleted)
  }

  /** Every candidate from the index is one of the non-temporary ones. */
  lemma UnindexedIsIndexed(index: set<RelativePath>, files: Stats, referenced: set<RelativePath>, policy: Policy, now: nat, blocked: set<RelativePath>)
    ensures
      var chosen := Chosen(index, files, referenced, policy, now);
      Unindexed(chosen, files, blocked) <= Deleted(chosen, files, blocked) * index
  {
    var chosen := Chosen(index, files, referenced, policy, now);
    ChosenIsWellFormed(index, files, referenced, policy, now);
    forall c | c in chosen && !c.temporary ensures c.path in index { CandidateMeaning(index, files, referenced, policy, now, c); }
  }

  /** What is deleted although it stays in the index is exactly what is misnamed. */
  lemma DeletedAndIndexed(index: set<RelativePath>, files: Stats, referenced: set<RelativePath>, policy: Policy, now: nat,
                          blocked: set<RelativePath>, p: RelativePath)
    requires p in index
    ensures
      var chosen := Chosen(index, files, referenced, policy, now);
      p in Deleted(chosen, files, blocked) && p !in Unindexed(chosen, files, blocked) <==> Misnamed(p, index, files, referenced, policy, now, blocked)
  {
    var all, chosen := Candidates(index, files, referenced, policy, now), Chosen(index, files, referenced, policy, now);
    ChosenIsWellFormed(index, files, referenced, policy, now);
    if p in Deleted(chosen, files, blocked) {
      var c :| c in chosen && Removed(c, files, blocked) && c.path == p;
      CandidateMeaning(index, files, referenced, policy, now, c);
      SamePathSameCandidate(chosen, c);
    }
    if Misnamed(p, index, files, referenced, policy, now, blocked) {
      var plain := Unreferenced(index, files, referenced, policy, now);
      var paths := Ascending(plain + Temporaries(files));
      assert p in paths;
      var i :| 0 <= i < |paths| && paths[i] == p;
      var c := all[i];
      assert c == Candidate(p, files[p].length, true) && c in all;
      assert Removed(c, files, blocked);
      SamePathSameCandidate(chosen, c);
    }
  }

  lemma SamePathSameCandidate(chosen: seq<Candidate>, c: Candidate)
    requires DistinctPaths(chosen) && c in chosen
    ensures forall d :: d in chosen && d.path == c.path ==> d == c
  {
  }

  /**
   * A prune takes out of the index exactly the indexed files it deletes, and no other indexed file goes missing,
   * unless an indexed file is misnamed; one such file is enough to break both. Locked files are never deleted.
   */
  lemma PruneKeepsIndexInAgreement(index: set<RelativePath>, files: Stats, referenced: set<RelativePath>,
                                   policy: Policy, now: nat, blocked: set<RelativePath>)
    ensures
      var chosen := Chosen(index, files, referenced, policy, now);
      var deleted, unindexed := Deleted(chosen, files, blocked), Unindexed(chosen, files, blocked);
      && (InAgreement(index, files, deleted, unindexed) <==> forall p :: !Misnamed(p, index, files, referenced, policy, now, blocked))
      && deleted !! blocked
  {
    var chosen := Chosen(index, files, referenced, policy, now);
    var deleted, unindexed := Deleted(chosen, files, blocked), Unindexed(chosen, files, blocked);
    UnindexedIsIndexed(index, files, referenced, policy, now, blocked);
    forall p | p in index ensures p in deleted && p !in unindexed <==> Misnamed(p, index, files, referenced, policy, now, blocked) {
      DeletedAndIndexed(index, files, referenced, policy, now, blocked, p);
    }
    assert (forall p :: p in index ==> !(p in deleted && p !in unindexed)) <==> unindexed == deleted * index;
  }

  /** A part file is protected by the lock of the download that is writing it. */
  lemma PartSharesLock(path: RelativePath)
    requires !EndsWith(path, ".part")
    ensures LockKey(path + ".part") == LockKey(path)
  {
    assert (path + ".part")[|path|..] == ".part";
    assert (path + ".part")[..|path|] == path;
  }
}
