/** Rolling back abandoned updates, one filesystem step at a time. */
module Recovery {
  import opened Wrappers
  import opened Contents
  import opened Ordering
  import opened Disk
  import opened Restore

  /** How far a run may move a tree: towards the same outcome, never away from being restorable. */
  ghost predicate Advances(f0: Files, d0: set<Path>, f1: Files, d1: set<Path>, order: seq<Name>) {
    && SameOutcome(f0, f1, order)
    && OnlyShrinks(f0, d0, f1, d1)
    && (Restorable(f0, d0, order) ==> Restorable(f1, d1, order))
  }

  /** Inside the updates nothing is added or altered. */
  ghost predicate OnlyShrinks(f0: Files, d0: set<Path>, f1: Files, d1: set<Path>) {
    && (forall p :: InStaging(p) && p in f1 ==> p in f0 && f1[p] == f0[p])
    && (forall p :: InStaging(p) && p in d1 ==> p in d0)
  }

  lemma SourcesShrink(f0: Files, d0: set<Path>, f1: Files, d1: set<Path>, s: Name, d: Path)
    requires OnlyShrinks(f0, d0, f1, d1) && IsUpdateName(s)
    ensures HasBackup(f1, s, d) ==> HasBackup(f0, s, d)
    ensures HasSaved(f1, s, d) ==> HasSaved(f0, s, d)
  {
    PlacesApart(s, d, s, d);
  }

  lemma NestingStaysOut(f0: Files, d0: set<Path>, f1: Files, d1: set<Path>, order: seq<Name>)
    requires UpdateNames(order) && OnlyShrinks(f0, d0, f1, d1) && NoNesting(f0, order)
    ensures NoNesting(f1, order)
  {
    forall s, d | s in order && HasBackup(f1, s, d) ensures !InStaging(d) {
      SourcesShrink(f0, d0, f1, d1, s, d);
    }
  }

  lemma TargetsShrink(f0: Files, d0: set<Path>, f1: Files, d1: set<Path>, order: seq<Name>, d: Path)
    requires UpdateNames(order) && OnlyShrinks(f0, d0, f1, d1) && Target(f1, order, d)
    ensures Target(f0, order, d)
  {
    var s :| s in order && HasSource(f1, s, d);
    SourcesShrink(f0, d0, f1, d1, s, d);
  }

  /** A step that only adds targets as files and ancestors of targets as directories stays restorable. */
  lemma StaysRestorable(f0: Files, d0: set<Path>, f1: Files, d1: set<Path>, order: seq<Name>)
    requires UpdateNames(order) && Restorable(f0, d0, order) && OnlyShrinks(f0, d0, f1, d1)
    requires forall p :: p in f1 ==> p in f0 || Target(f0, order, p)
    requires forall p :: p in d1 ==> p in d0 || exists t :: Target(f0, order, t) && Above(p, t)
    ensures Restorable(f1, d1, order)
  {
    NestingStaysOut(f0, d0, f1, d1, order);
    forall s | s in order
      ensures Staging(s) !in f1 && BackupRoot(s) !in f1 && InstanceSaved(s) !in d1 && IndexSaved(s) !in d1
    {
      PlacesApart(s, [], s, []);
      assert BackupRoot(s) + [] == BackupRoot(s);
      assert InStaging(Staging(s));
    }
    if Target(f1, order, RUNTIME) { TargetsShrink(f0, d0, f1, d1, order, RUNTIME); }
    forall d | Target(f1, order, d) ensures d !in d1 {
      TargetsShrink(f0, d0, f1, d1, order, d);
    }
    forall d, q | Target(f1, order, d) && Above(q, d) ensures q !in f1 && !Target(f1, order, q) {
      TargetsShrink(f0, d0, f1, d1, order, d);
      if Target(f1, order, q) { TargetsShrink(f0, d0, f1, d1, order, q); }
    }
  }

  lemma AdvancesTransitively(f0: Files, d0: set<Path>, f1: Files, d1: set<Path>, f2: Files, d2: set<Path>, order: seq<Name>)
    requires Advances(f0, d0, f1, d1, order) && Advances(f1, d1, f2, d2, order)
    ensures Advances(f0, d0, f2, d2, order)
  {
  }

  lemma AncestorsAreOutside(q: Path, d: Path)
    requires Above(q, d) && !InStaging(d)
    ensures !InStaging(q)
  {
    assert |q| >= 2 ==> q[0] == d[0] && q[1] == d[1];
  }

  lemma CreatingAParentAdvances(f: Files, d: set<Path>, order: seq<Name>, parent: Path, target: Path)
    requires UpdateNames(order) && Target(f, order, target) && !InStaging(target) && Above(parent, target)
    ensures Advances(f, d, f, d + {parent}, order)
  {
    AncestorsAreOutside(parent, target);
    if Restorable(f, d, order) { StaysRestorable(f, d, f, d + {parent}, order); }
  }

  lemma RemovingATargetAdvances(f: Files, d: set<Path>, order: seq<Name>, target: Path)
    requires UpdateNames(order) && Target(f, order, target) && !InStaging(target)
    ensures Advances(f, d, f - {target}, d, order)
  {
    RemovingATargetIsHarmless(f, order, target);
    if Restorable(f, d, order) { StaysRestorable(f, d, f - {target}, d, order); }
  }

  lemma MovingBackAdvances(f: Files, d: set<Path>, order: seq<Name>, s: Name, from: Path, to: Path)
    requires UpdateNames(order) && order != [] && order[0] == s && MovesBack(f, s, from, to)
    ensures Advances(f, d, (f - {from})[to := f[from]], d, order)
  {
    MovingBackIsHarmless(f, order, s, from, to);
    assert HasSource(f, s, to) && s in order;
    if Restorable(f, d, order) { StaysRestorable(f, d, (f - {from})[to := f[from]], d, order); }
  }

  lemma DroppingAdvances(f: Files, d: set<Path>, f1: Files, d1: set<Path>, order: seq<Name>, s: Name)
    requires UpdateNames(order) && IsUpdateName(s) && forall t :: !HasSource(f, s, t)
    requires forall p :: !(Staging(s) <= p) ==> At(f1, p) == At(f, p) && (p in d1 <==> p in d)
    requires f1.Keys <= f.Keys && d1 <= d && forall p :: p in f1 ==> f1[p] == f[p]
    ensures Advances(f, d, f1, d1, order)
  {
    DroppingAnEmptiedUpdateIsHarmless(f, f1, order, s);
    if Restorable(f, d, order) { StaysRestorable(f, d, f1, d1, order); }
  }

  // ---- the recovery code

  /** `ensure_recovery_parents`. */
  method EnsureParents(tree: FileTree, to: Path, ghost order: seq<Name>) returns (r: Outcome)
    requires tree.Valid() && to != [] && UpdateNames(order) && Target(tree.files, order, to) && !InStaging(to)
    modifies tree
    ensures tree.Valid() && (tree.budget.None? <==> old(tree.budget).None?)
    ensures tree.files == old(tree.files) && Advances(old(tree.files), old(tree.dirs), tree.files, tree.dirs, order)
    ensures forall p :: InStaging(p) ==> (p in tree.dirs <==> p in old(tree.dirs))
    ensures r == Finished ==> Parent(to) in tree.dirs
    ensures r == Died ==> tree.budget.Some?
    ensures r == Reported ==> !Restorable(old(tree.files), old(tree.dirs), order)
  {
    assert to[..0] == [];
    for k := 1 to |to|
      invariant tree.Valid() && (tree.budget.None? <==> old(tree.budget).None?)
      invariant tree.files == old(tree.files) && Advances(old(tree.files), old(tree.dirs), tree.files, tree.dirs, order)
      invariant forall p :: InStaging(p) ==> (p in tree.dirs <==> p in old(tree.dirs))
      invariant to[..k - 1] in tree.dirs
    {
      var current := to[..k];
      assert Parent(current) == to[..k - 1] && Above(current, to);
      if current in tree.files { return Reported; }
      if current !in tree.dirs {
        CreatingAParentAdvances(tree.files, tree.dirs, order, current, to);
        AncestorsAreOutside(current, to);
        ghost var before := tree.dirs;
        var dead := tree.CreateDir(current);
        if dead { return Died; }
        AdvancesTransitively(old(tree.files), old(tree.dirs), tree.files, before, tree.files, tree.dirs, order);
      }
    }
    r := Finished;
  }

  /** Remove what stands at `to`, then rename `from` there. */
  method ReplaceFile(tree: FileTree, from: Path, to: Path, ghost s: Name, ghost order: seq<Name>) returns (r: Outcome)
    requires tree.Valid() && UpdateNames(order) && order != [] && order[0] == s
    requires MovesBack(tree.files, s, from, to) && Parent(to) in tree.dirs
    modifies tree
    ensures tree.Valid() && tree.dirs == old(tree.dirs) && (tree.budget.None? <==> old(tree.budget).None?)
    ensures Advances(old(tree.files), old(tree.dirs), tree.files, tree.dirs, order)
    ensures forall p :: InStaging(p) && p != from ==> At(tree.files, p) == At(old(tree.files), p)
    ensures r == Finished ==> from !in tree.files
    ensures r == Died ==> tree.budget.Some?
    ensures r == Reported ==> !Restorable(old(tree.files), old(tree.dirs), order)
  {
    assert HasSource(tree.files, s, to) && s in order && Target(tree.files, order, to);
    PlacesApart(s, to, s, to);
    if to in tree.dirs { return Reported; }
    var dead;
    if to in tree.files {
      RemovingATargetAdvances(tree.files, tree.dirs, order, to);
      dead := tree.RemoveFile(to);
      if dead { return Died; }
    }
    ghost var middle := tree.files;
    assert MovesBack(middle, s, from, to);
    MovingBackAdvances(middle, tree.dirs, order, s, from, to);
    dead := tree.Rename(from, to);
    if dead { return Died; }
    AdvancesTransitively(old(tree.files), old(tree.dirs), middle, tree.dirs, tree.files, tree.dirs, order);
    r := Finished;
  }

  /** One regular file of the backup tree goes home. */
  method RestoreBackup(tree: FileTree, path: Path, s: Name, ghost order: seq<Name>) returns (r: Outcome)
    requires tree.Valid() && UpdateNames(order) && order != [] && order[0] == s && NoNesting(tree.files, order)
    requires path in tree.files && BackupRoot(s) < path
    modifies tree
    ensures tree.Valid() && (tree.budget.None? <==> old(tree.budget).None?)
    ensures Advances(old(tree.files), old(tree.dirs), tree.files, tree.dirs, order)
    ensures forall p :: InStaging(p) && p != path ==> At(tree.files, p) == At(old(tree.files), p)
    ensures forall p :: InStaging(p) ==> (p in tree.dirs <==> p in old(tree.dirs))
    ensures r == Finished ==> path !in tree.files
    ensures r == Died ==> tree.budget.Some?
    ensures r == Reported ==> !Restorable(old(tree.files), old(tree.dirs), order)
  {
    var to := path[|BackupRoot(s)|..];
    assert path == BackupRoot(s) + to;
    assert HasBackup(tree.files, s, to) && s in order;
    assert HasSource(tree.files, s, to) && Target(tree.files, order, to);
    r := EnsureParents(tree, to, order);
    if r == Finished {
      ghost var middle := tree.dirs;
      r := ReplaceFile(tree, path, to, s, order);
      AdvancesTransitively(old(tree.files), old(tree.dirs), old(tree.files), middle, tree.files, tree.dirs, order);
    }
  }

  /** Progress that stays within the backup tree of `s` as far as the updates are concerned. */
  ghost predicate Within(f0: Files, d0: set<Path>, f1: Files, d1: set<Path>, s: Name, order: seq<Name>) {
    && Advances(f0, d0, f1, d1, order)
    && (forall p :: InStaging(p) && !(BackupRoot(s) <= p) ==> At(f1, p) == At(f0, p))
    && (forall p :: InStaging(p) ==> (p in d1 <==> p in d0))
  }

  lemma WithinTransitively(f0: Files, d0: set<Path>, f1: Files, d1: set<Path>, f2: Files, d2: set<Path>, s: Name, order: seq<Name>)
    requires Within(f0, d0, f1, d1, s, order) && Within(f1, d1, f2, d2, s, order)
    ensures Within(f0, d0, f2, d2, s, order)
  {
    AdvancesTransitively(f0, d0, f1, d1, f2, d2, order);
  }

  /** Every file below the backup root is, or lies below, one of `tops`. */
  ghost predicate Covered(files: Files, s: Name, tops: seq<Path>) {
    forall p :: p in files && BackupRoot(s) < p ==> exists top :: top in tops && top <= p
  }

  /** Where the directory walk stands: `pushed` has been seen, `popped` is finished with. */
  ghost predicate Walking(dirs: set<Path>, s: Name, stack: seq<Path>, popped: set<Path>) {
    && Distinct(stack)
    && (forall d :: d in stack ==> d !in popped)
    && (forall d :: d in stack || d in popped ==> d in dirs && BackupRoot(s) <= d)
    && (forall d :: (d in stack || d in popped) && d != BackupRoot(s) ==> Parent(d) in popped)
  }

  lemma BackupPathsAreInStaging(s: Name, p: Path)
    requires IsUpdateName(s) && BackupRoot(s) <= p
    ensures InStaging(p)
  {
    PlacesApart(s, p[3..], s, []);
    assert p == BackupRoot(s) + p[3..];
  }

  lemma WalkingElsewhere(before: set<Path>, after: set<Path>, s: Name, stack: seq<Path>, popped: set<Path>)
    requires IsUpdateName(s) && Walking(before, s, stack, popped)
    requires forall p :: InStaging(p) ==> (p in after <==> p in before)
    ensures Walking(after, s, stack, popped)
  {
    forall d | d in stack || d in popped ensures d in after { BackupPathsAreInStaging(s, d); }
  }

  /** Opening a directory: its entries take over what it covered. */
  lemma EntriesCover(files: Files, dirs: set<Path>, s: Name, stack: seq<Path>, entries: seq<Path>)
    requires IsTree(files, dirs) && stack != [] && Covered(files, s, stack)
    requires stack[|stack| - 1] in dirs
    requires forall q :: Exists(files, dirs, q) && q != [] && Parent(q) == stack[|stack| - 1] ==> q in entries
    ensures Covered(files, s, stack[..|stack| - 1] + entries)
  {
    var d, rest := stack[|stack| - 1], stack[..|stack| - 1];
    assert stack == rest + [d];
    forall p | p in files && BackupRoot(s) < p ensures exists top :: top in rest + entries && top <= p {
      var top :| top in stack && top <= p;
      if top == d {
        assert p != d;
        var child := p[..|d| + 1];
        if child != p { AncestorsAreDirs(files, dirs, p, |d| + 1); }
        assert Parent(child) == d;
        assert child in rest + entries && child <= p;
      } else {
        assert top in rest + entries;
      }
    }
  }

  /** A file covers nothing but itself, so once it is gone the other tops cover what is left. */
  lemma FileCoversItself(f0: Files, d0: set<Path>, f1: Files, s: Name, tops: seq<Path>, path: Path, after: seq<Path>)
    requires IsUpdateName(s) && IsTree(f0, d0) && path in f0 && Covered(f0, s, tops)
    requires forall p :: InStaging(p) && p in f1 ==> p in f0 && p != path
    requires forall top :: top in tops ==> top == path || top in after
    ensures Covered(f1, s, after)
  {
    forall p | p in f1 && BackupRoot(s) < p ensures exists top :: top in after && top <= p {
      BackupPathsAreInStaging(s, p);
      assert path <= p ==> p[..|path|] == path;
      if path <= p { AncestorsAreDirs(f0, d0, p, |path|); }
      var top :| top in tops && top <= p;
    }
  }

  /** The walk inside one directory: `left` are the entries not looked at yet. */
  ghost predicate Listing(files: Files, dirs: set<Path>, s: Name, directories: seq<Path>, popped: set<Path>, left: seq<Path>) {
    && Walking(dirs, s, directories, popped)
    && Covered(files, s, directories + left)
    && Distinct(left)
    && (forall q :: q in left ==> q !in directories && q !in popped && Exists(files, dirs, q))
    && (forall q :: q in left ==> BackupRoot(s) < q && Parent(q) in popped)
  }

  lemma EntriesAreNew(dirs: set<Path>, s: Name, stack: seq<Path>, popped: set<Path>, q: Path)
    requires stack != [] && Walking(dirs, s, stack, popped) && q != [] && Parent(q) == stack[|stack| - 1]
    ensures BackupRoot(s) < q && q !in stack && q !in popped
  {
    var d := stack[|stack| - 1];
    assert d in stack && BackupRoot(s) <= d;
    assert q == d + [q[|q| - 1]];
  }

  lemma TopIsOnce(stack: seq<Path>)
    requires stack != [] && Distinct(stack)
    ensures Distinct(stack[..|stack| - 1]) && stack[|stack| - 1] !in stack[..|stack| - 1]
    ensures forall e :: e in stack <==> e in stack[..|stack| - 1] || e == stack[|stack| - 1]
  {
    assert stack == stack[..|stack| - 1] + [stack[|stack| - 1]];
  }

  lemma OpenDirectory(files: Files, dirs: set<Path>, s: Name, stack: seq<Path>, popped: set<Path>, entries: seq<Path>)
    requires IsTree(files, dirs) && stack != [] && Walking(dirs, s, stack, popped) && Covered(files, s, stack)
    requires Distinct(entries)
    requires forall q :: q in entries <==> Exists(files, dirs, q) && q != [] && Parent(q) == stack[|stack| - 1]
    ensures Listing(files, dirs, s, stack[..|stack| - 1], popped + {stack[|stack| - 1]}, entries)
  {
    var d, rest := stack[|stack| - 1], stack[..|stack| - 1];
    TopIsOnce(stack);
    EntriesCover(files, dirs, s, stack, entries);
    forall q | q in entries ensures BackupRoot(s) < q && q !in stack && q !in popped {
      EntriesAreNew(dirs, s, stack, popped, q);
    }
    assert Walking(dirs, s, rest, popped + {d});
  }

  lemma PushEntry(files: Files, dirs: set<Path>, s: Name, directories: seq<Path>, popped: set<Path>, left: seq<Path>)
    requires Listing(files, dirs, s, directories, popped, left) && left != [] && left[0] in dirs
    ensures Listing(files, dirs, s, directories + [left[0]], popped, left[1..])
  {
    assert left == [left[0]] + left[1..];
    assert directories + left == (directories + [left[0]]) + left[1..];
    assert left[0] in left && forall q :: q in left[1..] ==> q in left;
  }

  lemma DropEntry(f0: Files, d0: set<Path>, f1: Files, d1: set<Path>, s: Name, directories: seq<Path>, popped: set<Path>, left: seq<Path>)
    requires IsUpdateName(s) && IsTree(f0, d0) && Listing(f0, d0, s, directories, popped, left)
    requires left != [] && left[0] in f0 && left[0] !in f1
    requires forall p :: InStaging(p) && p != left[0] ==> At(f1, p) == At(f0, p)
    requires forall p :: InStaging(p) ==> (p in d1 <==> p in d0)
    ensures Listing(f1, d1, s, directories, popped, left[1..])
  {
    assert left == [left[0]] + left[1..];
    WalkingElsewhere(d0, d1, s, directories, popped);
    forall p | InStaging(p) && p in f1 ensures p in f0 && p != left[0] { assert At(f1, p) == At(f0, p); }
    FileCoversItself(f0, d0, f1, s, directories + left, left[0], directories + left[1..]);
    forall q | q in left[1..] ensures q in left && Exists(f1, d1, q) {
      assert q in left;
      BackupPathsAreInStaging(s, q);
      assert At(f1, q) == At(f0, q);
    }
  }

  /** One directory of the walk: push its subdirectories and send its files home. */
  method VisitDirectory(tree: FileTree, s: Name, stack: seq<Path>, ghost popped0: set<Path>, ghost order: seq<Name>)
    returns (r: Outcome, directories: seq<Path>, ghost popped: set<Path>)
    requires tree.Valid() && UpdateNames(order) && order != [] && order[0] == s && NoNesting(tree.files, order)
    requires stack != [] && Walking(tree.dirs, s, stack, popped0) && Covered(tree.files, s, stack)
    modifies tree
    ensures tree.Valid() && (tree.budget.None? <==> old(tree.budget).None?)
    ensures Within(old(tree.files), old(tree.dirs), tree.files, tree.dirs, s, order)
    ensures r == Died ==> tree.budget.Some?
    ensures r == Reported ==> !Restorable(old(tree.files), old(tree.dirs), order)
    ensures popped == popped0 + {stack[|stack| - 1]}
    ensures r == Finished ==> Walking(tree.dirs, s, directories, popped) && Covered(tree.files, s, directories)
  {
    ghost var f0, d0 := tree.files, tree.dirs;
    directories := stack[..|stack| - 1];
    popped := popped0 + {stack[|stack| - 1]};
    r := Finished;
    assert stack[|stack| - 1] in stack;
    var entries := tree.ReadDir(stack[|stack| - 1]);
    OpenDirectory(f0, d0, s, stack, popped0, entries);
    assert entries[0..] == entries;
    for j := 0 to |entries|
      invariant tree.Valid() && (tree.budget.None? <==> old(tree.budget).None?)
      invariant Within(f0, d0, tree.files, tree.dirs, s, order)
      invariant Listing(tree.files, tree.dirs, s, directories, popped, entries[j..])
      invariant r == Finished
    {
      var path := entries[j];
      assert path == entries[j..][0] && entries[j..][1..] == entries[j + 1..];
      assert path in entries[j..];
      ghost var f1, d1 := tree.files, tree.dirs;
      if path in tree.dirs {
        PushEntry(f1, d1, s, directories, popped, entries[j..]);
        directories := directories + [path];
      } else {
        NestingStaysOut(f0, d0, f1, d1, order);
        r := RestoreBackup(tree, path, s, order);
        assert Within(f1, d1, tree.files, tree.dirs, s, order);
        WithinTransitively(f0, d0, f1, d1, tree.files, tree.dirs, s, order);
        if r != Finished { return; }
        DropEntry(f1, d1, tree.files, tree.dirs, s, directories, popped, entries[j..]);
      }
    }
    assert directories + entries[|entries|..] == directories;
  }

  /** `restore_backup_tree`. */
  method RestoreBackupTree(tree: FileTree, s: Name, ghost order: seq<Name>) returns (r: Outcome)
    requires tree.Valid() && UpdateNames(order) && order != [] && order[0] == s && NoNesting(tree.files, order)
    requires Exists(tree.files, tree.dirs, BackupRoot(s))
    modifies tree
    ensures tree.Valid() && (tree.budget.None? <==> old(tree.budget).None?)
    ensures Within(old(tree.files), old(tree.dirs), tree.files, tree.dirs, s, order)
    ensures r == Finished ==> forall p :: BackupRoot(s) <= p ==> p !in tree.files
    ensures r == Died ==> tree.budget.Some?
    ensures r == Reported ==> !Restorable(old(tree.files), old(tree.dirs), order)
  {
    ghost var f0, d0 := tree.files, tree.dirs;
    if BackupRoot(s) !in tree.dirs {
      assert s in order;
      return Reported;
    }
    var directories := [BackupRoot(s)];
    ghost var popped: set<Path> := {};
    ghost var all := set d | d in d0 && BackupRoot(s) <= d;
    assert BackupRoot(s) in directories;
    r := Finished;
    while directories != []
      invariant tree.Valid() && (tree.budget.None? <==> old(tree.budget).None?)
      invariant Within(f0, d0, tree.files, tree.dirs, s, order)
      invariant Walking(tree.dirs, s, directories, popped) && Covered(tree.files, s, directories)
      invariant BackupRoot(s) in tree.dirs && popped <= all
      invariant r == Finished
      decreases all - popped
    {
      ghost var f1, d1 := tree.files, tree.dirs;
      NestingStaysOut(f0, d0, f1, d1, order);
      ghost var top := directories[|directories| - 1];
      assert top in directories;
      BackupPathsAreInStaging(s, top);
      r, directories, popped := VisitDirectory(tree, s, directories, popped, order);
      WithinTransitively(f0, d0, f1, d1, tree.files, tree.dirs, s, order);
      BackupPathsAreInStaging(s, BackupRoot(s));
      if r != Finished { return; }
    }
    NothingLeft(tree.files, tree.dirs, s);
  }

  lemma NothingLeft(files: Files, dirs: set<Path>, s: Name)
    requires IsTree(files, dirs) && BackupRoot(s) in dirs && Covered(files, s, [])
    ensures forall p :: BackupRoot(s) <= p ==> p !in files
  {
    forall p | BackupRoot(s) <= p ensures p !in files {
      assert p in files ==> p != BackupRoot(s);
    }
  }

  lemma DocumentsAreOutside()
    ensures !InStaging(INSTANCE_DOC) && !InStaging(INDEX_DOC)
  {
    assert "managed-files.json"[0] != "update-"[0];
  }

  /** `restore_metadata_file`. */
  method RestoreSaved(tree: FileTree, from: Path, to: Path, s: Name, ghost order: seq<Name>) returns (r: Outcome)
    requires tree.Valid() && UpdateNames(order) && order != [] && order[0] == s
    requires SavedFor(s, to) == Some(from) && !HasBackup(tree.files, s, to)
    requires Parent(to) in tree.dirs
    modifies tree
    ensures tree.Valid() && tree.dirs == old(tree.dirs) && (tree.budget.None? <==> old(tree.budget).None?)
    ensures Advances(old(tree.files), old(tree.dirs), tree.files, tree.dirs, order)
    ensures forall p :: InStaging(p) && p != from ==> At(tree.files, p) == At(old(tree.files), p)
    ensures r == Finished ==> from !in tree.files
    ensures r == Died ==> tree.budget.Some?
    ensures r == Reported ==> !Restorable(old(tree.files), old(tree.dirs), order)
  {
    assert s in order;
    if from in tree.dirs { return Reported; }
    if from !in tree.files { return Finished; }
    DocumentsAreOutside();
    r := ReplaceFile(tree, from, to, s, order);
  }

  lemma NoSourcesLeft(files: Files, s: Name)
    requires forall p :: BackupRoot(s) <= p ==> p !in files
    requires InstanceSaved(s) !in files && IndexSaved(s) !in files
    ensures forall d :: !HasSource(files, s, d)
  {
    forall d ensures !HasSource(files, s, d) { assert BackupRoot(s) <= BackupRoot(s) + d; }
  }

  /** The backups of one update, if it has any. */
  method RestoreBackups(tree: FileTree, s: Name, ghost order: seq<Name>) returns (r: Outcome)
    requires tree.Valid() && UpdateNames(order) && order != [] && order[0] == s && NoNesting(tree.files, order)
    requires Staging(s) in tree.dirs
    modifies tree
    ensures tree.Valid() && (tree.budget.None? <==> old(tree.budget).None?)
    ensures Advances(old(tree.files), old(tree.dirs), tree.files, tree.dirs, order)
    ensures RUNTIME in tree.dirs && Staging(s) in tree.dirs
    ensures r == Finished ==> forall p :: BackupRoot(s) <= p ==> p !in tree.files
    ensures r == Died ==> tree.budget.Some?
    ensures r == Reported ==> !Restorable(old(tree.files), old(tree.dirs), order)
  {
    assert s in order && InStaging(Staging(s)) && Parent(Staging(s)) == RUNTIME;
    if BackupRoot(s) in tree.files || BackupRoot(s) in tree.dirs {
      r := RestoreBackupTree(tree, s, order);
    } else {
      NoBackupsWithoutRoot(tree.files, tree.dirs, s);
      r := Finished;
    }
  }

  /** The two saved documents of one update. */
  method RestoreDocuments(tree: FileTree, s: Name, ghost order: seq<Name>) returns (r: Outcome)
    requires tree.Valid() && UpdateNames(order) && order != [] && order[0] == s
    requires RUNTIME in tree.dirs && forall p :: BackupRoot(s) <= p ==> p !in tree.files
    modifies tree
    ensures tree.Valid() && tree.dirs == old(tree.dirs) && (tree.budget.None? <==> old(tree.budget).None?)
    ensures Advances(old(tree.files), old(tree.dirs), tree.files, tree.dirs, order)
    ensures r == Finished ==> forall d :: !HasSource(tree.files, s, d)
    ensures r == Died ==> tree.budget.Some?
    ensures r == Reported ==> !Restorable(old(tree.files), old(tree.dirs), order)
  {
    ghost var f0, dirs := tree.files, tree.dirs;
    assert s in order;
    NoBackupsReappear(f0, f0, s);
    r := RestoreSaved(tree, InstanceSaved(s), INSTANCE_DOC, s, order);
    ghost var f1 := tree.files;
    if r != Finished { return; }
    NoBackupsReappear(f0, f1, s);
    assert Parent(INDEX_DOC) == RUNTIME;
    r := RestoreSaved(tree, IndexSaved(s), INDEX_DOC, s, order);
    ghost var f2 := tree.files;
    AdvancesTransitively(f0, dirs, f1, dirs, f2, dirs, order);
    if r != Finished { return; }
    NoBackupsReappear(f1, f2, s);
    PlacesApart(s, [], s, []);
    assert At(f2, InstanceSaved(s)) == At(f1, InstanceSaved(s));
    NoSourcesLeft(f2, s);
  }

  /** One abandoned update, from its backups to the removal of its directory. */
  method RestoreUpdate(tree: FileTree, s: Name, ghost order: seq<Name>) returns (r: Outcome)
    requires tree.Valid() && UpdateNames(order) && order != [] && order[0] == s && NoNesting(tree.files, order)
    requires Exists(tree.files, tree.dirs, Staging(s))
    modifies tree
    ensures tree.Valid() && (tree.budget.None? <==> old(tree.budget).None?)
    ensures Advances(old(tree.files), old(tree.dirs), tree.files, tree.dirs, order)
    ensures r == Finished ==> forall p :: Staging(s) <= p ==> !Exists(tree.files, tree.dirs, p)
    ensures r == Died ==> tree.budget.Some?
    ensures r == Reported ==> !Restorable(old(tree.files), old(tree.dirs), order)
  {
    ghost var f0, d0 := tree.files, tree.dirs;
    if Staging(s) !in tree.dirs {
      assert s in order && Staging(s) in f0;
      return Reported;
    }
    r := RestoreBackups(tree, s, order);
    if r != Finished { return; }
    ghost var f1, d1 := tree.files, tree.dirs;
    r := RestoreDocuments(tree, s, order);
    ghost var f2 := tree.files;
    AdvancesTransitively(f0, d0, f1, d1, f2, d1, order);
    if r != Finished { return; }
    var dead := tree.RemoveDirAll(Staging(s));
    DroppingAdvances(f2, d1, tree.files, tree.dirs, order, s);
    AdvancesTransitively(f0, d0, f2, d1, tree.files, tree.dirs, order);
    r := if dead then Died else Finished;
  }

  lemma NoBackupsWithoutRoot(files: Files, dirs: set<Path>, s: Name)
    requires IsTree(files, dirs) && !Exists(files, dirs, BackupRoot(s))
    ensures forall p :: BackupRoot(s) <= p ==> p !in files
  {
    forall p | BackupRoot(s) <= p ensures p !in files {
      assert p[..3] == BackupRoot(s);
      if p in files && p != BackupRoot(s) {
        AncestorsAreDirs(files, dirs, p, 3);
      }
    }
  }

  lemma NoBackupsReappear(f0: Files, f1: Files, s: Name)
    requires IsUpdateName(s) && forall p :: BackupRoot(s) <= p ==> p !in f0
    requires forall p :: InStaging(p) && p != InstanceSaved(s) && p != IndexSaved(s) ==> At(f1, p) == At(f0, p)
    ensures forall p :: BackupRoot(s) <= p ==> p !in f1
    ensures !HasBackup(f1, s, INSTANCE_DOC) && !HasBackup(f1, s, INDEX_DOC)
  {
    forall p | BackupRoot(s) <= p ensures p !in f1 {
      BackupPathsAreInStaging(s, p);
      assert p[2] == BackupRoot(s)[2];
      assert At(f1, p) == At(f0, p);
    }
    assert BackupRoot(s) <= BackupRoot(s) + INSTANCE_DOC && BackupRoot(s) <= BackupRoot(s) + INDEX_DOC;
  }

  // ---- all abandoned updates, and runs cut short by crashes

  ghost predicate Emptied(files: Files, names: seq<Name>) {
    forall s, d :: s in names ==> !HasSource(files, s, d)
  }

  lemma {:induction false} EmptiedUpdatesDoNotMatter(files: Files, order: seq<Name>, i: nat, d: Path)
    requires i <= |order| && Emptied(files, order[..i])
    ensures Recovered(files, order, d) == Recovered(files, order[i..], d)
    ensures Overlay(files, order, d) == Overlay(files, order[i..], d)
  {
    if i == 0 {
      assert order[0..] == order;
    } else {
      assert order[0] in order[..i];
      forall s | s in order[1..][..i - 1] ensures s in order[..i] {}
      EmptiedUpdatesDoNotMatter(files, order[1..], i - 1, d);
      assert order[1..][i - 1..] == order[i..];
      assert !HasSource(files, order[0], d);
    }
  }

  /** Progress on the updates that are left is progress on all of them. */
  lemma Lift(f0: Files, d0: set<Path>, f1: Files, d1: set<Path>, order: seq<Name>, i: nat)
    requires UpdateNames(order) && i <= |order| && Emptied(f0, order[..i])
    requires Advances(f0, d0, f1, d1, order[i..])
    ensures Emptied(f1, order[..i])
    ensures Advances(f0, d0, f1, d1, order)
  {
    forall s, d | s in order[..i] ensures !HasSource(f1, s, d) {
      assert !HasSource(f0, s, d);
      SourcesShrink(f0, d0, f1, d1, s, d);
    }
    forall d | !InStaging(d) ensures Recovered(f1, order, d) == Recovered(f0, order, d) {
      EmptiedUpdatesDoNotMatter(f0, order, i, d);
      EmptiedUpdatesDoNotMatter(f1, order, i, d);
    }
    if Restorable(f0, d0, order) { LiftRestorable(f0, d0, f1, d1, order, i); }
  }

  lemma SameTargets(files: Files, order: seq<Name>, i: nat, d: Path)
    requires i <= |order| && Emptied(files, order[..i])
    ensures Target(files, order, d) <==> Target(files, order[i..], d)
  {
    assert order == order[..i] + order[i..];
  }

  lemma LiftRestorable(f0: Files, d0: set<Path>, f1: Files, d1: set<Path>, order: seq<Name>, i: nat)
    requires UpdateNames(order) && i <= |order| && Emptied(f0, order[..i]) && Emptied(f1, order[..i])
    requires Restorable(f0, d0, order) && Advances(f0, d0, f1, d1, order[i..])
    ensures Restorable(f1, d1, order)
  {
    forall s | s in order[i..] ensures s in order {}
    forall d ensures Target(f0, order, d) <==> Target(f0, order[i..], d) { SameTargets(f0, order, i, d); }
    assert Restorable(f0, d0, order[i..]);
    forall d ensures Target(f1, order, d) <==> Target(f1, order[i..], d) { SameTargets(f1, order, i, d); }
    NestingStaysOut(f0, d0, f1, d1, order);
    forall s | s in order
      ensures Staging(s) !in f1 && BackupRoot(s) !in f1 && InstanceSaved(s) !in d1 && IndexSaved(s) !in d1
    {
      PlacesApart(s, [], s, []);
      assert BackupRoot(s) + [] == BackupRoot(s) && InStaging(Staging(s));
    }
  }

  /** Every abandoned update on disk is listed. */
  ghost predicate ListsAll(files: Files, dirs: set<Path>, order: seq<Name>) {
    forall p :: InStaging(p) && Exists(files, dirs, p) ==> p[1] in order
  }

  /**
   * `restore_abandoned_update`. `order` is the order in which the system lists the updates;
   * those already removed are skipped.
   */
  method RestoreAbandonedUpdates(tree: FileTree, order: seq<Name>) returns (r: Outcome)
    requires tree.Valid() && UpdateNames(order) && NoNesting(tree.files, order)
    requires ListsAll(tree.files, tree.dirs, order)
    modifies tree
    ensures tree.Valid() && (tree.budget.None? <==> old(tree.budget).None?)
    ensures Advances(old(tree.files), old(tree.dirs), tree.files, tree.dirs, order)
    ensures r == Finished ==>
      && (forall p :: InStaging(p) ==> !Exists(tree.files, tree.dirs, p))
      && (forall d :: !InStaging(d) ==> At(tree.files, d) == Recovered(old(tree.files), order, d))
    ensures r == Died ==> tree.budget.Some?
    ensures r == Reported ==> !Restorable(old(tree.files), old(tree.dirs), order)
  {
    ghost var f0, d0 := tree.files, tree.dirs;
    if RUNTIME in tree.files { return Reported; }
    r := Finished;
    for i := 0 to |order|
      invariant tree.Valid() && (tree.budget.None? <==> old(tree.budget).None?)
      invariant Advances(f0, d0, tree.files, tree.dirs, order)
      invariant Emptied(tree.files, order[..i])
      invariant forall p :: InStaging(p) && Exists(tree.files, tree.dirs, p) ==> p[1] in order[i..]
      invariant r == Finished
    {
      var s := order[i];
      ghost var f1, d1 := tree.files, tree.dirs;
      assert order[i..] == [s] + order[i + 1..];
      assert order[..i + 1] == order[..i] + [s];
      if Staging(s) in tree.files || Staging(s) in tree.dirs {
        NestingStaysOut(f0, d0, f1, d1, order);
        r := RestoreUpdate(tree, s, order[i..]);
        Lift(f1, d1, tree.files, tree.dirs, order, i);
        AdvancesTransitively(f0, d0, f1, d1, tree.files, tree.dirs, order);
        if r != Finished {
          if Restorable(f1, d1, order) { SuffixRestorable(f1, d1, order, i); }
          return;
        }
      }
      GoneMeansEmptied(tree.files, tree.dirs, s);
      forall p | InStaging(p) && Exists(tree.files, tree.dirs, p) ensures p[1] in order[i + 1..] {
        assert Exists(f1, d1, p);
        assert p[1] == s ==> Staging(s) <= p;
      }
    }
    assert order[..|order|] == order && order[|order|..] == [];
    forall d | !InStaging(d) ensures At(tree.files, d) == Recovered(f0, order, d) {
      EmptiedUpdatesDoNotMatter(tree.files, order, |order|, d);
    }
  }

  lemma SuffixRestorable(files: Files, dirs: set<Path>, order: seq<Name>, i: nat)
    requires i <= |order| && Restorable(files, dirs, order)
    ensures Restorable(files, dirs, order[i..])
  {
    assert forall s :: s in order[i..] ==> s in order;
    assert forall d :: Target(files, order[i..], d) ==> Target(files, order, d);
  }

  lemma GoneMeansEmptied(files: Files, dirs: set<Path>, s: Name)
    requires IsTree(files, dirs) && !Exists(files, dirs, Staging(s))
    ensures forall p :: Staging(s) <= p ==> !Exists(files, dirs, p)
    ensures forall d :: !HasSource(files, s, d)
  {
    forall p | Staging(s) <= p ensures !Exists(files, dirs, p) {
      assert p[..2] == Staging(s);
      if Exists(files, dirs, p) {
        assert p != Staging(s);
        AncestorsAreDirs(files, dirs, p, 2);
      }
    }
    forall d ensures !HasSource(files, s, d) {
      assert Staging(s) <= BackupRoot(s) + d && Staging(s) <= InstanceSaved(s) && Staging(s) <= IndexSaved(s);
      assert !Exists(files, dirs, BackupRoot(s) + d);
      assert !Exists(files, dirs, InstanceSaved(s)) && !Exists(files, dirs, IndexSaved(s));
    }
  }

  /**
   * Recovery is crash-idempotent: cut short any number of times, after any number of steps each,
   * and then run to completion, it leaves every instance file exactly as one uninterrupted run would.
   */
  method RecoverThroughCrashes(tree: FileTree, order: seq<Name>, crashes: seq<nat>) returns (r: Outcome)
    requires tree.Valid() && UpdateNames(order) && ListsAll(tree.files, tree.dirs, order)
    requires Restorable(tree.files, tree.dirs, order)
    modifies tree
    ensures r == Finished
    ensures forall p :: InStaging(p) ==> !Exists(tree.files, tree.dirs, p)
    ensures forall d :: !InStaging(d) ==> At(tree.files, d) == Recovered(old(tree.files), order, d)
  {
    ghost var f0, d0 := tree.files, tree.dirs;
    for k := 0 to |crashes|
      invariant tree.Valid() && Advances(f0, d0, tree.files, tree.dirs, order)
    {
      ghost var f1, d1 := tree.files, tree.dirs;
      tree.budget := Some(crashes[k]);
      StillListed(f0, d0, f1, d1, order);
      var _ := RestoreAbandonedUpdates(tree, order);
      AdvancesTransitively(f0, d0, f1, d1, tree.files, tree.dirs, order);
    }
    tree.budget := None;
    StillListed(f0, d0, tree.files, tree.dirs, order);
    r := RestoreAbandonedUpdates(tree, order);
  }

  lemma StillListed(f0: Files, d0: set<Path>, f1: Files, d1: set<Path>, order: seq<Name>)
    requires OnlyShrinks(f0, d0, f1, d1) && ListsAll(f0, d0, order)
    ensures ListsAll(f1, d1, order)
  {
  }
}
