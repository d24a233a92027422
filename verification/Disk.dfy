/** A directory tree that changes one small step at a time, any of which a crash may prevent. */
module Disk {
  import opened Wrappers
  import opened Contents

  type Name = string
  type Path = seq<Name>

  function Parent(p: Path): Path
    requires p != []
  {
    p[..|p| - 1]
  }

  /** How a run ended: it finished, it reported an error, or the process died. */
  datatype Outcome = Finished | Reported | Died

  predicate Exists(files: map<Path, Bytes>, dirs: set<Path>, p: Path) {
    p in files || p in dirs
  }

  ghost predicate IsTree(files: map<Path, Bytes>, dirs: set<Path>) {
    && [] in dirs
    && files.Keys !! dirs
    && (forall p :: Exists(files, dirs, p) && p != [] ==> Parent(p) in dirs)
  }

  lemma {:induction false} AncestorsAreDirs(files: map<Path, Bytes>, dirs: set<Path>, p: Path, k: nat)
    requires IsTree(files, dirs) && Exists(files, dirs, p) && k < |p|
    ensures p[..k] in dirs
    decreases |p|
  {
    assert Parent(p) in dirs;
    if k < |p| - 1 {
      AncestorsAreDirs(files, dirs, Parent(p), k);
      assert Parent(p)[..k] == p[..k];
    }
  }

  class FileTree {
    var files: map<Path, Bytes>
    var dirs: set<Path>
    /** Steps left before the process dies; `None` when it survives. */
    var budget: Option<nat>

    constructor (files: map<Path, Bytes>, dirs: set<Path>)
      requires IsTree(files, dirs)
      ensures this.files == files && this.dirs == dirs && budget == None
    {
      this.files, this.dirs, budget := files, dirs, None;
    }

    ghost predicate Valid()
      reads this
    {
      IsTree(files, dirs)
    }

    method Tick() returns (dead: bool)
      modifies this`budget
      ensures dead <==> old(budget) == Some(0)
      ensures budget.None? <==> old(budget).None?
    {
      dead := budget == Some(0);
      if budget.Some? && !dead { budget := Some(budget.value - 1); }
    }

    method CreateDir(p: Path) returns (dead: bool)
      requires Valid() && p != [] && Parent(p) in dirs && !Exists(files, dirs, p)
      modifies this
      ensures Valid() && files == old(files) && (budget.None? <==> old(budget).None?)
      ensures dead ==> dirs == old(dirs) && budget.Some?
      ensures !dead ==> dirs == old(dirs) + {p}
    {
      dead := Tick();
      if !dead { dirs := dirs + {p}; }
    }

    method RemoveFile(p: Path) returns (dead: bool)
      requires Valid() && p in files
      modifies this
      ensures Valid() && dirs == old(dirs) && (budget.None? <==> old(budget).None?)
      ensures dead ==> files == old(files) && budget.Some?
      ensures !dead ==> files == old(files) - {p}
    {
      dead := Tick();
      if !dead { files := files - {p}; }
    }

    /** Moves a file to a free name. */
    method Rename(from: Path, to: Path) returns (dead: bool)
      requires Valid() && from in files && to != [] && Parent(to) in dirs && !Exists(files, dirs, to)
      modifies this
      ensures Valid() && dirs == old(dirs) && (budget.None? <==> old(budget).None?)
      ensures dead ==> files == old(files) && budget.Some?
      ensures !dead ==> files == (old(files) - {from})[to := old(files)[from]]
    {
      dead := Tick();
      if !dead { files := (files - {from})[to := files[from]]; }
    }

    method RemoveEmptyDir(p: Path) returns (dead: bool)
      requires Valid() && p != [] && p in dirs
      requires forall q :: Exists(files, dirs, q) && q != [] ==> Parent(q) != p
      modifies this
      ensures Valid() && files == old(files) && (budget.None? <==> old(budget).None?)
      ensures dead ==> dirs == old(dirs) && budget.Some?
      ensures !dead ==> dirs == old(dirs) - {p}
    {
      dead := Tick();
      if !dead { dirs := dirs - {p}; }
    }

    /** The children of a directory, in whatever order the system lists them. */
    method ReadDir(d: Path) returns (entries: seq<Path>)
      requires Valid() && d in dirs
      ensures forall q :: q in entries <==> Exists(files, dirs, q) && q != [] && Parent(q) == d
      ensures forall i, j :: 0 <= i < j < |entries| ==> entries[i] != entries[j]
    {
      var left := set q | q in files.Keys + dirs && q != [] && Parent(q) == d;
      ghost var all := left;
      entries := [];
      while left != {}
        invariant left <= all
        invariant forall q :: q in entries <==> q in all && q !in left
        invariant forall i, j :: 0 <= i < j < |entries| ==> entries[i] != entries[j]
        decreases left
      {
        var q :| q in left;
        left := left - {q};
        entries := entries + [q];
      }
    }

    /** `remove_dir_all`: leaves go first, in any order. */
    method RemoveDirAll(root: Path) returns (dead: bool)
      requires Valid() && root != [] && root in dirs
      modifies this
      ensures Valid() && (budget.None? <==> old(budget).None?)
      ensures dead ==> budget.Some?
      ensures forall q :: !(root <= q) ==> (q in files <==> q in old(files)) && (q in dirs <==> q in old(dirs))
      ensures files.Keys <= old(files).Keys && dirs <= old(dirs)
      ensures forall q :: q in files ==> files[q] == old(files)[q]
      ensures !dead ==> forall q :: root <= q ==> !Exists(files, dirs, q)
    {
      dead := false;
      while exists q :: q in files.Keys + dirs && root <= q
        invariant Valid() && (budget.None? <==> old(budget).None?)
        invariant forall q :: !(root <= q) ==> (q in files <==> q in old(files)) && (q in dirs <==> q in old(dirs))
        invariant files.Keys <= old(files).Keys && dirs <= old(dirs)
        invariant forall q :: q in files ==> files[q] == old(files)[q]
        decreases files.Keys + dirs
      {
        var below := set q | q in files.Keys + dirs && root <= q;
        ghost var some :| some in files.Keys + dirs && root <= some;
        assert some in below;
        LeafExists(files, dirs, root, below);
        var leaf :| leaf in below && IsLeaf(files, dirs, leaf);
        if leaf in files {
          dead := RemoveFile(leaf);
        } else {
          dead := RemoveEmptyDir(leaf);
        }
        if dead { return; }
      }
    }
  }

  predicate IsLeaf(files: map<Path, Bytes>, dirs: set<Path>, p: Path) {
    forall q :: q in files.Keys + dirs && q != [] ==> Parent(q) != p
  }

  lemma {:induction false} LongestExists(s: set<Path>) returns (longest: Path)
    requires s != {}
    ensures longest in s && forall q :: q in s ==> |q| <= |longest|
    decreases |s|
  {
    longest :| longest in s;
    if s != {longest} {
      var other := LongestExists(s - {longest});
      if |other| > |longest| { longest := other; }
    }
  }

  lemma LeafExists(files: map<Path, Bytes>, dirs: set<Path>, root: Path, below: set<Path>)
    requires IsTree(files, dirs)
    requires below == (set q | q in files.Keys + dirs && root <= q) && below != {}
    ensures exists leaf :: leaf in below && IsLeaf(files, dirs, leaf)
  {
    var longest := LongestExists(below);
    forall q | q in files.Keys + dirs && q != [] ensures Parent(q) != longest {
      assert root <= Parent(q) ==> q in below;
    }
  }
}
