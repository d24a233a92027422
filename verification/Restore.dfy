/** What an abandoned update still has to give back, read off the tree alone. */
module Restore {
  import opened Wrappers
  import opened Contents
  import opened Ordering
  import opened Disk

  const RUNTIME: Path := ["runtime"]
  const INSTANCE_DOC: Path := ["instance.json"]
  const INDEX_DOC: Path := ["runtime", "managed-files.json"]

  predicate IsUpdateName(n: Name) {
    "update-" <= n
  }

  function Staging(s: Name): Path { ["runtime", s] }

  function BackupRoot(s: Name): Path { ["runtime", s, "backups"] }

  function InstanceSaved(s: Name): Path { ["runtime", s, "instance.json.previous"] }

  function IndexSaved(s: Name): Path { ["runtime", s, "managed-files.json.previous"] }

  /** Inside some abandoned update; everything else belongs to the instance. */
  predicate InStaging(p: Path) {
    |p| >= 2 && p[0] == "runtime" && IsUpdateName(p[1])
  }

  type Files = map<Path, Bytes>

  /** The saved document that goes to `d`, if `d` is one of the two metadata documents. */
  function SavedFor(s: Name, d: Path): Option<Path> {
    if d == INSTANCE_DOC then Some(InstanceSaved(s))
    else if d == INDEX_DOC then Some(IndexSaved(s))
    else None
  }

  predicate HasSaved(files: Files, s: Name, d: Path) {
    SavedFor(s, d).Some? && SavedFor(s, d).value in files
  }

  predicate HasBackup(files: Files, s: Name, d: Path) {
    d != [] && BackupRoot(s) + d in files
  }

  predicate HasSource(files: Files, s: Name, d: Path) {
    HasSaved(files, s, d) || HasBackup(files, s, d)
  }

  /** The old content that update `s` holds for `d`; a saved document outranks a backed-up one. */
  function SourceFor(files: Files, s: Name, d: Path): Option<Bytes> {
    if HasSaved(files, s, d) then Some(files[SavedFor(s, d).value])
    else if HasBackup(files, s, d) then Some(files[BackupRoot(s) + d])
    else None
  }

  /** What several abandoned updates, restored in this order, hold for `d`. The last one wins. */
  function Overlay(files: Files, order: seq<Name>, d: Path): Option<Bytes> {
    if order == [] then None
    else
      match Overlay(files, order[1..], d)
      case Some(bytes) => Some(bytes)
      case None => SourceFor(files, order[0], d)
  }

  function At(files: Files, d: Path): Option<Bytes> {
    if d in files then Some(files[d]) else None
  }

  /** The content `d` has once recovery is over: what the updates saved, else what is there. */
  function Recovered(files: Files, order: seq<Name>, d: Path): Option<Bytes> {
    match Overlay(files, order, d)
    case Some(bytes) => Some(bytes)
    case None => At(files, d)
  }

  /** Two trees from which recovery leads to the same instance. */
  ghost predicate SameOutcome(before: Files, after: Files, order: seq<Name>) {
    forall d :: !InStaging(d) ==> Recovered(after, order, d) == Recovered(before, order, d)
  }

  ghost predicate UpdateNames(order: seq<Name>) {
    Distinct(order) && forall s :: s in order ==> IsUpdateName(s)
  }

  /** No backup is a copy of something inside an abandoned update. */
  ghost predicate NoNesting(files: Files, order: seq<Name>) {
    forall s, d :: s in order && HasBackup(files, s, d) ==> !InStaging(d)
  }

  ghost predicate Target(files: Files, order: seq<Name>, d: Path) {
    exists s :: s in order && HasSource(files, s, d)
  }

  /** `q` is a proper ancestor of `d`. */
  predicate Above(q: Path, d: Path) {
    q != [] && q < d
  }

  /** Nothing stands where recovery has to put a file or a directory. */
  ghost predicate Restorable(files: Files, dirs: set<Path>, order: seq<Name>) {
    && NoNesting(files, order)
    && RUNTIME !in files && !Target(files, order, RUNTIME)
    && (forall s :: s in order ==> Staging(s) !in files && BackupRoot(s) !in files
                                   && InstanceSaved(s) !in dirs && IndexSaved(s) !in dirs)
    && (forall d :: Target(files, order, d) ==> d !in dirs)
    && (forall d, q :: Target(files, order, d) && Above(q, d) ==> q !in files && !Target(files, order, q))
  }

  // ---- each kind of step leads to the same outcome

  lemma {:induction false} OverlaySame(a: Files, b: Files, order: seq<Name>, d: Path)
    requires forall s :: s in order ==> SourceFor(a, s, d) == SourceFor(b, s, d)
    ensures Overlay(a, order, d) == Overlay(b, order, d)
  {
    if order != [] {
      OverlaySame(a, b, order[1..], d);
    }
  }

  lemma {:induction false} OverlayFinds(files: Files, order: seq<Name>, d: Path)
    ensures Overlay(files, order, d).Some? <==> Target(files, order, d)
  {
    if order != [] {
      OverlayFinds(files, order[1..], d);
      assert order == [order[0]] + order[1..];
      assert Target(files, order, d) <==> HasSource(files, order[0], d) || Target(files, order[1..], d);
    }
  }

  /** The places where updates keep things are all inside them and all different. */
  lemma PlacesApart(s: Name, d: Path, t: Name, e: Path)
    requires IsUpdateName(s) && IsUpdateName(t)
    ensures InStaging(BackupRoot(s) + d) && InStaging(InstanceSaved(s)) && InStaging(IndexSaved(s))
    ensures BackupRoot(s) + d == BackupRoot(t) + e ==> s == t && d == e
    ensures BackupRoot(s) + d != InstanceSaved(t) && BackupRoot(s) + d != IndexSaved(t)
    ensures s != t ==> !(Staging(s) <= BackupRoot(t) + e) && !(Staging(s) <= InstanceSaved(t)) && !(Staging(s) <= IndexSaved(t))
  {
    var b, c := BackupRoot(s) + d, BackupRoot(t) + e;
    assert b[..2] == Staging(s) && c[..2] == Staging(t) && b[2] == c[2] == "backups";
    assert b[3..] == d && c[3..] == e;
    assert b[1] == s && c[1] == t && Staging(s)[1] == s;
    assert InstanceSaved(t)[2] != "backups" && IndexSaved(t)[2] != "backups";
  }

  lemma InstancePathsAreOutside(s: Name, d: Path)
    requires IsUpdateName(s)
    ensures Staging(s) <= d ==> InStaging(d)
  {
    assert Staging(s)[0] == "runtime" && Staging(s)[1] == s;
  }

  lemma SourcesIgnoreInstanceFiles(a: Files, b: Files, s: Name, d: Path)
    requires IsUpdateName(s)
    requires forall p :: InStaging(p) ==> At(a, p) == At(b, p)
    ensures SourceFor(a, s, d) == SourceFor(b, s, d)
  {
    PlacesApart(s, d, s, d);
    assert forall p :: p == BackupRoot(s) + d || p == InstanceSaved(s) || p == IndexSaved(s) ==> At(a, p) == At(b, p);
  }

  /** Deleting an instance file that some update will put back changes nothing. */
  lemma RemovingATargetIsHarmless(files: Files, order: seq<Name>, target: Path)
    requires UpdateNames(order) && !InStaging(target) && Target(files, order, target)
    ensures SameOutcome(files, files - {target}, order)
  {
    var after := files - {target};
    forall d | !InStaging(d) ensures Recovered(after, order, d) == Recovered(files, order, d) {
      forall s | s in order ensures SourceFor(after, s, d) == SourceFor(files, s, d) {
        SourcesIgnoreInstanceFiles(files, after, s, d);
      }
      OverlaySame(files, after, order, d);
      OverlayFinds(files, order, d);
    }
  }

  /** `from` is where the earliest update with anything left keeps `to`, and nothing of it is shadowed. */
  ghost predicate MovesBack(files: Files, s: Name, from: Path, to: Path) {
    && !InStaging(to) && to != [] && from in files
    && (from == BackupRoot(s) + to || (SavedFor(s, to) == Some(from) && !HasBackup(files, s, to)))
  }

  lemma MovingOneSourceKeepsOthers(files: Files, s: Name, from: Path, to: Path, t: Name, d: Path)
    requires IsUpdateName(s) && IsUpdateName(t) && MovesBack(files, s, from, to) && !InStaging(d)
    requires t != s || d != to
    ensures SourceFor((files - {from})[to := files[from]], t, d) == SourceFor(files, t, d)
  {
    PlacesApart(s, to, t, d);
    PlacesApart(t, d, s, to);
  }

  /** Renaming a saved file into place hands its content over from the update to the instance. */
  lemma MovingBackIsHarmless(files: Files, order: seq<Name>, s: Name, from: Path, to: Path)
    requires UpdateNames(order) && order != [] && order[0] == s && MovesBack(files, s, from, to)
    ensures SameOutcome(files, (files - {from})[to := files[from]], order)
  {
    var after := (files - {from})[to := files[from]];
    var rest := order[1..];
    assert order == [s] + rest && s !in rest;
    forall d | !InStaging(d) ensures Recovered(after, order, d) == Recovered(files, order, d) {
      forall t | t in rest ensures SourceFor(after, t, d) == SourceFor(files, t, d) {
        MovingOneSourceKeepsOthers(files, s, from, to, t, d);
      }
      OverlaySame(files, after, rest, d);
      if d != to {
        MovingOneSourceKeepsOthers(files, s, from, to, s, d);
        PlacesApart(s, to, s, to);
      } else {
        MovedSourceIsGone(files, s, from, to);
      }
    }
  }

  lemma MovedSourceIsGone(files: Files, s: Name, from: Path, to: Path)
    requires IsUpdateName(s) && MovesBack(files, s, from, to)
    ensures
      var after := (files - {from})[to := files[from]];
      if from == BackupRoot(s) + to && HasSaved(files, s, to) then SourceFor(after, s, to) == SourceFor(files, s, to)
      else SourceFor(files, s, to) == Some(files[from]) && SourceFor(after, s, to) == None
  {
    PlacesApart(s, to, s, to);
  }

  /** Deleting the remains of an emptied update changes nothing. */
  lemma DroppingAnEmptiedUpdateIsHarmless(files: Files, after: Files, order: seq<Name>, s: Name)
    requires UpdateNames(order) && IsUpdateName(s)
    requires forall d :: !HasSource(files, s, d)
    requires forall p :: !(Staging(s) <= p) ==> At(after, p) == At(files, p)
    requires forall p :: p in after ==> p in files
    ensures SameOutcome(files, after, order)
  {
    forall d | !InStaging(d) ensures Recovered(after, order, d) == Recovered(files, order, d) {
      forall t | t in order ensures SourceFor(after, t, d) == SourceFor(files, t, d) {
        if t == s {
          assert !HasSource(files, s, d);
        } else {
          PlacesApart(s, d, t, d);
          assert At(after, BackupRoot(t) + d) == At(files, BackupRoot(t) + d);
          assert At(after, InstanceSaved(t)) == At(files, InstanceSaved(t));
          assert At(after, IndexSaved(t)) == At(files, IndexSaved(t));
        }
      }
      OverlaySame(files, after, order, d);
      InstancePathsAreOutside(s, d);
      assert At(after, d) == At(files, d);
    }
  }

  // ---- what the outcome is

  /** With one abandoned update: backups and saved documents return, everything else stays. */
  lemma OneUpdateGivesBackWhatItSaved(files: Files, s: Name, d: Path)
    requires IsUpdateName(s) && !InStaging(d)
    ensures InstanceSaved(s) in files ==> Recovered(files, [s], INSTANCE_DOC) == Some(files[InstanceSaved(s)])
    ensures IndexSaved(s) in files ==> Recovered(files, [s], INDEX_DOC) == Some(files[IndexSaved(s)])
    ensures HasBackup(files, s, d) && d != INSTANCE_DOC && d != INDEX_DOC ==>
              Recovered(files, [s], d) == Some(files[BackupRoot(s) + d])
    ensures !HasSource(files, s, d) ==> Recovered(files, [s], d) == At(files, d)
  {
    assert forall e :: Overlay(files, [s], e) == SourceFor(files, s, e) by {
      assert [s][1..] == [];
    }
  }

  lemma {:induction false} OverlayIsASource(files: Files, order: seq<Name>, d: Path) returns (s: Name)
    requires Target(files, order, d)
    ensures s in order && HasSource(files, s, d) && Overlay(files, order, d) == SourceFor(files, s, d)
  {
    assert order == [order[0]] + order[1..];
    if Target(files, order[1..], d) {
      s := OverlayIsASource(files, order[1..], d);
    } else {
      OverlayFinds(files, order[1..], d);
      s := order[0];
    }
  }

  /** The listing order of the updates is irrelevant for a path on which they agree. */
  lemma AgreeingUpdatesCommute(files: Files, order: seq<Name>, other: seq<Name>, d: Path)
    requires forall s :: s in order <==> s in other
    requires forall s, t :: s in order && t in order && HasSource(files, s, d) && HasSource(files, t, d) ==>
               SourceFor(files, s, d) == SourceFor(files, t, d)
    ensures Recovered(files, order, d) == Recovered(files, other, d)
  {
    OverlayFinds(files, order, d);
    OverlayFinds(files, other, d);
    if Target(files, order, d) {
      var s := OverlayIsASource(files, order, d);
      assert Target(files, other, d);
      var t := OverlayIsASource(files, other, d);
    } else {
      assert !Target(files, other, d);
    }
  }

  /** And it matters for exactly the paths that two updates hold with different contents. */
  lemma DisagreeingUpdatesDoNotCommute(files: Files, s: Name, t: Name, d: Path)
    ensures Recovered(files, [s, t], d) == Recovered(files, [t, s], d) <==>
            !(HasSource(files, s, d) && HasSource(files, t, d) && SourceFor(files, s, d) != SourceFor(files, t, d))
  {
    assert [s, t][1..] == [t] && [t, s][1..] == [s] && [t][1..] == [] && [s][1..] == [];
    assert Overlay(files, [s], d) == SourceFor(files, s, d) && Overlay(files, [t], d) == SourceFor(files, t, d);
  }
}
