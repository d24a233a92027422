/** The persisted life of an instance: its status document and its managed index. */
module Lifecycle {
  import opened Wrappers
  import opened Replacing
  import opened ManagedFiles
  import opened Verification

  datatype Status = Installing | Updating | Interrupted | Installed | Broken

  type Index = seq<ManagedFile>

  datatype Runtime = Runtime(state: Slot<Status>, index: Slot<Index>)

  /** `Installed` on disk promises a complete index on disk. */
  predicate Safe(rt: Runtime) {
    rt.state.destination == Some(Installed) ==> rt.index.destination.Some?
  }

  // ---- what an operation writes, step by step

  datatype Write = Mark(status: Status) | WriteIndex(files: Index) | RestoreIndex(saved: Index)

  datatype Played = Played(rt: Runtime, left: nat, done: bool)

  function PlayOne(rt: Runtime, write: Write, steps: nat): Played {
    match write
    case Mark(status) =>
      var c := Replaced(rt.state, status, steps);
      Played(rt.(state := c.slot), c.left, c.done)
    case WriteIndex(files) =>
      var c := Replaced(rt.index, files, steps);
      Played(rt.(index := c.slot), c.left, c.done)
    case RestoreIndex(saved) =>
      // The saved copy is renamed into place; until then it stays where it was saved.
      if steps == 0 then Played(rt, 0, false)
      else if rt.index.destination.None? then Played(rt.(index := rt.index.(destination := Some(saved))), steps - 1, true)
      else if steps == 1 then Played(rt.(index := rt.index.(destination := None)), 0, false)
      else Played(rt.(index := rt.index.(destination := Some(saved))), steps - 2, true)
  }

  function Play(rt: Runtime, writes: seq<Write>, steps: nat): Played
    decreases |writes|
  {
    if writes == [] then Played(rt, steps, true)
    else
      var first := PlayOne(rt, writes[0], steps);
      if !first.done then first else Play(first.rt, writes[1..], first.left)
  }

  datatype InstallResult = Completed(files: Index) | Cancelled | Failed

  /** How a repair ends: verified, refused by the final verification, or failing before the index is rewritten. */
  datatype RepairResult = Verified(files: Index) | Refused(files: Index) | Abandoned

  datatype Action =
    | Install(result: InstallResult)
    | Recover(saved: Option<Index>, healthy: bool)
    | Repair(outcome: RepairResult, cancelled: bool)

  predicate Unfinished(status: Option<Status>) {
    status == Some(Installing) || status == Some(Updating) || status == Some(Interrupted)
  }

  predicate IndexLoads(rt: Runtime, saved: Option<Index>) {
    saved.Some? || rt.index.destination.Some?
  }

  /** The writes of an operation that is not interrupted. */
  function Script(rt: Runtime, action: Action): seq<Write> {
    match action
    case Install(Completed(files)) => [Mark(Installing), WriteIndex(files), Mark(Installed)]
    case Install(Cancelled) => [Mark(Installing), Mark(Interrupted)]
    case Install(Failed) => [Mark(Installing), Mark(Broken)]
    case Recover(saved, healthy) =>
      if !Unfinished(rt.state.destination) then []
      else
        (if saved.Some? then [RestoreIndex(saved.value)] else [])
        + [Mark(if IndexLoads(rt, saved) && healthy then Installed else Interrupted)]
    case Repair(outcome, cancelled) =>
      var failure := Mark(if cancelled then Interrupted else Broken);
      if rt.index.destination.None? then [failure]
      else
        match outcome
        case Verified(files) => [WriteIndex(files), Mark(Installed)]
        case Refused(files) => [WriteIndex(files), failure]
        case Abandoned => [failure]
  }

  /** The operation, when the process dies (or storage fails for good) after `steps` steps of these writes. */
  function Perform(rt: Runtime, action: Action, steps: nat): Played {
    Play(rt, Script(rt, action), steps)
  }

  // ---- the promise over whole runs

  lemma MarkOther(rt: Runtime, status: Status, steps: nat)
    requires Safe(rt)
    ensures status != Installed || rt.index.destination.Some? ==> Safe(PlayOne(rt, Mark(status), steps).rt)
    ensures PlayOne(rt, Mark(status), steps).done ==> PlayOne(rt, Mark(status), steps).rt.state.destination == Some(status)
    ensures PlayOne(rt, Mark(status), steps).rt.index == rt.index
  {
  }

  lemma IndexWhileNotInstalled(rt: Runtime, write: Write, steps: nat)
    requires rt.state.destination != Some(Installed) && !write.Mark?
    ensures
      var p := PlayOne(rt, write, steps);
      && p.rt.state == rt.state && Safe(p.rt) && (p.done ==> p.rt.index.destination.Some?)
  {
  }

  lemma PlaySplits(rt: Runtime, w: Write, rest: seq<Write>, steps: nat)
    ensures
      var first := PlayOne(rt, w, steps);
      Play(rt, [w] + rest, steps) == if first.done then Play(first.rt, rest, first.left) else first
  {
    assert ([w] + rest)[1..] == rest;
  }

  lemma PlayLast(rt: Runtime, w: Write, steps: nat)
    ensures Play(rt, [w], steps) == PlayOne(rt, w, steps)
  {
    assert [w][1..] == [];
  }

  lemma InstallKeepsSafe(rt: Runtime, result: InstallResult, steps: nat)
    requires Safe(rt)
    ensures Safe(Perform(rt, Install(result), steps).rt)
  {
    MarkOther(rt, Installing, steps);
    var first := PlayOne(rt, Mark(Installing), steps);
    match result {
      case Completed(files) =>
        PlaySplits(rt, Mark(Installing), [WriteIndex(files), Mark(Installed)], steps);
        if first.done {
          IndexWhileNotInstalled(first.rt, WriteIndex(files), first.left);
          var second := PlayOne(first.rt, WriteIndex(files), first.left);
          PlaySplits(first.rt, WriteIndex(files), [Mark(Installed)], first.left);
          if second.done {
            MarkOther(second.rt, Installed, second.left);
            PlayLast(second.rt, Mark(Installed), second.left);
          }
        }
      case Cancelled =>
        PlaySplits(rt, Mark(Installing), [Mark(Interrupted)], steps);
        if first.done {
          MarkOther(first.rt, Interrupted, first.left);
          PlayLast(first.rt, Mark(Interrupted), first.left);
        }
      case Failed =>
        PlaySplits(rt, Mark(Installing), [Mark(Broken)], steps);
        if first.done {
          MarkOther(first.rt, Broken, first.left);
          PlayLast(first.rt, Mark(Broken), first.left);
        }
    }
  }

  lemma RecoverKeepsSafe(rt: Runtime, saved: Option<Index>, healthy: bool, steps: nat)
    requires Safe(rt)
    ensures Safe(Perform(rt, Recover(saved, healthy), steps).rt)
  {
    if Unfinished(rt.state.destination) {
      var mark := Mark(if IndexLoads(rt, saved) && healthy then Installed else Interrupted);
      if saved.Some? {
        IndexWhileNotInstalled(rt, RestoreIndex(saved.value), steps);
        var first := PlayOne(rt, RestoreIndex(saved.value), steps);
        PlaySplits(rt, RestoreIndex(saved.value), [mark], steps);
        if first.done {
          MarkOther(first.rt, mark.status, first.left);
          PlayLast(first.rt, mark, first.left);
        }
      } else {
        assert [] + [mark] == [mark];
        MarkOther(rt, mark.status, steps);
        PlayLast(rt, mark, steps);
      }
    }
  }

  /** What happened to an instance: operations, each cut after some steps. */
  datatype Episode = Episode(action: Action, steps: nat)

  function Live(rt: Runtime, episodes: seq<Episode>): Runtime {
    if episodes == [] then rt
    else
      var last := episodes[|episodes| - 1];
      Perform(Live(rt, episodes[..|episodes| - 1]), last.action, last.steps).rt
  }

  /** Through every run of installs, cancellations, failures, crashes and recoveries, `Installed` keeps its promise. */
  lemma {:induction false} InstalledImpliesIndex(rt: Runtime, episodes: seq<Episode>)
    requires Safe(rt) && forall e :: e in episodes ==> !e.action.Repair?
    ensures Safe(Live(rt, episodes))
    decreases |episodes|
  {
    if episodes != [] {
      var front, last := episodes[..|episodes| - 1], episodes[|episodes| - 1];
      InstalledImpliesIndex(rt, front);
      assert last in episodes;
      match last.action {
        case Install(result) => InstallKeepsSafe(Live(rt, front), result, last.steps);
        case Recover(saved, healthy) => RecoverKeepsSafe(Live(rt, front), saved, healthy, last.steps);
      }
    }
  }

  /** Whether a repair gets as far as rewriting the index. */
  predicate Rewrites(rt: Runtime, outcome: RepairResult) {
    rt.index.destination.Some? && !outcome.Abandoned?
  }

  /**
   * A repair rewrites the index while the status still says `Installed`. It breaks the promise exactly when
   * it dies after removing the old index and before renaming the new one.
   */
  lemma RepairBreaksThePromiseIff(rt: Runtime, outcome: RepairResult, cancelled: bool, steps: nat)
    requires Safe(rt)
    ensures !Safe(Perform(rt, Repair(outcome, cancelled), steps).rt) <==>
            rt.state.destination == Some(Installed) && Rewrites(rt, outcome) && steps == 3
  {
    var failure := Mark(if cancelled then Interrupted else Broken);
    if !Rewrites(rt, outcome) {
      PlayLast(rt, failure, steps);
      MarkOther(rt, failure.status, steps);
    } else {
      var second := if outcome.Verified? then Mark(Installed) else failure;
      PlaySplits(rt, WriteIndex(outcome.files), [second], steps);
      var first := PlayOne(rt, WriteIndex(outcome.files), steps);
      if first.done {
        assert steps > 3 && first.rt.index.destination.Some?;
        MarkOther(first.rt, second.status, first.left);
        PlayLast(first.rt, second, first.left);
      }
    }
  }

  /** A stranded instance is not considered by recovery, so it stays stranded. */
  lemma RecoverySkipsStranded(rt: Runtime, saved: Option<Index>, healthy: bool, steps: nat)
    requires !Safe(rt)
    ensures Perform(rt, Recover(saved, healthy), steps).rt == rt
  {
  }

  /** An uninterrupted recovery of an unfinished instance. */
  lemma RecoverySettles(rt: Runtime, saved: Option<Index>, healthy: bool, steps: nat)
    requires Unfinished(rt.state.destination) && steps >= 6
    ensures
      var p := Perform(rt, Recover(saved, healthy), steps);
      && p.done
      && p.rt.state.destination == Some(if IndexLoads(rt, saved) && healthy then Installed else Interrupted)
      && p.rt.index.destination == (if saved.Some? then saved else rt.index.destination)
  {
    var mark := Mark(if IndexLoads(rt, saved) && healthy then Installed else Interrupted);
    if saved.Some? {
      var first := PlayOne(rt, RestoreIndex(saved.value), steps);
      PlaySplits(rt, RestoreIndex(saved.value), [mark], steps);
      PlayLast(first.rt, mark, first.left);
    } else {
      assert Script(rt, Recover(saved, healthy)) == [mark];
      PlayLast(rt, mark, steps);
    }
  }

  // ---- the operations on the documents

  class InstanceDocuments {
    const state: Document<Status>
    const index: Document<Index>

    constructor (state: Document<Status>, index: Document<Index>)
      ensures this.state == state && this.index == index
    {
      this.state, this.index := state, index;
    }

    ghost predicate Valid()
    {
      var s: object, i: object := state, index;
      s != i
    }

    function Now(): Runtime
      reads state, index
    {
      Runtime(state.Now(), index.Now())
    }

    method WriteOne(write: Write, clock: Clock) returns (done: bool)
      requires Valid()
      modifies state, index, clock
      ensures Played(Now(), clock.left, done) == PlayOne(old(Now()), write, old(clock.left))
    {
      match write {
        case Mark(status) => done := state.Replace(status, clock);
        case WriteIndex(files) => done := index.Replace(files, clock);
        case RestoreIndex(saved) =>
          var dead := false;
          if index.destination.Some? {
            dead := clock.Tick();
            if dead { return false; }
            index.destination := None;
          }
          dead := clock.Tick();
          if dead { return false; }
          index.destination := Some(saved);
          done := true;
      }
    }

    /** `install_mode_unlocked`. */
    method InstallMode(result: InstallResult, clock: Clock) returns (done: bool)
      requires Valid()
      modifies state, index, clock
      ensures Played(Now(), clock.left, done) == Perform(old(Now()), Install(result), old(clock.left))
    {
      ghost var start, steps := Now(), clock.left;
      ghost var rest := Script(start, Install(result))[1..];
      PlaySplits(start, Mark(Installing), rest, steps);
      assert [Mark(Installing)] + rest == Script(start, Install(result));
      done := WriteOne(Mark(Installing), clock);
      if !done { return; }
      match result {
        case Completed(files) =>
          PlaySplits(Now(), WriteIndex(files), [Mark(Installed)], clock.left);
          done := WriteOne(WriteIndex(files), clock);
          if !done { return; }
          PlayLast(Now(), Mark(Installed), clock.left);
          done := WriteOne(Mark(Installed), clock);
        case Cancelled =>
          PlayLast(Now(), Mark(Interrupted), clock.left);
          done := WriteOne(Mark(Interrupted), clock);
        case Failed =>
          PlayLast(Now(), Mark(Broken), clock.left);
          done := WriteOne(Mark(Broken), clock);
      }
    }

    /** The part of `recover` that concerns one unlocked instance; `saved` is the index an abandoned update kept. */
    method RecoverOne(saved: Option<Index>, healthy: bool, clock: Clock) returns (done: bool)
      requires Valid()
      modifies state, index, clock
      ensures Played(Now(), clock.left, done) == Perform(old(Now()), Recover(saved, healthy), old(clock.left))
    {
      if !Unfinished(state.destination) { return true; }
      var mark := Mark(if IndexLoads(Now(), saved) && healthy then Installed else Interrupted);
      if saved.Some? {
        PlaySplits(Now(), RestoreIndex(saved.value), [mark], clock.left);
        done := WriteOne(RestoreIndex(saved.value), clock);
        if !done { return; }
      } else {
        assert Script(Now(), Recover(saved, healthy)) == [mark];
      }
      PlayLast(Now(), mark, clock.left);
      done := WriteOne(mark, clock);
    }

    /** The status and index writes of `repair`. */
    method RepairMode(outcome: RepairResult, cancelled: bool, clock: Clock) returns (done: bool)
      requires Valid()
      modifies state, index, clock
      ensures Played(Now(), clock.left, done) == Perform(old(Now()), Repair(outcome, cancelled), old(clock.left))
    {
      var last := Mark(if cancelled then Interrupted else Broken);
      if index.destination.Some? && !outcome.Abandoned? {
        if outcome.Verified? { last := Mark(Installed); }
        PlaySplits(Now(), WriteIndex(outcome.files), [last], clock.left);
        done := WriteOne(WriteIndex(outcome.files), clock);
        if !done { return; }
      }
      PlayLast(Now(), last, clock.left);
      done := WriteOne(last, clock);
    }
  }

  // ---- startup reconciliation

  /** What recovery finds for one instance besides its documents. */
  datatype View = View(busy: bool, saved: Option<Index>, disk: Disk, unexpected: seq<FileCheck>)

  predicate Healthy(rt: Runtime, view: View) {
    IndexLoads(rt, view.saved) &&
    IsHealthy(ReportOf(ChecksOf(view.disk, if view.saved.Some? then view.saved.value else rt.index.destination.value, true) + view.unexpected))
  }

  datatype RecoveryReport = RecoveryReport(recovered: nat, recoverable: nat, activeElsewhere: nat)

  /** What `recover` makes of one instance. */
  function Settled(rt: Runtime, view: View): Option<Status> {
    if !Unfinished(rt.state.destination) || view.busy then rt.state.destination
    else Some(if Healthy(rt, view) then Installed else Interrupted)
  }

  ghost function CountConsidered(rts: seq<Runtime>): nat {
    if rts == [] then 0
    else CountConsidered(rts[..|rts| - 1]) + if Unfinished(rts[|rts| - 1].state.destination) then 1 else 0
  }

  ghost function CountSettled(rts: seq<Runtime>, views: seq<View>, status: Status): nat
    requires |rts| <= |views|
  {
    if rts == [] then 0
    else
      var i := |rts| - 1;
      CountSettled(rts[..i], views, status)
        + if Unfinished(rts[i].state.destination) && !views[i].busy && Settled(rts[i], views[i]) == Some(status) then 1 else 0
  }

  /** One turn of the loop of `recover`. */
  method SettleOne(rt: Runtime, view: View, report: RecoveryReport) returns (settled: Runtime, counted: RecoveryReport)
    ensures settled.state.destination == Settled(rt, view)
    ensures view.busy || !Unfinished(rt.state.destination) ==> settled == rt
    ensures counted.activeElsewhere == report.activeElsewhere + if Unfinished(rt.state.destination) && view.busy then 1 else 0
    ensures
      var taken := Unfinished(rt.state.destination) && !view.busy;
      && counted.recovered == report.recovered + (if taken && Settled(rt, view) == Some(Installed) then 1 else 0)
      && counted.recoverable == report.recoverable + (if taken && Settled(rt, view) == Some(Interrupted) then 1 else 0)
  {
    settled, counted := rt, report;
    if !Unfinished(rt.state.destination) { return; }
    if view.busy { return rt, report.(activeElsewhere := report.activeElsewhere + 1); }
    var healthy := Healthy(rt, view);
    RecoverySettles(rt, view.saved, healthy, 6);
    settled := Perform(rt, Recover(view.saved, healthy), 6).rt;
    counted := if healthy then report.(recovered := report.recovered + 1) else report.(recoverable := report.recoverable + 1);
  }

  /** `recover`: the instances are changed in place. */
  method RecoverInstances(instances: array<Runtime>, views: seq<View>) returns (report: RecoveryReport)
    requires instances.Length == |views|
    modifies instances
    ensures forall i :: 0 <= i < |views| ==> instances[i].state.destination == Settled(old(instances[i]), views[i])
    ensures forall i :: 0 <= i < |views| && (views[i].busy || !Unfinished(old(instances[i]).state.destination)) ==> instances[i] == old(instances[i])
    ensures report.recovered + report.recoverable + report.activeElsewhere == CountConsidered(old(instances[..]))
    ensures report.recovered == CountSettled(old(instances[..]), views, Installed)
    ensures report.recoverable == CountSettled(old(instances[..]), views, Interrupted)
  {
    report := RecoveryReport(0, 0, 0);
    ghost var before := instances[..];
    for i := 0 to instances.Length
      invariant forall k :: 0 <= k < i ==> instances[k].state.destination == Settled(before[k], views[k])
      invariant forall k :: 0 <= k < i && (views[k].busy || !Unfinished(before[k].state.destination)) ==> instances[k] == before[k]
      invariant forall k :: i <= k < instances.Length ==> instances[k] == before[k]
      invariant report.recovered + report.recoverable + report.activeElsewhere == CountConsidered(before[..i])
      invariant report.recovered == CountSettled(before[..i], views, Installed)
      invariant report.recoverable == CountSettled(before[..i], views, Interrupted)
    {
      assert before[..i + 1][..i] == before[..i];
      instances[i], report := SettleOne(instances[i], views[i], report);
    }
    assert before[..instances.Length] == before;
  }
}
