/** The two-layer lock: an in-process reservation set over an operating-system file lock. */
module LockProtocol {
  import opened Wrappers

  type Worker = nat
  type Process = nat
  type Resource = string

  /** One reservation set; all clones of a manager share it, and it lives in one process. */
  datatype Manager = Manager(process: Process, id: nat)

  datatype Mode = Shared | Exclusive

  datatype Phase =
    | Reserving                 // polling the reservation set
    | Locking                   // reserved, polling the file lock
    | Abandoning                // the file lock was not obtained; the reservation is still there
    | Recording                 // exclusive file lock obtained, writing the owner record
    | Guarded                   // the guard is with the caller
    | Dropping                  // the guard is going: the file lock has been given up, or that failed
    | Closing                   // the reservation is gone, the file is about to be closed

  datatype Task = Task(manager: Manager, resource: Resource, mode: Mode, phase: Phase)

  /**
   * `tasks` holds the workers inside an acquisition or holding a guard, `held` the reservation sets
   * of all managers, `locked` the workers whose open file carries the operating-system lock.
   */
  datatype State = State(tasks: map<Worker, Task>, held: set<(Manager, Resource)>, locked: set<Worker>)

  const INITIAL := State(map[], {}, {})

  datatype Step =
    | Begin(worker: Worker, manager: Manager, resource: Resource, mode: Mode)
    | Reserve(worker: Worker)
    | GiveUpReserving(worker: Worker)
    | Lock(worker: Worker)
    | FailLocking(worker: Worker)
    | Forget(worker: Worker)
    | Record(worker: Worker)
    | FailRecording(worker: Worker, unlocks: bool)
    | Drop(worker: Worker, unlocks: bool)
    | Release(worker: Worker)
    | Close(worker: Worker)
    | Crash(process: Process)

  predicate InPhase(s: State, w: Worker, phase: Phase) {
    w in s.tasks && s.tasks[w].phase == phase
  }

  /** What the operating system tests: an exclusive lock tolerates no other, a shared one no exclusive. */
  predicate Grantable(s: State, w: Worker)
    requires w in s.tasks
  {
    forall v :: v in s.locked && v in s.tasks && v != w && s.tasks[v].resource == s.tasks[w].resource ==>
      s.tasks[v].mode == Shared && s.tasks[w].mode == Shared
  }

  function SetPhase(s: State, w: Worker, phase: Phase): State
    requires w in s.tasks
  {
    s.(tasks := s.tasks[w := s.tasks[w].(phase := phase)])
  }

  function Key(t: Task): (Manager, Resource) {
    (t.manager, t.resource)
  }

  predicate Enabled(s: State, step: Step) {
    match step
    case Begin(w, _, _, _) => w !in s.tasks
    case Reserve(w) => InPhase(s, w, Reserving) && Key(s.tasks[w]) !in s.held
    case GiveUpReserving(w) => InPhase(s, w, Reserving)
    case Lock(w) => InPhase(s, w, Locking) && Grantable(s, w)
    case FailLocking(w) => InPhase(s, w, Locking)
    case Forget(w) => InPhase(s, w, Abandoning)
    case Record(w) => InPhase(s, w, Recording)
    case FailRecording(w, _) => InPhase(s, w, Recording)
    case Drop(w, _) => InPhase(s, w, Guarded)
    case Release(w) => InPhase(s, w, Dropping)
    case Close(w) => InPhase(s, w, Closing)
    case Crash(_) => true
  }

  function GiveUpGuard(s: State, w: Worker, unlocks: bool): State
    requires w in s.tasks
  {
    var dropping := SetPhase(s, w, Dropping);
    if unlocks then dropping.(locked := s.locked - {w}) else dropping
  }

  /** One atomic step of one worker, or the death of a process with everything it holds. */
  function Next(s: State, step: Step): State
    requires Enabled(s, step)
  {
    match step
    case Begin(w, m, r, mode) => s.(tasks := s.tasks[w := Task(m, r, mode, Reserving)])
    case Reserve(w) => SetPhase(s, w, Locking).(held := s.held + {Key(s.tasks[w])})
    case GiveUpReserving(w) => s.(tasks := s.tasks - {w})
    case Lock(w) =>
      SetPhase(s, w, if s.tasks[w].mode == Exclusive then Recording else Guarded).(locked := s.locked + {w})
    case FailLocking(w) => SetPhase(s, w, Abandoning)
    case Forget(w) => s.(tasks := s.tasks - {w}, held := s.held - {Key(s.tasks[w])})
    case Record(w) => SetPhase(s, w, Guarded)
    case FailRecording(w, unlocks) => GiveUpGuard(s, w, unlocks)
    case Drop(w, unlocks) => GiveUpGuard(s, w, unlocks)
    case Release(w) => SetPhase(s, w, Closing).(held := s.held - {Key(s.tasks[w])})
    case Close(w) => s.(tasks := s.tasks - {w}, locked := s.locked - {w})
    case Crash(p) =>
      State(map w | w in s.tasks && s.tasks[w].manager.process != p :: s.tasks[w],
            set k | k in s.held && k.0.process != p,
            set w | w in s.locked && w in s.tasks && s.tasks[w].manager.process != p)
  }

  ghost predicate Runs(s: State, steps: seq<Step>, t: State)
    decreases |steps|
  {
    if steps == [] then t == s
    else Enabled(s, steps[0]) && Runs(Next(s, steps[0]), steps[1..], t)
  }

  ghost predicate Reachable(s: State) {
    exists steps :: Runs(INITIAL, steps, s)
  }

  // ---- the invariant

  /** Between reservation and release. */
  predicate Reserved(t: Task) {
    t.phase in {Locking, Abandoning, Recording, Guarded, Dropping}
  }

  predicate Holds(t: Task) {
    t.phase in {Recording, Guarded}
  }

  ghost predicate ReservationsExact(s: State) {
    && (forall w :: w in s.tasks && Reserved(s.tasks[w]) ==> Key(s.tasks[w]) in s.held)
    && (forall k :: k in s.held ==> exists w :: w in s.tasks && Reserved(s.tasks[w]) && Key(s.tasks[w]) == k)
  }

  ghost predicate OneReservationEach(s: State) {
    forall v, w :: v in s.tasks && w in s.tasks && Reserved(s.tasks[v]) && Reserved(s.tasks[w])
                   && Key(s.tasks[v]) == Key(s.tasks[w])
                   ==> v == w
  }

  ghost predicate FileLocksPlaced(s: State) {
    && s.locked <= s.tasks.Keys
    && (forall w :: w in s.tasks && Holds(s.tasks[w]) ==> w in s.locked)
    && (forall w :: w in s.locked ==> s.tasks[w].phase in {Recording, Guarded, Dropping, Closing})
  }

  ghost predicate FileLocksCompatible(s: State)
    requires s.locked <= s.tasks.Keys
  {
    forall v, w :: v in s.locked && w in s.locked && v != w && s.tasks[v].resource == s.tasks[w].resource ==>
      s.tasks[v].mode == Shared && s.tasks[w].mode == Shared
  }

  ghost predicate Invariant(s: State) {
    ReservationsExact(s) && OneReservationEach(s) && FileLocksPlaced(s) && FileLocksCompatible(s)
  }

  lemma StepKeepsPlacement(s: State, step: Step)
    requires FileLocksPlaced(s) && Enabled(s, step)
    ensures FileLocksPlaced(Next(s, step))
  {
  }

  lemma StepKeepsFileLocks(s: State, step: Step)
    requires FileLocksPlaced(s) && FileLocksCompatible(s) && Enabled(s, step)
    ensures FileLocksPlaced(Next(s, step)) && FileLocksCompatible(Next(s, step))
  {
    StepKeepsPlacement(s, step);
    var t := Next(s, step);
    if step.Lock? {
      assert t.locked == s.locked + {step.worker};
    } else {
      assert t.locked <= s.locked;
      assert forall w :: w in t.locked ==> t.tasks[w].resource == s.tasks[w].resource && t.tasks[w].mode == s.tasks[w].mode;
    }
  }

  lemma StepKeepsOneEach(s: State, step: Step)
    requires ReservationsExact(s) && OneReservationEach(s) && Enabled(s, step)
    ensures OneReservationEach(Next(s, step))
  {
  }

  lemma StepKeepsReservations(s: State, step: Step)
    requires ReservationsExact(s) && OneReservationEach(s) && Enabled(s, step)
    ensures ReservationsExact(Next(s, step))
  {
    var t := Next(s, step);
    forall k | k in t.held ensures exists w :: w in t.tasks && Reserved(t.tasks[w]) && Key(t.tasks[w]) == k {
      if step.Reserve? && k == Key(s.tasks[step.worker]) {
        assert Reserved(t.tasks[step.worker]);
      } else {
        var w :| w in s.tasks && Reserved(s.tasks[w]) && Key(s.tasks[w]) == k;
        assert w in t.tasks;
      }
    }
  }

  lemma {:induction false} RunsKeepInvariant(s: State, steps: seq<Step>, t: State)
    requires Invariant(s) && Runs(s, steps, t)
    ensures Invariant(t)
    decreases |steps|
  {
    if steps != [] {
      StepKeepsFileLocks(s, steps[0]);
      StepKeepsOneEach(s, steps[0]);
      StepKeepsReservations(s, steps[0]);
      RunsKeepInvariant(Next(s, steps[0]), steps[1..], t);
    }
  }

  lemma ReachableIsInvariant(s: State)
    requires Reachable(s)
    ensures Invariant(s)
  {
    var steps :| Runs(INITIAL, steps, s);
    RunsKeepInvariant(INITIAL, steps, s);
  }

  // ---- what the protocol guarantees, in every interleaving

  /** While somebody holds a resource exclusively nobody else, in any process, holds it at all. */
  lemma ExclusiveExcludesEveryone(s: State, v: Worker, w: Worker)
    requires Reachable(s) && v in s.tasks && w in s.tasks && v != w
    requires Holds(s.tasks[v]) && Holds(s.tasks[w]) && s.tasks[v].resource == s.tasks[w].resource
    ensures s.tasks[v].mode == Shared && s.tasks[w].mode == Shared
  {
    ReachableIsInvariant(s);
  }

  /** Clones of one manager never have two guards for a resource, not even shared ones. */
  lemma ClonesNeverShare(s: State, v: Worker, w: Worker)
    requires Reachable(s) && InPhase(s, v, Guarded) && InPhase(s, w, Guarded)
    requires Key(s.tasks[v]) == Key(s.tasks[w])
    ensures v == w
  {
    ReachableIsInvariant(s);
  }

  /** A resource is reserved exactly while one of that manager's workers is between reservation and release. */
  lemma ReservedExactlyWhileInUse(s: State, m: Manager, r: Resource)
    requires Reachable(s)
    ensures (m, r) in s.held <==> exists w :: w in s.tasks && Reserved(s.tasks[w]) && Key(s.tasks[w]) == (m, r)
  {
    ReachableIsInvariant(s);
  }

  /** However an acquisition ends, nothing of it is left behind: neither reservation nor file lock. */
  lemma NothingLeaks(s: State, m: Manager, r: Resource)
    requires Reachable(s) && forall w :: w in s.tasks ==> Key(s.tasks[w]) != (m, r)
    ensures (m, r) !in s.held
    ensures s.locked <= s.tasks.Keys
  {
    ReachableIsInvariant(s);
  }

  lemma RunOneFirst(s: State, step: Step, steps: seq<Step>, t: State)
    requires Enabled(s, step) && Runs(Next(s, step), steps, t)
    ensures Runs(s, [step] + steps, t)
  {
    assert ([step] + steps)[1..] == steps;
  }

  /** So a free resource can be had at the first attempt, with no waiting. */
  lemma FreeResourceIsGranted(s: State, w: Worker, m: Manager, r: Resource, mode: Mode)
    requires Reachable(s) && w !in s.tasks && forall v :: v in s.tasks ==> s.tasks[v].resource != r
    ensures exists t, steps :: Runs(s, steps, t) && InPhase(t, w, Guarded) && |steps| <= 4
              && forall i :: 0 <= i < |steps| ==> steps[i] in {Begin(w, m, r, mode), Reserve(w), Lock(w), Record(w)}
  {
    ReachableIsInvariant(s);
    var s1 := Next(s, Begin(w, m, r, mode));
    var s2 := Next(s1, Reserve(w));
    assert Grantable(s2, w);
    var s3 := Next(s2, Lock(w));
    var t := if mode == Exclusive then Next(s3, Record(w)) else s3;
    var last: seq<Step> := if mode == Exclusive then [Record(w)] else [];
    assert Runs(s3, last, t);
    RunOneFirst(s2, Lock(w), last, t);
    RunOneFirst(s1, Reserve(w), [Lock(w)] + last, t);
    RunOneFirst(s, Begin(w, m, r, mode), [Reserve(w)] + ([Lock(w)] + last), t);
    var steps := [Begin(w, m, r, mode)] + ([Reserve(w)] + ([Lock(w)] + last));
    assert Runs(s, steps, t) && InPhase(t, w, Guarded) && |steps| <= 4;
  }

  // ---- the acquisition code as a worker runs it among the others

  /** A step that belongs to somebody else and does not kill `w`. */
  predicate Foreign(step: Step, w: Worker, m: Manager) {
    if step.Crash? then step.process != m.process else step.worker != w
  }

  /** What the other workers do meanwhile; requests that are not possible do not happen. */
  function Meanwhile(s: State, w: Worker, m: Manager, steps: seq<Step>): State
    decreases |steps|
  {
    if steps == [] then s
    else if Foreign(steps[0], w, m) && Enabled(s, steps[0]) then Meanwhile(Next(s, steps[0]), w, m, steps[1..])
    else Meanwhile(s, w, m, steps[1..])
  }

  lemma {:induction false} RunsAppend(s: State, steps: seq<Step>, t: State, step: Step)
    requires Runs(s, steps, t) && Enabled(t, step)
    ensures Runs(s, steps + [step], Next(t, step))
    decreases |steps|
  {
    if steps == [] {
      assert [step][1..] == [];
    } else {
      RunsAppend(Next(s, steps[0]), steps[1..], t, step);
      assert (steps + [step])[1..] == steps[1..] + [step];
    }
  }

  lemma StepStaysReachable(s: State, step: Step)
    requires Reachable(s) && Enabled(s, step)
    ensures Reachable(Next(s, step))
  {
    var steps :| Runs(INITIAL, steps, s);
    RunsAppend(INITIAL, steps, s, step);
  }

  lemma {:induction false} OthersLeaveWorkerAlone(s: State, w: Worker, m: Manager, steps: seq<Step>)
    requires Reachable(s) && w in s.tasks && s.tasks[w].manager == m
    ensures Reachable(Meanwhile(s, w, m, steps))
    ensures w in Meanwhile(s, w, m, steps).tasks && Meanwhile(s, w, m, steps).tasks[w] == s.tasks[w]
    decreases |steps|
  {
    if steps != [] {
      if Foreign(steps[0], w, m) && Enabled(s, steps[0]) {
        StepStaysReachable(s, steps[0]);
        OthersLeaveWorkerAlone(Next(s, steps[0]), w, m, steps[1..]);
      } else {
        OthersLeaveWorkerAlone(s, w, m, steps[1..]);
      }
    }
  }

  datatype Acquired = Guard | Busy | Io

  /** The shared world, changed in place by every worker's steps. */
  class World {
    var state: State

    constructor ()
      ensures state == INITIAL
    {
      state := INITIAL;
    }

    method Take(step: Step)
      requires Reachable(state) && Enabled(state, step)
      modifies this
      ensures state == Next(old(state), step) && Reachable(state)
    {
      StepStaysReachable(state, step);
      state := Next(state, step);
    }

    method LetOthersRun(w: Worker, m: Manager, steps: seq<Step>)
      requires Reachable(state) && w in state.tasks && state.tasks[w].manager == m
      modifies this
      ensures Reachable(state) && w in state.tasks && state.tasks[w] == old(state.tasks[w])
    {
      OthersLeaveWorkerAlone(state, w, m, steps);
      state := Meanwhile(state, w, m, steps);
    }

    /**
     * `acquire_blocking`. `naps[k]` is what the others do during the k-th sleep; when the naps are used
     * up the timeout has elapsed. `lockError` makes the k-th file-lock attempt fail outright,
     * `recordFails` makes writing the owner record fail.
     */
    method AcquireBlocking(w: Worker, m: Manager, r: Resource, mode: Mode, naps: seq<seq<Step>>,
                           lockError: set<nat>, recordFails: bool, unlocks: bool)
      returns (outcome: Acquired)
      requires Reachable(state) && w !in state.tasks
      modifies this
      ensures Reachable(state)
      ensures outcome == Guard <==> w in state.tasks
      ensures outcome == Guard ==> state.tasks[w] == Task(m, r, mode, Guarded) && w in state.locked && (m, r) in state.held
    {
      Take(Begin(w, m, r, mode));
      var k := 0;
      while Key(state.tasks[w]) in state.held
        invariant Reachable(state) && k <= |naps|
        invariant w in state.tasks && state.tasks[w] == Task(m, r, mode, Reserving)
        decreases |naps| - k
      {
        if k == |naps| {
          Take(GiveUpReserving(w));
          return Busy;
        }
        LetOthersRun(w, m, naps[k]);
        k := k + 1;
      }
      Take(Reserve(w));
      var attempt := 0;
      while attempt in lockError || !Grantable(state, w)
        invariant Reachable(state) && k <= |naps|
        invariant w in state.tasks && state.tasks[w] == Task(m, r, mode, Locking)
        decreases |naps| - k
      {
        var failed := attempt in lockError;
        if failed || k == |naps| {
          Take(FailLocking(w));
          Take(Forget(w));
          return if failed then Io else Busy;
        }
        LetOthersRun(w, m, naps[k]);
        k, attempt := k + 1, attempt + 1;
      }
      Take(Lock(w));
      if mode == Exclusive {
        if recordFails {
          Take(FailRecording(w, unlocks));
          Take(Release(w));
          Take(Close(w));
          return Io;
        }
        Take(Record(w));
      }
      ReachableIsInvariant(state);
      outcome := Guard;
    }

    /** `Drop for ResourceLock`. Whether or not the explicit unlock works, nothing of the guard remains. */
    method DropGuard(w: Worker, unlocks: bool)
      requires Reachable(state) && InPhase(state, w, Guarded)
      modifies this
      ensures Reachable(state)
      ensures state == State(old(state).tasks - {w}, old(state).held - {Key(old(state).tasks[w])}, old(state).locked - {w})
    {
      Take(Drop(w, unlocks));
      Take(Release(w));
      Take(Close(w));
    }
  }
}
