/** Replacing a document or a directory by renaming, with a crash possible between any two steps. */
module Replacing {
  import opened Wrappers

  /** A file or directory that is being written: cut short, or complete. */
  datatype Draft<+T> = Torn | Whole(value: T)

  /** A document and the temporary file beside it. */
  datatype Slot<+T> = Slot(destination: Option<T>, temporary: Option<Draft<T>>)

  datatype Cut<+T> = Cut(slot: Slot<T>, left: nat, done: bool)

  /**
   * Replacing a document when the process dies after `steps` more steps: start the temporary file, finish
   * it, remove the destination if there is one, rename.
   */
  function Replaced<T>(slot: Slot<T>, value: T, steps: nat): Cut<T> {
    if steps == 0 then Cut(slot, 0, false)
    else if steps == 1 then Cut(slot.(temporary := Some(Torn)), 0, false)
    else if steps == 2 then Cut(slot.(temporary := Some(Whole(value))), 0, false)
    else if slot.destination.Some? && steps == 3 then Cut(Slot(None, Some(Whole(value))), 0, false)
    else Cut(Slot(Some(value), None), if slot.destination.Some? then steps - 4 else steps - 3, true)
  }

  class Clock {
    /** Steps left before the process dies. */
    var left: nat

    constructor (left: nat)
      ensures this.left == left
    {
      this.left := left;
    }

    method Tick() returns (dead: bool)
      modifies this
      ensures dead <==> old(left) == 0
      ensures left == if dead then 0 else old(left) - 1
    {
      dead := left == 0;
      if !dead { left := left - 1; }
    }
  }

  class Document<T> {
    var destination: Option<T>
    var temporary: Option<Draft<T>>

    constructor (slot: Slot<T>)
      ensures Now() == slot
    {
      destination, temporary := slot.destination, slot.temporary;
    }

    function Now(): Slot<T>
      reads this
    {
      Slot(destination, temporary)
    }

    /** `write_install_state`, `replace_spec_unlocked`, `atomic_json`, `atomic_write_under`. */
    method Replace(value: T, clock: Clock) returns (done: bool)
      modifies this, clock
      ensures Cut(Now(), clock.left, done) == Replaced(old(Now()), value, old(clock.left))
    {
      var dead := clock.Tick();
      if dead { return false; }
      temporary := Some(Torn);
      dead := clock.Tick();
      if dead { return false; }
      temporary := Some(Whole(value));
      if destination.Some? {
        dead := clock.Tick();
        if dead { return false; }
        destination := None;
      }
      dead := clock.Tick();
      if dead { return false; }
      destination, temporary := Some(value), None;
      done := true;
    }
  }

  // ---- any number of replacements, each cut anywhere

  datatype Attempt<+T> = Attempt(value: T, steps: nat)

  function AfterAll<T>(slot: Slot<T>, attempts: seq<Attempt<T>>): Slot<T> {
    if attempts == [] then slot
    else
      var last := attempts[|attempts| - 1];
      Replaced(AfterAll(slot, attempts[..|attempts| - 1]), last.value, last.steps).slot
  }

  ghost predicate Offered<T(!new)>(attempts: seq<Attempt<T>>, value: T) {
    exists i :: 0 <= i < |attempts| && attempts[i].value == value
  }

  /** The destination is never torn: it is absent, the original, or one of the new documents in full. */
  lemma {:induction false} DestinationIsNeverTorn<T(!new)>(slot: Slot<T>, attempts: seq<Attempt<T>>)
    ensures
      var d := AfterAll(slot, attempts).destination;
      d.None? || d == slot.destination || Offered(attempts, d.value)
    decreases |attempts|
  {
    if attempts != [] {
      var front, last := attempts[..|attempts| - 1], attempts[|attempts| - 1];
      DestinationIsNeverTorn(slot, front);
      var d := AfterAll(slot, attempts).destination;
      if d == Some(last.value) {
        assert attempts[|attempts| - 1].value == d.value;
      } else if d.Some? && d != slot.destination {
        var i :| 0 <= i < |front| && front[i].value == d.value;
        assert attempts[i].value == d.value;
      }
    }
  }

  predicate SomethingWhole<T>(slot: Slot<T>) {
    slot.destination.Some? || (slot.temporary.Some? && slot.temporary.value.Whole?)
  }

  /** One replacement of an existing document always leaves a complete document in one of the two places. */
  lemma OneReplacementLosesNothing<T>(slot: Slot<T>, value: T, steps: nat)
    requires slot.destination.Some?
    ensures
      var after := Replaced(slot, value, steps).slot;
      && SomethingWhole(after)
      && (after.destination.None? ==> steps == 3 && after.temporary == Some(Whole(value)))
  {
  }

  /** Whether a sequence of replacements that found a document leaves its place vacant. */
  predicate Vacant<T>(attempts: seq<Attempt<T>>)
    decreases |attempts|
  {
    attempts != [] &&
    var front, last := attempts[..|attempts| - 1], attempts[|attempts| - 1];
    if Vacant(front) then last.steps <= 2 else last.steps == 3
  }

  /** Whether, in addition, the temporary file was left torn by a later replacement. */
  predicate Lost<T>(attempts: seq<Attempt<T>>)
    decreases |attempts|
  {
    attempts != [] &&
    var front, last := attempts[..|attempts| - 1], attempts[|attempts| - 1];
    Vacant(front) && (last.steps == 1 || (last.steps == 0 && Lost(front)))
  }

  /**
   * Over several interrupted replacements a document can be lost, and exactly so: one replacement dies after
   * removing the destination, and a later one dies while still writing its temporary file.
   */
  lemma {:induction false} NothingWholeIffLost<T>(slot: Slot<T>, attempts: seq<Attempt<T>>)
    requires slot.destination.Some?
    ensures AfterAll(slot, attempts).destination.None? <==> Vacant(attempts)
    ensures !SomethingWhole(AfterAll(slot, attempts)) <==> Lost(attempts)
    decreases |attempts|
  {
    if attempts != [] {
      NothingWholeIffLost(slot, attempts[..|attempts| - 1]);
    }
  }

  lemma TwoCrashesLoseADocument<T>(original: T, second: T, third: T)
    ensures !SomethingWhole(AfterAll(Slot(Some(original), None), [Attempt(second, 3), Attempt(third, 1)]))
  {
    var attempts := [Attempt(second, 3), Attempt(third, 1)];
    var front := attempts[..1];
    assert front[..0] == [];
    assert Vacant(front);
    assert Lost(attempts);
    NothingWholeIffLost(Slot(Some(original), None), attempts);
  }

  // ---- the natives directory

  /** `runtime/natives` with the staging and backup directories of one transaction. */
  class NativesSwap<T> {
    var natives: Option<T>
    var staging: Option<Draft<T>>
    var backup: Option<Draft<T>>
    /** What the backup directories of earlier transactions were left with. */
    var leftBehind: seq<Draft<T>>

    constructor (natives: Option<T>)
      ensures this.natives == natives && staging == None && backup == None && leftBehind == []
    {
      this.natives, staging, backup, leftBehind := natives, None, None, [];
    }

    /** Removing a directory tree passes through incomplete states. */
    method DropStaging(clock: Clock) returns (dead: bool)
      modifies this`staging, clock
      ensures !dead ==> staging == None
      ensures dead ==> clock.left == 0
    {
      dead := false;
      if staging.Some? {
        dead := clock.Tick();
        if dead { return; }
        staging := Some(Torn);
        dead := clock.Tick();
        if dead { return; }
        staging := None;
      }
    }

    method DropBackup(clock: Clock) returns (dead: bool)
      modifies this`backup, clock
      ensures !dead ==> backup == None
      ensures dead ==> clock.left == 0
    {
      dead := false;
      if backup.Some? {
        dead := clock.Tick();
        if dead { return; }
        backup := Some(Torn);
        dead := clock.Tick();
        if dead { return; }
        backup := None;
      }
    }

    /** `reextract_managed_natives`: extract beside, move the old directory away, move the new one in. */
    method Reextract(value: T, cancelled: bool, clock: Clock) returns (done: bool)
      modifies this`natives, this`staging, this`backup, clock
      ensures natives == old(natives) || natives == None || natives == Some(value)
      ensures natives.None? && old(natives).Some? ==>
                backup == Some(Whole(old(natives).value)) && staging == Some(Whole(value)) && clock.left == 0
      ensures done ==> natives == Some(value) && staging == None && backup == None && !cancelled
      ensures cancelled ==> natives == old(natives)
      ensures !done ==> cancelled || clock.left == 0
    {
      var dead := DropStaging(clock);
      if dead { return false; }
      dead := clock.Tick();
      if dead { return false; }
      staging := Some(Torn);
      dead := clock.Tick();
      if dead { return false; }
      staging := Some(Whole(value));
      if cancelled { return false; }
      if natives.Some? {
        dead := DropBackup(clock);
        if dead { return false; }
        dead := clock.Tick();
        if dead { return false; }
        natives, backup := None, Some(Whole(natives.value));
      }
      dead := clock.Tick();
      if dead { return false; }
      natives, staging := Some(value), None;
      dead := DropBackup(clock);
      done := !dead;
    }

    /** The tree that was last in place is whole in the natives directory, or beside it in some backup. */
    predicate SomewhereWhole()
      reads this
    {
      natives.Some? || (backup.Some? && backup.value.Whole?) || exists i :: 0 <= i < |leftBehind| && leftBehind[i].Whole?
    }

    /** An extraction that started without leftovers of its own leaves a whole tree if it found one. */
    lemma StillWhole(whole: bool, was: Option<T>, kept: seq<Draft<T>>)
      requires whole ==> was.Some? || exists i :: 0 <= i < |kept| && kept[i].Whole?
      requires leftBehind == kept
      requires natives.None? && was.Some? ==> backup == Some(Whole(was.value))
      ensures whole ==> SomewhereWhole()
    {
    }

    /** A new transaction has directories of its own; those of the last one stay where they are. */
    method NextTransaction()
      modifies this`staging, this`backup, this`leftBehind
      ensures staging == None && backup == None
      ensures old(leftBehind) <= leftBehind
      ensures old(SomewhereWhole()) ==> SomewhereWhole()
    {
      ghost var before := leftBehind;
      if backup.Some? {
        leftBehind := leftBehind + [backup.value];
        assert leftBehind[|before|] == backup.value && leftBehind[..|before|] == before;
      }
      assert forall i :: 0 <= i < |before| ==> leftBehind[i] == before[i];
      staging, backup := None, None;
    }

    /**
     * Any number of extractions, each a transaction of its own cut after some steps: the natives are always wholly
     * the original, wholly one of the extracted trees, or absent, and when there was an original the tree last in
     * place is never lost, as long as nobody sweeps the backups away.
     */
    method ReextractThroughCrashes(attempts: seq<Attempt<T>>)
      modifies this
      ensures natives.None? || natives == old(natives) || exists i :: 0 <= i < |attempts| && natives == Some(attempts[i].value)
      ensures attempts == [] ==> natives == old(natives)
      ensures old(SomewhereWhole()) ==> SomewhereWhole()
    {
      for k := 0 to |attempts|
        invariant natives.None? || natives == old(natives) || exists i :: 0 <= i < k && natives == Some(attempts[i].value)
        invariant k == 0 ==> natives == old(natives)
        invariant old(SomewhereWhole()) ==> SomewhereWhole()
      {
        NextTransaction();
        ghost var whole, was, kept := SomewhereWhole(), natives, leftBehind;
        var clock := new Clock(attempts[k].steps);
        var done := Reextract(attempts[k].value, false, clock);
        StillWhole(whole, was, kept);
      }
    }
  }
}
