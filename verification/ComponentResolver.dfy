/** The worklist algorithms that resolve a component graph. */
module ComponentResolver {
  import opened Wrappers
  import opened Ordering
  import opened ComponentGraph

  /** How often `x` occurs in `xs`. */
  ghost function Count(xs: seq<Id>, x: Id): nat {
    if xs == [] then 0 else (if xs[0] == x then 1 else 0) + Count(xs[1..], x)
  }

  lemma {:induction false} CountAppend(xs: seq<Id>, y: Id, x: Id)
    ensures Count(xs + [y], x) == Count(xs, x) + if x == y then 1 else 0
  {
    if xs != [] {
      CountAppend(xs[1..], y, x);
      assert (xs + [y])[1..] == xs[1..] + [y];
    }
  }

  lemma {:induction false} CountMember(xs: seq<Id>, x: Id)
    ensures Count(xs, x) > 0 <==> x in xs
  {
    if xs != [] {
      CountMember(xs[1..], x);
      assert xs == [xs[0]] + xs[1..];
    }
  }

  /** How many entries of a `requires` list are not done yet; repeated entries count separately. */
  ghost function Pending(reqs: seq<Id>, done: set<Id>): nat {
    if reqs == [] then 0 else (if reqs[0] in done then 0 else 1) + Pending(reqs[1..], done)
  }

  lemma {:induction false} PendingAdd(reqs: seq<Id>, done: set<Id>, x: Id)
    requires x !in done
    ensures Pending(reqs, done) == Pending(reqs, done + {x}) + Count(reqs, x)
  {
    if reqs != [] {
      PendingAdd(reqs[1..], done, x);
      assert reqs == [reqs[0]] + reqs[1..];
    }
  }

  lemma {:induction false} PendingZero(reqs: seq<Id>, done: set<Id>)
    ensures Pending(reqs, done) == 0 <==> forall d :: d in reqs ==> d in done
  {
    if reqs != [] {
      PendingZero(reqs[1..], done);
      assert reqs == [reqs[0]] + reqs[1..];
    }
  }

  lemma {:induction false} PendingNothingDone(reqs: seq<Id>)
    ensures Pending(reqs, {}) == |reqs|
  {
    if reqs != [] { PendingNothingDone(reqs[1..]); }
  }

  function Get(m: map<Id, seq<Id>>, k: Id): seq<Id> {
    if k in m then m[k] else []
  }

  /** Each component appears among the dependents of `d` once per time it lists `d`. */
  ghost predicate DependentsOf(g: Graph, dependents: map<Id, seq<Id>>) {
    && (forall d, x :: x in Get(dependents, d) ==> x in g)
    && (forall d, x :: x in g ==> Count(Get(dependents, d), x) == Count(g[x].requires_, d))
  }

  ghost predicate Recorded(id: Id, reqs: seq<Id>, before: map<Id, seq<Id>>, after: map<Id, seq<Id>>) {
    forall d, x :: Count(Get(after, d), x) == Count(Get(before, d), x) + if x == id then Count(reqs, d) else 0
  }

  method RecordDependents(id: Id, reqs: seq<Id>, before: map<Id, seq<Id>>) returns (after: map<Id, seq<Id>>)
    ensures Recorded(id, reqs, before, after)
  {
    after := before;
    assert forall d :: Count(reqs[..0], d) == 0;
    for k := 0 to |reqs|
      invariant forall d, x :: Count(Get(after, d), x) == Count(Get(before, d), x) + if x == id then Count(reqs[..k], d) else 0
    {
      var d := reqs[k];
      assert reqs[..k + 1] == reqs[..k] + [d];
      ghost var earlier := after;
      after := after[d := Get(after, d) + [id]];
      forall e, x ensures Count(Get(after, e), x) == Count(Get(before, e), x) + if x == id then Count(reqs[..k + 1], e) else 0 {
        CountAppend(reqs[..k], d, e);
        CountAppend(Get(earlier, d), id, x);
      }
    }
    assert reqs[..|reqs|] == reqs;
  }

  /** The dependents recorded after scanning the components `seen`. */
  ghost predicate RecordedFor(g: Graph, seen: set<Id>, dependents: map<Id, seq<Id>>)
    requires seen <= g.Keys
  {
    forall d, x :: Count(Get(dependents, d), x) == if x in seen then Count(g[x].requires_, d) else 0
  }

  lemma RecordedForAll(g: Graph, dependents: map<Id, seq<Id>>)
    requires RecordedFor(g, g.Keys, dependents)
    ensures DependentsOf(g, dependents)
  {
    forall d, x | x in Get(dependents, d) ensures x in g { CountMember(Get(dependents, d), x); }
  }

  lemma RecordedForOneMore(g: Graph, seen: set<Id>, id: Id, before: map<Id, seq<Id>>, after: map<Id, seq<Id>>)
    requires seen <= g.Keys && id in g && id !in seen
    requires RecordedFor(g, seen, before) && Recorded(id, g[id].requires_, before, after)
    ensures RecordedFor(g, seen + {id}, after)
  {
  }

  lemma DanglingStep(g: Graph, keys: seq<Id>, i: nat)
    requires (forall k :: k in keys ==> k in g) && i < |keys|
    ensures FirstDangling(g, keys[i..]) ==
      match FirstNotIn(g[keys[i]].requires_, g.Keys)
      case Some(d) => Some((keys[i], d))
      case None => FirstDangling(g, keys[i + 1..])
  {
    assert keys[i..][1..] == keys[i + 1..];
  }

  /** The two tables after scanning the components in `count`. */
  ghost predicate Scanned(g: Graph, count: map<Id, nat>, dependents: map<Id, seq<Id>>) {
    && count.Keys <= g.Keys
    && (forall x :: x in count ==> count[x] == |g[x].requires_|)
    && RecordedFor(g, count.Keys, dependents)
  }

  method ScanComponent(g: Graph, id: Id, before: map<Id, nat>, recorded: map<Id, seq<Id>>)
    returns (bad: Option<Id>, count: map<Id, nat>, dependents: map<Id, seq<Id>>)
    requires id in g && id !in before && Scanned(g, before, recorded)
    ensures bad == FirstNotIn(g[id].requires_, g.Keys)
    ensures bad.None? ==> Scanned(g, count, dependents) && count.Keys == before.Keys + {id}
  {
    var reqs := g[id].requires_;
    count := before[id := |reqs|];
    dependents := recorded;
    bad := FirstNotIn(reqs, g.Keys);
    if bad.None? {
      dependents := RecordDependents(id, reqs, recorded);
      RecordedForOneMore(g, before.Keys, id, recorded, dependents);
    }
  }

  ghost function FirstOf(keys: seq<Id>, i: nat): set<Id>
    requires i <= |keys|
  {
    if i == 0 then {} else FirstOf(keys, i - 1) + {keys[i - 1]}
  }

  lemma {:induction false} FirstOfMembers(keys: seq<Id>, i: nat)
    requires i <= |keys|
    ensures forall x :: x in FirstOf(keys, i) <==> x in keys[..i]
  {
    if i > 0 {
      FirstOfMembers(keys, i - 1);
      assert keys[..i] == keys[..i - 1] + [keys[i - 1]];
    }
  }

  lemma NextIsNew(g: Graph, keys: seq<Id>, i: nat)
    requires keys == Ascending(g.Keys) && i < |keys|
    ensures keys[i] in g && keys[i] !in FirstOf(keys, i)
  {
    FirstOfMembers(keys, i);
    assert keys[i] in keys;
  }

  lemma AllAreScanned(g: Graph, keys: seq<Id>)
    requires keys == Ascending(g.Keys)
    ensures FirstOf(keys, |keys|) == g.Keys
  {
    FirstOfMembers(keys, |keys|);
    assert keys[..|keys|] == keys;
  }

  /** The first dangling reference among the keys from `i` on. */
  ghost function DanglingFrom(g: Graph, keys: seq<Id>, i: nat): Option<(Id, Id)>
    requires i <= |keys| && forall k :: k in keys ==> k in g
  {
    FirstDangling(g, keys[i..])
  }

  lemma ScanEnds(g: Graph, keys: seq<Id>)
    requires forall k :: k in keys ==> k in g
    ensures DanglingFrom(g, keys, 0) == FirstDangling(g, keys) && DanglingFrom(g, keys, |keys|).None?
    ensures Scanned(g, map[], map[])
  {
    assert keys[0..] == keys && keys[|keys|..] == [];
  }

  /** One turn of the scan. */
  method ScanNext(g: Graph, keys: seq<Id>, i: nat, before: map<Id, nat>, recorded: map<Id, seq<Id>>)
    returns (bad: Option<Id>, count: map<Id, nat>, dependents: map<Id, seq<Id>>)
    requires keys == Ascending(g.Keys) && i < |keys|
    requires before.Keys == FirstOf(keys, i) && Scanned(g, before, recorded)
    ensures bad.Some? ==> DanglingFrom(g, keys, i) == Some((keys[i], bad.value))
    ensures bad.None? ==> DanglingFrom(g, keys, i) == DanglingFrom(g, keys, i + 1)
    ensures bad.None? ==> count.Keys == FirstOf(keys, i + 1) && Scanned(g, count, dependents)
  {
    NextIsNew(g, keys, i);
    bad, count, dependents := ScanComponent(g, keys[i], before, recorded);
    DanglingStep(g, keys, i);
  }

  method ScanAll(g: Graph, keys: seq<Id>)
    returns (dangling: Option<(Id, Id)>, count: map<Id, nat>, dependents: map<Id, seq<Id>>)
    requires keys == Ascending(g.Keys)
    ensures dangling == DanglingFrom(g, keys, 0)
    ensures dangling.None? ==> count.Keys == FirstOf(keys, |keys|) && Scanned(g, count, dependents)
  {
    count, dependents := map[], map[];
    ScanEnds(g, keys);
    for i := 0 to |keys|
      invariant DanglingFrom(g, keys, 0) == DanglingFrom(g, keys, i)
      invariant count.Keys == FirstOf(keys, i) && Scanned(g, count, dependents)
    {
      var bad;
      bad, count, dependents := ScanNext(g, keys, i, count, dependents);
      if bad.Some? { return Some((keys[i], bad.value)), count, dependents; }
    }
    dangling := None;
  }

  method CountDependencies(g: Graph)
    returns (dangling: Option<(Id, Id)>, count: map<Id, nat>, dependents: map<Id, seq<Id>>)
    ensures dangling == FirstDangling(g, Ascending(g.Keys))
    ensures dangling.None? ==> count.Keys == g.Keys && Scanned(g, count, dependents) && DependentsOf(g, dependents)
  {
    var keys := Ascending(g.Keys);
    dangling, count, dependents := ScanAll(g, keys);
    AllAreScanned(g, keys);
    ScanEnds(g, keys);
    if dangling.None? { RecordedForAll(g, dependents); }
  }

  ghost predicate ReadyAmong(ids: set<Id>, count: map<Id, nat>, ready: seq<Id>) {
    Distinct(ready) && forall x :: x in ready <==> x in ids && x in count && count[x] == 0
  }

  lemma ReadyOneMore(ids: set<Id>, count: map<Id, nat>, ready: seq<Id>, id: Id)
    requires ReadyAmong(ids, count, ready) && id !in ids && id in count
    ensures ReadyAmong(ids + {id}, count, if count[id] == 0 then ready + [id] else ready)
  {
  }

  method InitiallyReady(g: Graph, count: map<Id, nat>) returns (ready: seq<Id>)
    requires count.Keys == g.Keys
    ensures Distinct(ready)
    ensures forall x :: x in ready <==> x in g && count[x] == 0
  {
    var keys := Ascending(g.Keys);
    ready := [];
    for i := 0 to |keys|
      invariant ReadyAmong(FirstOf(keys, i), count, ready)
    {
      NextIsNew(g, keys, i);
      ReadyOneMore(FirstOf(keys, i), count, ready, keys[i]);
      if count[keys[i]] == 0 { ready := ready + [keys[i]]; }
    }
    AllAreScanned(g, keys);
  }

  ghost predicate Counted(g: Graph, count: map<Id, nat>, done: set<Id>) {
    count.Keys == g.Keys && forall x :: x in g ==> count[x] == Pending(g[x].requires_, done)
  }

  /** Queued or done exactly when the counter is at zero, and never queued twice. */
  ghost predicate Settled(g: Graph, count: map<Id, nat>, done: seq<Id>, ready: seq<Id>) {
    && Distinct(done + ready)
    && (forall x :: x in done + ready <==> x in g && x in count && count[x] == 0)
  }

  ghost function Elements(xs: seq<Id>): set<Id> {
    set x | x in xs
  }

  /** The counters while the dependents of `id` are being told; `left` are still to be told. */
  ghost predicate Telling(g: Graph, count: map<Id, nat>, done: set<Id>, left: seq<Id>) {
    count.Keys == g.Keys && forall x :: x in g ==> count[x] == Pending(g[x].requires_, done) + Count(left, x)
  }

  lemma StartTelling(g: Graph, count: map<Id, nat>, done: set<Id>, id: Id, toTell: seq<Id>)
    requires Counted(g, count, done) && id !in done
    requires forall x :: x in g ==> Count(toTell, x) == Count(g[x].requires_, id)
    ensures Telling(g, count, done + {id}, toTell)
  {
    forall x | x in g ensures count[x] == Pending(g[x].requires_, done + {id}) + Count(toTell, x) {
      PendingAdd(g[x].requires_, done, id);
    }
  }

  lemma TellOne(g: Graph, count: map<Id, nat>, done: set<Id>, left: seq<Id>)
    requires Telling(g, count, done, left) && left != [] && left[0] in g
    ensures count[left[0]] > 0
    ensures Telling(g, count[left[0] := count[left[0]] - 1], done, left[1..])
  {
  }

  lemma QueueOne(g: Graph, before: map<Id, nat>, done: seq<Id>, ready: seq<Id>, x: Id)
    requires Settled(g, before, done, ready) && x in g && before.Keys == g.Keys && before[x] > 0
    ensures Settled(g, before[x := before[x] - 1], done, if before[x] == 1 then ready + [x] else ready)
  {
    assert x !in done + ready;
    assert done + (ready + [x]) == (done + ready) + [x];
  }

  /** One pop: tell every dependent of `id` that `id` is done. */
  method Release(g: Graph, id: Id, toTell: seq<Id>, ghost done: seq<Id>, before: map<Id, nat>, queue: seq<Id>)
    returns (count: map<Id, nat>, ready: seq<Id>)
    requires id in g && id !in done
    requires Counted(g, before, Elements(done))
    requires Settled(g, before, done, [id] + queue)
    requires forall x :: x in toTell ==> x in g
    requires forall x :: x in g ==> Count(toTell, x) == Count(g[x].requires_, id)
    ensures Counted(g, count, Elements(done) + {id})
    ensures Settled(g, count, done + [id], ready)
  {
    ghost var told := Elements(done) + {id};
    count, ready := before, queue;
    StartTelling(g, before, Elements(done), id, toTell);
    assert toTell[0..] == toTell;
    assert done + ([id] + queue) == (done + [id]) + queue;
    for k := 0 to |toTell|
      invariant Telling(g, count, told, toTell[k..])
      invariant Settled(g, count, done + [id], ready)
    {
      var dependent := toTell[k];
      assert toTell[k..][0] == dependent && toTell[k..][1..] == toTell[k + 1..];
      TellOne(g, count, told, toTell[k..]);
      QueueOne(g, count, done + [id], ready, dependent);
      count := count[dependent := count[dependent] - 1];
      if count[dependent] == 0 {
        ready := ready + [dependent];
      }
    }
    assert toTell[|toTell|..] == [];
  }

  ghost predicate Draining(g: Graph, count: map<Id, nat>, done: seq<Id>, ready: seq<Id>) {
    && Counted(g, count, Elements(done))
    && Settled(g, count, done, ready)
    && Topological(g, done)
    && |done| <= |g.Keys|
  }

  lemma StartDraining(g: Graph, count: map<Id, nat>, ready: seq<Id>)
    requires count.Keys == g.Keys && forall x :: x in g ==> count[x] == |g[x].requires_|
    requires Distinct(ready) && forall x :: x in ready <==> x in g && count[x] == 0
    ensures Draining(g, count, [], ready)
  {
    forall x | x in g ensures count[x] == Pending(g[x].requires_, {}) { PendingNothingDone(g[x].requires_); }
    assert Elements([]) == {};
    assert [] + ready == ready;
  }

  /** The head of the queue has every dependency done, so appending it keeps the order topological. */
  lemma HeadIsNext(g: Graph, count: map<Id, nat>, done: seq<Id>, ready: seq<Id>)
    requires Draining(g, count, done, ready) && ready != []
    ensures ready[0] in g && ready[0] !in done
    ensures Topological(g, done + [ready[0]])
    ensures Elements(done + [ready[0]]) == Elements(done) + {ready[0]}
  {
    var id := ready[0];
    assert (done + ready)[|done|] == id;
    assert forall i :: 0 <= i < |done| ==> (done + ready)[i] == done[i];
    PendingZero(g[id].requires_, Elements(done));
    var next := done + [id];
    forall i, d | 0 <= i < |next| && next[i] in g && d in g[next[i]].requires_ ensures d in next[..i] {
      if i < |done| { assert next[..i] == done[..i]; } else { assert next[..i] == done; }
    }
  }

  /** Kahn's algorithm with multiplicity counters. */
  method Drain(g: Graph, counts: map<Id, nat>, dependents: map<Id, seq<Id>>)
    returns (resolved: nat, count: map<Id, nat>)
    requires Closed(g)
    requires counts.Keys == g.Keys && forall x :: x in g ==> counts[x] == |g[x].requires_|
    requires DependentsOf(g, dependents)
    ensures count.Keys == g.Keys
    ensures CycleIds(g) == set x | x in g && count[x] > 0
    ensures resolved == |g.Keys| <==> CycleIds(g) == {}
  {
    count := counts;
    var ready := InitiallyReady(g, count);
    resolved := 0;
    ghost var done: seq<Id> := [];
    StartDraining(g, count, ready);
    while ready != []
      invariant resolved == |done|
      invariant Draining(g, count, done, ready)
      decreases |g.Keys| - |done|
    {
      var id := ready[0];
      HeadIsNext(g, count, done, ready);
      assert ready == [id] + ready[1..];
      resolved := resolved + 1;
      count, ready := Release(g, id, Get(dependents, id), done, count, ready[1..]);
      done := done + [id];
      DoneFits(g, count, done, ready);
    }
    KahnResult(g, count, done);
  }

  lemma DoneFits(g: Graph, count: map<Id, nat>, done: seq<Id>, ready: seq<Id>)
    requires Settled(g, count, done, ready)
    ensures |done| <= |g.Keys|
  {
    assert forall i :: 0 <= i < |done| ==> (done + ready)[i] == done[i];
    assert forall i :: 0 <= i < |done| ==> done[i] in done + ready;
    DistinctFits(done, g.Keys);
  }

  /** What an empty queue proves: the counters left positive are exactly the components that reach a cycle. */
  lemma StuckReachCycles(g: Graph, count: map<Id, nat>, done: seq<Id>, stuck: set<Id>)
    requires Closed(g) && Topological(g, done) && Distinct(done)
    requires Counted(g, count, Elements(done))
    requires forall x :: x in done <==> x in g && count[x] == 0
    requires stuck == set x | x in g && count[x] > 0
    ensures forall x :: x in g ==> (x in stuck <==> ReachesCycle(g, x))
  {
    forall x | x in stuck ensures DependsWithin(g, stuck, x) {
      PendingZero(g[x].requires_, Elements(done));
      var d :| d in g[x].requires_ && d !in done;
      assert d in stuck;
    }
    forall x | x in g ensures x in stuck <==> ReachesCycle(g, x) {
      if x in stuck {
        WalkClosesCycle(g, stuck, [x]);
      } else {
        TopologicalIsAcyclic(g, done, x);
      }
    }
  }

  lemma KahnResult(g: Graph, count: map<Id, nat>, done: seq<Id>)
    requires Closed(g) && Topological(g, done)
    requires Counted(g, count, Elements(done)) && Settled(g, count, done, [])
    ensures CycleIds(g) == set x | x in g && count[x] > 0
    ensures |done| == |g.Keys| <==> CycleIds(g) == {}
  {
    assert done + [] == done;
    var stuck := set x | x in g && count[x] > 0;
    StuckReachCycles(g, count, done, stuck);
    assert CycleIds(g) == stuck;
    DistinctFills(done, g.Keys - stuck);
    assert |g.Keys - stuck| == |g.Keys| - |stuck|;
  }

  lemma {:induction false} DistinctFills(p: seq<Id>, s: set<Id>)
    requires Distinct(p) && forall x :: x in p <==> x in s
    ensures |p| == |s|
  {
    if p == [] {
      assert s == {};
    } else {
      assert p == [p[0]] + p[1..];
      DistinctFills(p[1..], s - {p[0]});
    }
  }

  /** `validate_dependency_graph`. */
  method ValidateDependencyGraph(g: Graph) returns (error: Option<ComponentError>)
    ensures error == GraphError(g)
    ensures error.None? <==> Closed(g) && Acyclic(g)
  {
    FirstDanglingSpec(g, Ascending(g.Keys));
    AcyclicMeansNoCycleIds(g);
    var dangling, counts, dependents := CountDependencies(g);
    if dangling.Some? {
      return Some(InvalidReference(dangling.value.0, dangling.value.1));
    }
    var resolved, count := Drain(g, counts, dependents);
    if resolved != |g| {
      return Some(DependencyCycle(Ascending(set x | x in count && count[x] > 0)));
    }
    error := None;
  }

  // ---- dependency closure, conflicts and status lines

  function Members(why: map<Id, set<Id>>, d: Id): set<Id> {
    if d in why then why[d] else {}
  }

  /** One pop of the closure worklist: enable what `id` requires. */
  method Follow(id: Id, reqs: seq<Id>, enabled0: set<Id>, why0: map<Id, set<Id>>, pending0: seq<Id>)
    returns (enabled: set<Id>, why: map<Id, set<Id>>, pending: seq<Id>)
    requires Distinct(pending0) && forall x :: x in pending0 ==> x in enabled0
    ensures enabled == enabled0 + set d | d in reqs
    ensures forall d :: Members(why, d) == Members(why0, d) + if d in reqs then {id} else {}
    ensures Distinct(pending)
    ensures forall x :: x in pending <==> x in pending0 || (x in enabled && x !in enabled0)
  {
    enabled, why, pending := enabled0, why0, pending0;
    for k := 0 to |reqs|
      invariant enabled == enabled0 + set d | d in reqs[..k]
      invariant forall d :: Members(why, d) == Members(why0, d) + if d in reqs[..k] then {id} else {}
      invariant Distinct(pending)
      invariant forall x :: x in pending <==> x in pending0 || (x in enabled && x !in enabled0)
    {
      var d := reqs[k];
      assert reqs[..k + 1] == reqs[..k] + [d];
      why := why[d := Members(why, d) + {id}];
      if d !in enabled {
        enabled := enabled + {d};
        pending := pending + [d];
      }
    }
    assert reqs[..|reqs|] == reqs;
  }

  ghost predicate Followed(g: Graph, seeds: set<Id>, bound: set<Id>, enabled: set<Id>, processed: set<Id>) {
    && processed <= enabled && seeds <= enabled <= bound <= g.Keys
    && (forall x, d :: x in processed && d in g[x].requires_ ==> d in enabled)
  }

  lemma FollowOneMore(g: Graph, seeds: set<Id>, bound: set<Id>, enabled: set<Id>, processed: set<Id>, id: Id)
    requires ClosedUnder(g, bound) && Followed(g, seeds, bound, enabled, processed) && id in enabled
    ensures Followed(g, seeds, bound, enabled + (set d | d in g[id].requires_), processed + {id})
  {
  }

  lemma DependentsOneMore(g: Graph, processed: set<Id>, id: Id)
    requires id in g
    ensures forall d :: DirectDependents(g, processed + {id}, d) == DirectDependents(g, processed, d) + if d in g[id].requires_ then {id} else {}
  {
  }

  /** The closure worklist stays within every closed set that holds the seeds, and ends closed itself. */
  method EnableAll(g: Graph, seeds: set<Id>, ghost bound: set<Id>) returns (enabled: set<Id>, why: map<Id, set<Id>>)
    requires seeds <= bound <= g.Keys && ClosedUnder(g, bound)
    ensures seeds <= enabled <= bound && ClosedUnder(g, enabled)
    ensures forall d :: Members(why, d) == DirectDependents(g, enabled, d)
  {
    enabled, why := seeds, map[];
    var pending := Ascending(seeds);
    ghost var processed: set<Id> := {};
    while pending != []
      invariant Distinct(pending)
      invariant forall x :: x in pending <==> x in enabled && x !in processed
      invariant Followed(g, seeds, bound, enabled, processed)
      invariant forall d :: Members(why, d) == DirectDependents(g, processed, d)
      decreases g.Keys - processed
    {
      var id, rest := pending[0], pending[1..];
      assert pending == [id] + rest;
      assert id !in rest;
      FollowOneMore(g, seeds, bound, enabled, processed, id);
      DependentsOneMore(g, processed, id);
      enabled, why, pending := Follow(id, g[id].requires_, enabled, why, rest);
      processed := processed + {id};
    }
    assert processed == enabled;
  }

  method EnableReachable(g: Graph, seeds: set<Id>) returns (enabled: set<Id>, why: map<Id, set<Id>>)
    requires Closed(g) && seeds <= g.Keys
    ensures enabled == Reachable(g, seeds)
    ensures forall d :: Members(why, d) == DirectDependents(g, enabled, d)
  {
    ReachableIsLeast(g, seeds, {});
    enabled, why := EnableAll(g, seeds, Reachable(g, seeds));
    ReachableWithin(g, seeds, enabled);
  }

  lemma SeedsAreKnown(components: seq<Component>, choices: map<Id, bool>)
    ensures Seeds(components, choices) <= ById(components).Keys
  {
    ByIdIsLast(components);
  }

  method FindConflict(g: Graph, enabled: set<Id>) returns (r: Option<(Id, Id)>)
    requires enabled <= g.Keys
    ensures r == FirstConflict(g, enabled, Ascending(enabled))
  {
    var keys := Ascending(enabled);
    assert keys[0..] == keys;
    for i := 0 to |keys|
      invariant FirstConflict(g, enabled, keys) == FirstConflict(g, enabled, keys[i..])
    {
      assert keys[i..][1..] == keys[i + 1..];
      var bad := FirstIn(g[keys[i]].conflicts, enabled);
      if bad.Some? { return Some((keys[i], bad.value)); }
    }
    r := None;
  }

  lemma ListedOneMore(components: seq<Component>, i: nat, x: Id)
    requires i < |components|
    ensures Listed(components, i + 1, x) <==> Listed(components, i, x) || components[i].id == x
  {
  }

  /** What is left of `enabledBy` after the first `i` entries have taken theirs. */
  ghost predicate Untaken(components: seq<Component>, i: nat, why: map<Id, set<Id>>, enabledBy: map<Id, set<Id>>)
    requires i <= |components|
  {
    forall d :: Members(why, d) == if Listed(components, i, d) then {} else Members(enabledBy, d)
  }

  lemma TakeOne(components: seq<Component>, i: nat, why: map<Id, set<Id>>, enabledBy: map<Id, set<Id>>)
    requires i < |components| && Untaken(components, i, why, enabledBy)
    ensures Untaken(components, i + 1, why - {components[i].id}, enabledBy)
  {
    var id := components[i].id;
    forall d ensures Members(why - {id}, d) == if Listed(components, i + 1, d) then {} else Members(enabledBy, d) {
      ListedOneMore(components, i, d);
      assert Members(why - {id}, d) == if d == id then {} else Members(why, d);
    }
  }

  method StatusLine(components: seq<Component>, i: nat, choices: map<Id, bool>, enabled: set<Id>, why: map<Id, set<Id>>, ghost enabledBy: map<Id, set<Id>>)
    returns (line: Status)
    requires i < |components| && Untaken(components, i, why, enabledBy)
    requires Members(enabledBy, components[i].id) == DirectDependents(ById(components), enabled, components[i].id)
    ensures line == StatusAt(components, choices, enabled, i)
  {
    var c := components[i];
    line := Status(c.id, c.required, Chosen(c, choices), c.id in enabled, Ascending(Members(why, c.id)));
  }

  method StatusLines(components: seq<Component>, choices: map<Id, bool>, enabled: set<Id>, enabledBy: map<Id, set<Id>>)
    returns (statuses: seq<Status>)
    requires forall d :: Members(enabledBy, d) == DirectDependents(ById(components), enabled, d)
    ensures |statuses| == |components|
    ensures forall i :: 0 <= i < |components| ==> statuses[i] == StatusAt(components, choices, enabled, i)
  {
    var why := enabledBy;
    statuses := [];
    for i := 0 to |components|
      invariant |statuses| == i
      invariant forall k :: 0 <= k < i ==> statuses[k] == StatusAt(components, choices, enabled, k)
      invariant Untaken(components, i, why, enabledBy)
    {
      var line := StatusLine(components, i, choices, enabled, why, enabledBy);
      TakeOne(components, i, why, enabledBy);
      why := why - {components[i].id};
      statuses := statuses + [line];
    }
  }

  /** `resolve_components`. */
  method ResolveComponents(components: seq<Component>, choices: map<Id, bool>) returns (r: Result<Resolution, ComponentError>)
    ensures r == Resolved(components, choices)
  {
    var g := ById(components);
    SeedsAreKnown(components, choices);
    var error := ValidateDependencyGraph(g);
    if error.Some? {
      return Failure(error.value);
    }
    var seeds := set c | c in components && Chosen(c, choices) :: c.id;
    var enabled, why := EnableReachable(g, seeds);
    var conflict := FindConflict(g, enabled);
    if conflict.Some? {
      return Failure(Conflict(conflict.value.0, conflict.value.1));
    }
    var statuses := StatusLines(components, choices, enabled, why);
    r := Success(Resolution(enabled, statuses));
    assert statuses == StatusList(components, choices, enabled);
  }

  // ---- what a resolution means

  predicate UniqueIds(components: seq<Component>) {
    forall i, j :: 0 <= i < j < |components| ==> components[i].id != components[j].id
  }

  lemma SuccessfulVerdict(g: Graph, seeds: set<Id>)
    requires Verdict(g, seeds).Success?
    ensures Closed(g) && Acyclic(g) && Verdict(g, seeds).value == Reachable(g, seeds)
  {
    FirstDanglingSpec(g, Ascending(g.Keys));
    AcyclicMeansNoCycleIds(g);
  }

  /** On success the graph is sound, and what is enabled is the least set that the choices force. */
  lemma ResolutionIsLeast(components: seq<Component>, choices: map<Id, bool>, s: set<Id>)
    requires Resolved(components, choices).Success?
    ensures
      var g, enabled := ById(components), Resolved(components, choices).value.enabled;
      && Closed(g) && Acyclic(g) && enabled <= g.Keys
      && Seeds(components, choices) <= enabled
      && ClosedUnder(g, enabled)
      && (Seeds(components, choices) <= s && ClosedUnder(g, s) ==> enabled <= s)
  {
    SeedsAreKnown(components, choices);
    SuccessfulVerdict(ById(components), Seeds(components, choices));
    ReachableIsLeast(ById(components), Seeds(components, choices), s);
  }

  /** On success no enabled component lists another enabled one, or itself, as a conflict. */
  lemma ResolutionHasNoConflict(components: seq<Component>, choices: map<Id, bool>, x: Id, y: Id)
    requires Resolved(components, choices).Success?
    requires x in Resolved(components, choices).value.enabled && y in Resolved(components, choices).value.enabled
    ensures x in ById(components) && y !in ById(components)[x].conflicts
  {
    var g, enabled := ById(components), Resolved(components, choices).value.enabled;
    FirstConflictSpec(g, enabled, Ascending(enabled));
  }

  lemma UnsuccessfulVerdict(g: Graph, seeds: set<Id>)
    ensures
      var v, enabled := Verdict(g, seeds), Reachable(g, seeds);
      && (v.Failure? && v.error.InvalidReference? <==> !Closed(g))
      && (v.Failure? && v.error.DependencyCycle? <==> Closed(g) && CycleIds(g) != {})
      && (v.Failure? && v.error.DependencyCycle? ==> v.error.components == Ascending(CycleIds(g)))
      && (v.Failure? && v.error.Conflict? <==> Closed(g) && CycleIds(g) == {} && FirstConflict(g, enabled, Ascending(enabled)).Some?)
  {
    FirstDanglingSpec(g, Ascending(g.Keys));
  }

  ghost predicate Clashing(g: Graph, enabled: set<Id>)
    requires enabled <= g.Keys
  {
    exists x, y :: x in enabled && y in enabled && y in g[x].conflicts
  }

  lemma ClashesAreFound(g: Graph, enabled: set<Id>)
    requires enabled <= g.Keys
    ensures FirstConflict(g, enabled, Ascending(enabled)).Some? <==> Clashing(g, enabled)
  {
    FirstConflictSpec(g, enabled, Ascending(enabled));
  }

  /** Each kind of failure names a real fault, and a success excludes all three. */
  lemma FailuresAreExact(components: seq<Component>, choices: map<Id, bool>)
    ensures
      var g, r := ById(components), Resolved(components, choices);
      && (r.Failure? && r.error.InvalidReference? <==> !Closed(g))
      && (r.Failure? && r.error.DependencyCycle? <==> Closed(g) && !Acyclic(g))
      && (r.Failure? && r.error.Conflict? <==>
            Closed(g) && Acyclic(g) && Clashing(g, Reachable(g, Seeds(components, choices))))
      && (r.Failure? && r.error.DependencyCycle? ==> forall x :: x in r.error.components <==> x in g && ReachesCycle(g, x))
  {
    var g := ById(components);
    var enabled := Reachable(g, Seeds(components, choices));
    UnsuccessfulVerdict(g, Seeds(components, choices));
    AcyclicMeansNoCycleIds(g);
    ClashesAreFound(g, enabled);
  }
}
