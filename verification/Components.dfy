/** What a component graph is, and what resolving it means. */
module ComponentGraph {
  import opened Wrappers
  import opened Ordering

  type Id = string

  datatype Component = Component(id: Id, required: bool, defaultEnabled: bool, requires_: seq<Id>, conflicts: seq<Id>)

  /** Components by identifier; of two entries with one identifier the later wins. */
  type Graph = map<Id, Component>

  function ById(components: seq<Component>): Graph {
    if components == [] then map[]
    else
      var last := components[|components| - 1];
      ById(components[..|components| - 1])[last.id := last]
  }

  ghost predicate Closed(g: Graph) {
    forall x, d :: x in g && d in g[x].requires_ ==> d in g
  }

  /** A walk along `requires`, from a dependent towards its dependencies. */
  ghost predicate IsPath(g: Graph, p: seq<Id>) {
    && p != []
    && p[0] in g
    && (|p| == 1 || (p[1] in g[p[0]].requires_ && IsPath(g, p[1..])))
  }

  ghost predicate Connects(g: Graph, p: seq<Id>, from: Id, to: Id) {
    IsPath(g, p) && p[0] == from && p[|p| - 1] == to
  }

  ghost predicate OnCycle(g: Graph, x: Id) {
    exists p :: |p| >= 2 && Connects(g, p, x, x)
  }

  /** A cycle can be reached from `x`; this includes being on one. */
  ghost predicate ReachesCycle(g: Graph, x: Id) {
    exists p, y :: Connects(g, p, x, y) && OnCycle(g, y)
  }

  ghost predicate Acyclic(g: Graph) {
    forall x :: x in g ==> !OnCycle(g, x)
  }

  ghost function CycleIds(g: Graph): set<Id> {
    set x | x in g && ReachesCycle(g, x)
  }

  /** Everything a walk from a seed can reach. */
  ghost function Reachable(g: Graph, seeds: set<Id>): set<Id> {
    set x | x in g && exists p, s :: s in seeds && Connects(g, p, s, x)
  }

  ghost predicate ClosedUnder(g: Graph, s: set<Id>) {
    forall x, d :: x in s && x in g && d in g[x].requires_ ==> d in s
  }

  /** The local choice if there is one, else the provider's default. */
  predicate Chosen(c: Component, choices: map<Id, bool>) {
    c.required || (if c.id in choices then choices[c.id] else c.defaultEnabled)
  }

  ghost function Seeds(components: seq<Component>, choices: map<Id, bool>): set<Id> {
    set c | c in components && Chosen(c, choices) :: c.id
  }

  ghost function DirectDependents(g: Graph, enabled: set<Id>, d: Id): set<Id> {
    set x | x in enabled && x in g && d in g[x].requires_
  }

  datatype Status = Status(id: Id, required: bool, selected: bool, enabled: bool, enabledBy: seq<Id>)

  datatype Resolution = Resolution(enabled: set<Id>, statuses: seq<Status>)

  datatype ComponentError =
    | InvalidReference(component: Id, referenced: Id)
    | DependencyCycle(components: seq<Id>)
    | Conflict(left: Id, right: Id)

  /** The first member of `ids` that `good` rejects. */
  function FirstNotIn(ids: seq<Id>, good: set<Id>): Option<Id> {
    if ids == [] then None
    else if ids[0] !in good then Some(ids[0])
    else FirstNotIn(ids[1..], good)
  }

  /** The first dangling `requires` entry, scanning components in `keys` order. */
  ghost function FirstDangling(g: Graph, keys: seq<Id>): Option<(Id, Id)>
    requires forall k :: k in keys ==> k in g
  {
    if keys == [] then None
    else
      match FirstNotIn(g[keys[0]].requires_, g.Keys)
      case Some(d) => Some((keys[0], d))
      case None => FirstDangling(g, keys[1..])
  }

  function FirstIn(ids: seq<Id>, bad: set<Id>): Option<Id> {
    if ids == [] then None
    else if ids[0] in bad then Some(ids[0])
    else FirstIn(ids[1..], bad)
  }

  ghost function FirstConflict(g: Graph, enabled: set<Id>, keys: seq<Id>): Option<(Id, Id)>
    requires forall k :: k in keys ==> k in g
  {
    if keys == [] then None
    else
      match FirstIn(g[keys[0]].conflicts, enabled)
      case Some(d) => Some((keys[0], d))
      case None => FirstConflict(g, enabled, keys[1..])
  }

  /** Identifier `x` occurs before position `i`. */
  ghost predicate Listed(components: seq<Component>, i: int, x: Id)
    requires 0 <= i <= |components|
  {
    exists j :: 0 <= j < i && components[j].id == x
  }

  /** The status line of component `i`. Only the first entry of an identifier lists its dependents. */
  ghost function StatusAt(components: seq<Component>, choices: map<Id, bool>, enabled: set<Id>, i: int): Status
    requires 0 <= i < |components|
  {
    var c := components[i];
    Status(c.id, c.required, Chosen(c, choices), c.id in enabled,
           if Listed(components, i, c.id) then []
           else Ascending(DirectDependents(ById(components), enabled, c.id)))
  }

  /** The order in which the graph errors are looked for. */
  ghost function GraphError(g: Graph): Option<ComponentError> {
    match FirstDangling(g, Ascending(g.Keys))
    case Some(pair) => Some(InvalidReference(pair.0, pair.1))
    case None => if CycleIds(g) != {} then Some(DependencyCycle(Ascending(CycleIds(g)))) else None
  }

  /** Which components end up enabled, or why none do. */
  ghost function Verdict(g: Graph, seeds: set<Id>): Result<set<Id>, ComponentError> {
    match GraphError(g)
    case Some(error) => Failure(error)
    case None =>
      var enabled := Reachable(g, seeds);
      match FirstConflict(g, enabled, Ascending(enabled))
      case Some(pair) => Failure(Conflict(pair.0, pair.1))
      case None => Success(enabled)
  }

  ghost function StatusList(components: seq<Component>, choices: map<Id, bool>, enabled: set<Id>): seq<Status> {
    seq(|components|, i requires 0 <= i < |components| => StatusAt(components, choices, enabled, i))
  }

  /** The whole specification of resolution. */
  ghost function Resolved(components: seq<Component>, choices: map<Id, bool>): Result<Resolution, ComponentError> {
    match Verdict(ById(components), Seeds(components, choices))
    case Failure(error) => Failure(error)
    case Success(enabled) => Success(Resolution(enabled, StatusList(components, choices, enabled)))
  }

  // ---- facts about the graph

  lemma {:induction false} ByIdIsLast(components: seq<Component>)
    ensures forall x :: x in ById(components) <==> exists c :: c in components && c.id == x
    ensures forall x :: x in ById(components) ==> ById(components)[x] in components && ById(components)[x].id == x
  {
    if components != [] {
      var front := components[..|components| - 1];
      ByIdIsLast(front);
      assert components == front + [components[|components| - 1]];
    }
  }

  lemma {:induction false} FirstNotInSpec(ids: seq<Id>, good: set<Id>)
    ensures FirstNotIn(ids, good).None? <==> forall d :: d in ids ==> d in good
    ensures FirstNotIn(ids, good).Some? ==> FirstNotIn(ids, good).value in ids && FirstNotIn(ids, good).value !in good
  {
    if ids != [] {
      FirstNotInSpec(ids[1..], good);
      assert ids == [ids[0]] + ids[1..];
    }
  }

  lemma {:induction false} FirstInSpec(ids: seq<Id>, bad: set<Id>)
    ensures FirstIn(ids, bad).None? <==> forall d :: d in ids ==> d !in bad
    ensures FirstIn(ids, bad).Some? ==> FirstIn(ids, bad).value in ids && FirstIn(ids, bad).value in bad
  {
    if ids != [] {
      FirstInSpec(ids[1..], bad);
      assert ids == [ids[0]] + ids[1..];
    }
  }

  lemma {:induction false} FirstDanglingSpec(g: Graph, keys: seq<Id>)
    requires forall k :: k in keys ==> k in g
    ensures FirstDangling(g, keys).None? <==> forall x, d :: x in keys && d in g[x].requires_ ==> d in g
    ensures FirstDangling(g, keys).Some? ==>
      var pair := FirstDangling(g, keys).value;
      pair.0 in keys && pair.1 in g[pair.0].requires_ && pair.1 !in g
  {
    if keys != [] {
      FirstNotInSpec(g[keys[0]].requires_, g.Keys);
      FirstDanglingSpec(g, keys[1..]);
      assert keys == [keys[0]] + keys[1..];
    }
  }

  lemma {:induction false} FirstConflictSpec(g: Graph, enabled: set<Id>, keys: seq<Id>)
    requires forall k :: k in keys ==> k in g
    ensures FirstConflict(g, enabled, keys).None? <==> forall x, d :: x in keys && d in g[x].conflicts ==> d !in enabled
    ensures FirstConflict(g, enabled, keys).Some? ==>
      var pair := FirstConflict(g, enabled, keys).value;
      pair.0 in keys && pair.1 in g[pair.0].conflicts && pair.1 in enabled
  {
    if keys != [] {
      FirstInSpec(g[keys[0]].conflicts, enabled);
      FirstConflictSpec(g, enabled, keys[1..]);
      assert keys == [keys[0]] + keys[1..];
    }
  }

  lemma {:induction false} JoinPaths(g: Graph, p: seq<Id>, q: seq<Id>)
    requires IsPath(g, p) && IsPath(g, q) && p[|p| - 1] in g && q[0] in g[p[|p| - 1]].requires_
    ensures IsPath(g, p + q)
  {
    if |p| == 1 {
      assert (p + q)[1..] == q;
    } else {
      JoinPaths(g, p[1..], q);
      assert (p + q)[1..] == p[1..] + q;
    }
  }

  lemma {:induction false} CutPath(g: Graph, p: seq<Id>, k: nat)
    requires IsPath(g, p) && k < |p|
    ensures p[k] in g && IsPath(g, p[..k + 1]) && IsPath(g, p[k..])
  {
    if k == 0 {
      assert p[0..] == p;
    } else {
      CutPath(g, p[1..], k - 1);
      assert p[1..][..k] == p[..k + 1][1..];
      assert p[1..][k - 1..] == p[k..];
    }
  }

  lemma {:induction false} PathStaysIn(g: Graph, s: set<Id>, p: seq<Id>)
    requires IsPath(g, p) && p[0] in s && ClosedUnder(g, s)
    ensures p[|p| - 1] in s
  {
    if |p| > 1 { PathStaysIn(g, s, p[1..]); }
  }

  lemma ReachableHoldsSeeds(g: Graph, seeds: set<Id>)
    requires seeds <= g.Keys
    ensures seeds <= Reachable(g, seeds)
  {
    forall s | s in seeds ensures s in Reachable(g, seeds) {
      assert Connects(g, [s], s, s);
    }
  }

  lemma ReachableStep(g: Graph, seeds: set<Id>, x: Id, d: Id)
    requires x in Reachable(g, seeds) && d in g[x].requires_ && d in g
    ensures d in Reachable(g, seeds)
  {
    var p, s :| s in seeds && Connects(g, p, s, x);
    JoinPaths(g, p, [d]);
    assert Connects(g, p + [d], s, d);
  }

  lemma ReachableWithin(g: Graph, seeds: set<Id>, t: set<Id>)
    requires seeds <= t && ClosedUnder(g, t)
    ensures Reachable(g, seeds) <= t
  {
    forall x | x in Reachable(g, seeds) ensures x in t {
      var p, s :| s in seeds && Connects(g, p, s, x);
      PathStaysIn(g, t, p);
    }
  }

  /** Reachability is the least set that holds the seeds and is closed under `requires`. */
  lemma ReachableIsLeast(g: Graph, seeds: set<Id>, t: set<Id>)
    requires Closed(g) && seeds <= g.Keys
    ensures seeds <= Reachable(g, seeds) && ClosedUnder(g, Reachable(g, seeds))
    ensures seeds <= t && ClosedUnder(g, t) ==> Reachable(g, seeds) <= t
  {
    ReachableHoldsSeeds(g, seeds);
    forall x, d | x in Reachable(g, seeds) && d in g[x].requires_ ensures d in Reachable(g, seeds) {
      ReachableStep(g, seeds, x, d);
    }
    if seeds <= t && ClosedUnder(g, t) { ReachableWithin(g, seeds, t); }
  }

  // ---- cycles

  /** `order` lists components so that each one's dependencies come before it. */
  ghost predicate Topological(g: Graph, order: seq<Id>) {
    forall i, d :: 0 <= i < |order| && order[i] in g && d in g[order[i]].requires_ ==> d in order[..i]
  }

  lemma {:induction false} WalkGoesDown(g: Graph, order: seq<Id>, p: seq<Id>, i: nat) returns (k: nat)
    requires Topological(g, order) && IsPath(g, p) && i < |order| && p[0] == order[i]
    ensures k <= i && p[|p| - 1] == order[k]
    ensures |p| >= 2 ==> k < i
    decreases |p|
  {
    if |p| == 1 {
      k := i;
    } else {
      var j :| 0 <= j < i && order[j] == p[1];
      k := WalkGoesDown(g, order, p[1..], j);
    }
  }

  lemma {:induction false} DistinctFits(p: seq<Id>, s: set<Id>)
    requires Distinct(p) && forall i :: 0 <= i < |p| ==> p[i] in s
    ensures |p| <= |s|
  {
    if p != [] {
      DistinctFits(p[1..], s - {p[0]});
    }
  }

  /** A component listed in a topological order reaches no cycle. */
  lemma TopologicalIsAcyclic(g: Graph, order: seq<Id>, x: Id)
    requires Topological(g, order) && Distinct(order) && x in order
    ensures !ReachesCycle(g, x)
  {
    if ReachesCycle(g, x) {
      var p, y :| Connects(g, p, x, y) && OnCycle(g, y);
      var i :| 0 <= i < |order| && order[i] == x;
      var k := WalkGoesDown(g, order, p, i);
      var q :| |q| >= 2 && Connects(g, q, y, y);
      var m := WalkGoesDown(g, order, q, k);
    }
  }

  ghost predicate DependsWithin(g: Graph, s: set<Id>, x: Id)
    requires x in g
  {
    exists d :: d in g[x].requires_ && d in s
  }

  lemma CycleCloses(g: Graph, p: seq<Id>, d: Id)
    requires IsPath(g, p) && d in p && d in g && p[|p| - 1] in g && d in g[p[|p| - 1]].requires_
    ensures ReachesCycle(g, p[0])
  {
    var k :| 0 <= k < |p| && p[k] == d;
    CutPath(g, p, k);
    JoinPaths(g, p[k..], [d]);
    assert Connects(g, p[k..] + [d], d, d);
    assert Connects(g, p[..k + 1], p[0], d);
  }

  /** If every member of `s` has a dependency in `s`, walking inside `s` must close a cycle. */
  lemma {:induction false} WalkClosesCycle(g: Graph, s: set<Id>, p: seq<Id>)
    requires s <= g.Keys
    requires forall x :: x in s ==> DependsWithin(g, s, x)
    requires IsPath(g, p) && Distinct(p) && forall i :: 0 <= i < |p| ==> p[i] in s
    ensures ReachesCycle(g, p[0])
    decreases |s| - |p|
  {
    var last := p[|p| - 1];
    assert DependsWithin(g, s, last);
    var d :| d in g[last].requires_ && d in s;
    if d in p {
      CycleCloses(g, p, d);
    } else {
      JoinPaths(g, p, [d]);
      DistinctFits(p + [d], s);
      WalkClosesCycle(g, s, p + [d]);
    }
  }

  /** Acyclic exactly when no component reaches a cycle. */
  lemma AcyclicMeansNoCycleIds(g: Graph)
    ensures Acyclic(g) <==> CycleIds(g) == {}
  {
    if x :| x in g && OnCycle(g, x) {
      assert Connects(g, [x], x, x);
      assert x in CycleIds(g);
    }
    if x :| x in CycleIds(g) {
      var p, y :| Connects(g, p, x, y) && OnCycle(g, y);
    }
  }
}
