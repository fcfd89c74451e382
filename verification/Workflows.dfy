/** Workflow step validation: named steps, closed dependencies, and Kahn's queue-driven
    cycle check. A cycle is defined by paths, independently of the queue. */
module Workflows {
  import opened Common

  datatype Step = Step(id: Id, title: string, dependsOn: seq<Id>)

  datatype Verdict =
    | Valid
    | MissingId
    | MissingTitle(id: Id)
    | DuplicateId(id: Id)
    | UnknownDependency(id: Id, dep: Id)
    | Cyclic

  // ---------- What a valid workflow is ----------

  ghost predicate NamedUpTo(steps: seq<Step>, n: nat)
    requires n <= |steps|
  {
    && (forall i | 0 <= i < n :: steps[i].id != NoId && steps[i].title != "")
    && (forall i, j | 0 <= i < j < n :: steps[i].id != steps[j].id)
  }

  ghost predicate Named(steps: seq<Step>) { NamedUpTo(steps, |steps|) }

  function IdsUpTo(steps: seq<Step>, n: nat): set<Id>
    requires n <= |steps|
  {
    set i | 0 <= i < n :: steps[i].id
  }

  ghost predicate ClosedUpTo(steps: seq<Step>, n: nat)
    requires n <= |steps|
  {
    forall i, d | 0 <= i < n && d in steps[i].dependsOn :: d in IdsUpTo(steps, |steps|)
  }

  ghost predicate Closed(steps: seq<Step>) { ClosedUpTo(steps, |steps|) }

  type Graph = map<Id, seq<Id>>

  /** The dependency lists by step id. */
  ghost function GraphOf(steps: seq<Step>): (g: Graph)
    requires Named(steps)
    ensures g.Keys == IdsUpTo(steps, |steps|)
    ensures forall i | 0 <= i < |steps| :: g[steps[i].id] == steps[i].dependsOn
  {
    map i: int | 0 <= i < |steps| :: steps[i].id := steps[i].dependsOn
  }

  ghost predicate ClosedGraph(g: Graph) {
    forall x, d | x in g && d in g[x] :: d in g
  }

  /** A walk along dependency edges that returns to its start. */
  ghost predicate IsCycle(g: Graph, path: seq<Id>) {
    |path| >= 2 && path[0] == path[|path| - 1] && IsWalk(g, path)
  }

  ghost predicate IsWalk(g: Graph, path: seq<Id>) {
    |path| >= 2 ==> path[0] in g && path[1] in g[path[0]] && IsWalk(g, path[1..])
  }

  /** Every element comes after all of its dependencies. */
  ghost predicate DepsFirst(g: Graph, order: seq<Id>) {
    order == [] ||
    var n := |order| - 1;
    DepsFirst(g, order[..n]) && order[n] in g && forall d | d in g[order[n]] :: d in order[..n]
  }

  ghost predicate TopologicalOrder(g: Graph, order: seq<Id>) {
    Distinct(order) && DepsFirst(g, order) && Elements(order) == g.Keys
  }

  // ---------- Cycles and orders exclude each other ----------

  lemma {:induction false} DependencyAt(g: Graph, order: seq<Id>, k: nat, d: Id)
    requires DepsFirst(g, order) && k < |order|
    ensures order[k] in g && (d in g[order[k]] ==> d in order[..k])
  {
    var n := |order| - 1;
    if k < n {
      DependencyAt(g, order[..n], k, d);
      assert order[..n][..k] == order[..k];
    }
  }

  lemma {:induction false} WalkGoesDown(g: Graph, order: seq<Id>, path: seq<Id>, i: nat, j: nat)
    requires TopologicalOrder(g, order) && IsWalk(g, path)
    requires i < |order| && |path| >= 1 && order[i] == path[0]
    requires j < |order| && order[j] == path[|path| - 1]
    ensures |path| >= 2 ==> j < i
    ensures |path| == 1 ==> j == i
    decreases |path|
  {
    if |path| >= 2 {
      DependencyAt(g, order, i, path[1]);
      var k :| 0 <= k < i && order[k] == path[1];
      WalkGoesDown(g, order, path[1..], k, j);
    }
  }

  lemma OrderExcludesCycle(g: Graph, order: seq<Id>, path: seq<Id>)
    requires TopologicalOrder(g, order)
    ensures !IsCycle(g, path)
  {
    if IsCycle(g, path) {
      assert path[0] in g && path[0] in order;
      var i :| 0 <= i < |order| && order[i] == path[0];
      WalkGoesDown(g, order, path, i, i);
    }
  }

  /** A nonempty set in which everybody waits for somebody of the set. */
  ghost predicate Stuck(g: Graph, s: set<Id>) {
    s != {} && s <= g.Keys && forall x {:trigger Blocked(g, s, x)} | x in s :: Blocked(g, s, x)
  }

  ghost predicate Blocked(g: Graph, s: set<Id>, x: Id)
    requires x in g
  {
    exists d :: d in g[x] && d in s
  }

  lemma {:induction false} LongWalk(g: Graph, s: set<Id>, x: Id, n: nat) returns (w: seq<Id>)
    requires Stuck(g, s) && x in s
    ensures |w| == n + 1 && w[0] == x && IsWalk(g, w) && forall y | y in w :: y in s
    decreases n
  {
    w := [x];
    if n > 0 {
      assert Blocked(g, s, x);
      var d :| d in g[x] && d in s;
      var v := LongWalk(g, s, d, n - 1);
      w := [x] + v;
      assert w[1..] == v;
    }
  }

  lemma {:induction false} WalkDrop(g: Graph, w: seq<Id>, i: nat)
    requires IsWalk(g, w) && i < |w|
    ensures IsWalk(g, w[i..])
    decreases i
  {
    if i == 0 {
      assert w[0..] == w;
    } else {
      WalkDrop(g, w[1..], i - 1);
      assert w[1..][i - 1..] == w[i..];
    }
  }

  lemma {:induction false} WalkTake(g: Graph, w: seq<Id>, j: nat)
    requires IsWalk(g, w) && 1 <= j <= |w|
    ensures IsWalk(g, w[..j])
    decreases j
  {
    if j >= 2 {
      WalkTake(g, w[1..], j - 1);
      assert w[..j][1..] == w[1..][..j - 1];
    }
  }

  lemma {:induction false} Pigeonhole(w: seq<Id>, s: set<Id>) returns (i: nat, j: nat)
    requires |w| > |s| && forall x | x in w :: x in s
    ensures i < j < |w| && w[i] == w[j]
    decreases |w|
  {
    var x := w[0];
    var tail := w[1..];
    assert x in s;
    if x in tail {
      i := 0;
      j :| 1 <= j < |w| && w[j] == x;
    } else {
      assert forall y | y in tail :: y in w;
      var a, b := Pigeonhole(tail, s - {x});
      i, j := a + 1, b + 1;
    }
  }

  lemma StuckHasCycle(g: Graph, s: set<Id>)
    requires Stuck(g, s)
    ensures exists path :: IsCycle(g, path)
  {
    var x :| x in s;
    var w := LongWalk(g, s, x, |s|);
    var i, j := Pigeonhole(w, s);
    WalkTake(g, w, j + 1);
    WalkDrop(g, w[..j + 1], i);
    assert IsCycle(g, w[..j + 1][i..]);
  }

  // ---------- Counting unfinished dependencies ----------

  ghost function Pending(ds: seq<Id>, done: set<Id>): nat {
    if ds == [] then 0 else Pending(ds[..|ds| - 1], done) + (if ds[|ds| - 1] in done then 0 else 1)
  }

  function Count(s: seq<Id>, x: Id): nat {
    if s == [] then 0 else Count(s[..|s| - 1], x) + (if s[|s| - 1] == x then 1 else 0)
  }

  lemma {:induction false} CountMember(s: seq<Id>, x: Id)
    ensures Count(s, x) > 0 <==> x in s
  {
    if s != [] {
      CountMember(s[..|s| - 1], x);
      assert s == s[..|s| - 1] + [s[|s| - 1]];
    }
  }

  lemma CountAppend(s: seq<Id>, y: Id, x: Id)
    ensures Count(s + [y], x) == Count(s, x) + (if y == x then 1 else 0)
  {
    assert (s + [y])[..|s|] == s;
  }

  lemma {:induction false} CountPrefix(s: seq<Id>, j: nat, x: Id)
    requires j <= |s|
    ensures Count(s[..j], x) <= Count(s, x)
  {
    if j < |s| {
      CountPrefix(s[..|s| - 1], j, x);
      assert s[..|s| - 1][..j] == s[..j];
    } else {
      assert s[..j] == s;
    }
  }

  lemma {:induction false} PendingStep(ds: seq<Id>, done: set<Id>, id: Id)
    requires id !in done
    ensures Pending(ds, done) == Pending(ds, done + {id}) + Count(ds, id)
  {
    if ds != [] { PendingStep(ds[..|ds| - 1], done, id); }
  }

  lemma {:induction false} PendingNone(ds: seq<Id>, done: set<Id>)
    ensures Pending(ds, done) == 0 <==> forall d | d in ds :: d in done
  {
    if ds != [] {
      PendingNone(ds[..|ds| - 1], done);
      assert ds == ds[..|ds| - 1] + [ds[|ds| - 1]];
    }
  }

  lemma {:induction false} PendingAll(ds: seq<Id>)
    ensures Pending(ds, {}) == |ds|
  {
    if ds != [] { PendingAll(ds[..|ds| - 1]); }
  }

  lemma SliceCounts(s: seq<Id>, j: nat, x: Id)
    requires j < |s|
    ensures Count(s[..j + 1], x) == Count(s[..j], x) + (if s[j] == x then 1 else 0)
    ensures Count(s, x) >= Count(s[..j + 1], x)
  {
    assert s[..j + 1][..j] == s[..j];
    CountPrefix(s, j + 1, x);
  }

  // ---------- The validator ----------

  method CheckNames(steps: seq<Step>) returns (v: Verdict, ids: set<Id>)
    ensures v == Valid || v.MissingId? || v.MissingTitle? || v.DuplicateId?
    ensures v == Valid <==> Named(steps)
    ensures v == Valid ==> ids == IdsUpTo(steps, |steps|)
    ensures v != Valid ==> IsFirstNameFault(steps, v)
  {
    ids := {};
    for n := 0 to |steps|
      invariant NamedUpTo(steps, n) && ids == IdsUpTo(steps, n)
    {
      if steps[n].id == NoId { assert FirstNameFault(steps, n) == MissingId; return MissingId, ids; }
      if steps[n].title == "" {
        assert FirstNameFault(steps, n) == MissingTitle(steps[n].id);
        return MissingTitle(steps[n].id), ids;
      }
      if steps[n].id in ids {
        assert FirstNameFault(steps, n) == DuplicateId(steps[n].id);
        return DuplicateId(steps[n].id), ids;
      }
      ids := ids + {steps[n].id};
    }
    v := Valid;
  }

  /** The fault reported for step n when everything before it is in order. */
  ghost function FirstNameFault(steps: seq<Step>, n: nat): Verdict
    requires n < |steps|
  {
    var s := steps[n];
    if s.id == NoId then MissingId
    else if s.title == "" then MissingTitle(s.id)
    else if s.id in IdsUpTo(steps, n) then DuplicateId(s.id)
    else Valid
  }

  ghost predicate IsFirstNameFault(steps: seq<Step>, v: Verdict) {
    exists i | 0 <= i < |steps| :: NamedUpTo(steps, i) && FirstNameFault(steps, i) == v
  }

  /** The first unknown dependency of the first step that has one. */
  ghost predicate IsFirstUnknown(steps: seq<Step>, v: Verdict) {
    exists i, k | 0 <= i < |steps| && 0 <= k < |steps[i].dependsOn| ::
      && v == UnknownDependency(steps[i].id, steps[i].dependsOn[k])
      && v.dep !in IdsUpTo(steps, |steps|) && ClosedUpTo(steps, i)
      && forall m | 0 <= m < k :: steps[i].dependsOn[m] in IdsUpTo(steps, |steps|)
  }

  method CheckClosed(steps: seq<Step>, ids: set<Id>) returns (v: Verdict)
    requires ids == IdsUpTo(steps, |steps|)
    ensures v == Valid || v.UnknownDependency?
    ensures v == Valid <==> Closed(steps)
    ensures v != Valid ==> IsFirstUnknown(steps, v)
  {
    for n := 0 to |steps|
      invariant ClosedUpTo(steps, n)
    {
      var ds := steps[n].dependsOn;
      for k := 0 to |ds|
        invariant forall m | 0 <= m < k :: ds[m] in ids
      {
        if ds[k] !in ids { return UnknownDependency(steps[n].id, ds[k]); }
      }
    }
    v := Valid;
  }

  /** The multiplicity of an edge: how often x lists d among its dependencies. */
  ghost predicate EdgesUpTo(g: Graph, adjacency: map<Id, seq<Id>>, linked: set<Id>) {
    && adjacency.Keys == g.Keys
    && forall d {:trigger RowUpTo(g, adjacency[d], linked, d)} | d in g :: RowUpTo(g, adjacency[d], linked, d)
  }

  ghost predicate RowUpTo(g: Graph, row: seq<Id>, linked: set<Id>, d: Id) {
    && (forall x | x in row :: x in g)
    && (forall x | x in g :: Count(row, x) == if x in linked then Count(g[x], d) else 0)
  }

  /** The list t is s with n more occurrences of id. */
  ghost predicate Gains(s: seq<Id>, t: seq<Id>, id: Id, n: nat) {
    forall x {:trigger Count(t, x)} :: Count(t, x) == Count(s, x) + if x == id then n else 0
  }

  /** Links one step below each of its dependencies, once per listed occurrence. */
  method LinkStep(id: Id, ds: seq<Id>, inDegree0: map<Id, int>, adjacency0: map<Id, seq<Id>>)
    returns (inDegree: map<Id, int>, adjacency: map<Id, seq<Id>>)
    requires id in inDegree0 && forall d | d in ds :: d in adjacency0
    ensures inDegree == inDegree0[id := inDegree0[id] + |ds|]
    ensures adjacency.Keys == adjacency0.Keys
    ensures forall d | d in adjacency ::
      Gains(adjacency0[d], adjacency[d], id, Count(ds, d))
  {
    inDegree, adjacency := inDegree0, adjacency0;
    for k := 0 to |ds|
      invariant inDegree == inDegree0[id := inDegree0[id] + k]
      invariant adjacency.Keys == adjacency0.Keys
      invariant forall d | d in adjacency ::
        Gains(adjacency0[d], adjacency[d], id, Count(ds[..k], d))
    {
      forall d | d in adjacency { SliceCounts(ds, k, d); }
      forall x { CountAppend(adjacency[ds[k]], id, x); }
      adjacency := adjacency[ds[k] := adjacency[ds[k]] + [id]];
      inDegree := inDegree[id := inDegree[id] + 1];
    }
    assert ds[..|ds|] == ds;
  }

  /** Every dependency of the linked ids is counted, nothing of the others. */
  ghost predicate LinkedUpTo(g: Graph, inDegree: map<Id, int>, adjacency: map<Id, seq<Id>>, linked: set<Id>) {
    && inDegree.Keys == g.Keys
    && (forall x | x in g :: inDegree[x] == (if x in linked then |g[x]| else 0))
    && EdgesUpTo(g, adjacency, linked)
  }

  method InitTables(steps: seq<Step>) returns (inDegree: map<Id, int>, adjacency: map<Id, seq<Id>>)
    ensures inDegree.Keys == IdsUpTo(steps, |steps|) && adjacency.Keys == IdsUpTo(steps, |steps|)
    ensures forall x | x in inDegree :: inDegree[x] == 0 && adjacency[x] == []
  {
    inDegree, adjacency := map[], map[];
    for n := 0 to |steps|
      invariant inDegree.Keys == IdsUpTo(steps, n) && adjacency.Keys == IdsUpTo(steps, n)
      invariant forall x | x in inDegree :: inDegree[x] == 0 && adjacency[x] == []
    {
      IdsStep(steps, n);
      inDegree, adjacency := inDegree[steps[n].id := 0], adjacency[steps[n].id := []];
    }
  }

  /** The graph of these steps, edges ending at steps. */
  ghost predicate Describes(g: Graph, steps: seq<Step>) {
    && g.Keys == IdsUpTo(steps, |steps|)
    && forall n {:trigger DescribesAt(g, steps, n)} | 0 <= n < |steps| :: DescribesAt(g, steps, n)
  }

  ghost predicate DescribesAt(g: Graph, steps: seq<Step>, n: nat)
    requires n < |steps|
  {
    steps[n].id in g && g[steps[n].id] == steps[n].dependsOn && forall d | d in steps[n].dependsOn :: d in g
  }

  lemma GraphDescribes(steps: seq<Step>)
    requires Named(steps) && Closed(steps)
    ensures Describes(GraphOf(steps), steps)
  {
  }

  method BuildGraph(steps: seq<Step>, ghost g: Graph) returns (inDegree: map<Id, int>, adjacency: map<Id, seq<Id>>)
    requires Named(steps) && Describes(g, steps)
    ensures LinkedUpTo(g, inDegree, adjacency, g.Keys)
  {
    inDegree, adjacency := InitTables(steps);
    NothingLinked(g, inDegree, adjacency);
    assert IdsUpTo(steps, 0) == {};
    for n := 0 to |steps|
      invariant LinkedUpTo(g, inDegree, adjacency, IdsUpTo(steps, n))
    {
      IdsStep(steps, n);
      assert DescribesAt(g, steps, n);
      ghost var linked, inDegree0, adjacency0 := IdsUpTo(steps, n), inDegree, adjacency;
      inDegree, adjacency := LinkStep(steps[n].id, steps[n].dependsOn, inDegree, adjacency);
      LinkKeepsEdges(g, inDegree0, adjacency0, adjacency, linked, steps[n].id);
    }
  }

  lemma NothingLinked(g: Graph, inDegree: map<Id, int>, adjacency: map<Id, seq<Id>>)
    requires inDegree.Keys == g.Keys && adjacency.Keys == g.Keys
    requires forall x | x in inDegree :: inDegree[x] == 0 && adjacency[x] == []
    ensures LinkedUpTo(g, inDegree, adjacency, {})
  {
    assert forall d | d in g :: RowUpTo(g, adjacency[d], {}, d);
  }

  lemma IdsStep(steps: seq<Step>, n: nat)
    requires n < |steps|
    ensures IdsUpTo(steps, n + 1) == IdsUpTo(steps, n) + {steps[n].id}
    ensures Named(steps) ==> steps[n].id !in IdsUpTo(steps, n)
  {
  }

  lemma LinkKeepsEdges(g: Graph, inDegree: map<Id, int>, a: map<Id, seq<Id>>, b: map<Id, seq<Id>>, linked: set<Id>,
      id: Id)
    requires LinkedUpTo(g, inDegree, a, linked) && id in g && id !in linked && b.Keys == a.Keys
    requires forall d | d in b :: Gains(a[d], b[d], id, Count(g[id], d))
    ensures LinkedUpTo(g, inDegree[id := inDegree[id] + |g[id]|], b, linked + {id})
  {
    forall d | d in g ensures RowUpTo(g, b[d], linked + {id}, d) {
      assert RowUpTo(g, a[d], linked, d);
      LinkKeepsRow(g, a[d], b[d], linked, id, d);
    }
  }

  lemma LinkKeepsRow(g: Graph, a: seq<Id>, b: seq<Id>, linked: set<Id>, id: Id, d: Id)
    requires id in g && id !in linked && RowUpTo(g, a, linked, d) && Gains(a, b, id, Count(g[id], d))
    ensures RowUpTo(g, b, linked + {id}, d)
  {
    forall x | x in b ensures x in g {
      CountMember(b, x);
      CountMember(a, x);
    }
  }

  /** Takes one edge from each listed successor and enqueues those left without any. */
  method Release(next: seq<Id>, inDegree0: map<Id, int>, queue0: seq<Id>)
    returns (inDegree: map<Id, int>, queue: seq<Id>)
    requires forall x | x in next :: x in inDegree0
    requires forall x | x in inDegree0 :: inDegree0[x] >= Count(next, x)
    requires Distinct(queue0) && forall x | x in queue0 :: x !in next
    ensures inDegree.Keys == inDegree0.Keys
    ensures forall x | x in inDegree :: inDegree[x] == inDegree0[x] - Count(next, x)
    ensures Distinct(queue)
    ensures forall x :: x in queue <==> x in queue0 || (x in next && inDegree[x] == 0)
  {
    inDegree, queue := inDegree0, queue0;
    for j := 0 to |next|
      invariant inDegree.Keys == inDegree0.Keys
      invariant forall x | x in inDegree :: inDegree[x] == inDegree0[x] - Count(next[..j], x)
      invariant Distinct(queue)
      invariant forall x :: x in queue <==> x in queue0 || (x in next[..j] && inDegree[x] == 0)
    {
      var y := next[j];
      forall x | x in inDegree { SliceCounts(next, j, x); }
      assert next[..j + 1] == next[..j] + [y];
      var newDeg := inDegree[y] - 1;
      assert newDeg >= 0 && y !in queue;
      inDegree := inDegree[y := newDeg];
      if newDeg == 0 { queue := queue + [y]; }
    }
    assert next[..|next|] == next;
  }

  /** Between iterations: `order` has been dequeued, `inDegree` counts the dependencies still
      missing, and the queue holds exactly the unblocked ids that were not dequeued yet. */
  ghost predicate KahnState(g: Graph, order: seq<Id>, queue: seq<Id>, inDegree: map<Id, int>) {
    && Distinct(order) && DepsFirst(g, order) && Distinct(queue)
    && inDegree.Keys == g.Keys
    && (forall x | x in g :: inDegree[x] == Pending(g[x], Elements(order)))
    && (forall x :: x in queue <==> x in g && x !in order && inDegree[x] == 0)
  }

  lemma ReadyIsNew(g: Graph, order: seq<Id>, id: Id, x: Id)
    requires DepsFirst(g, order) && id !in order && id in g && x in g && id in g[x]
    requires Pending(g[id], Elements(order)) == 0
    ensures x !in order && x != id
  {
    PendingNone(g[id], Elements(order));
    if x in order {
      var k :| 0 <= k < |order| && order[k] == x;
      DependencyAt(g, order, k, id);
    }
  }

  /** Who lists id among its dependencies, as often as it does. */
  ghost predicate Successors(g: Graph, id: Id, next: seq<Id>) {
    (forall x | x in g :: Count(next, x) == Count(g[x], id)) && forall x | x in next :: x in g
  }

  lemma AdjacencyIsSuccessors(g: Graph, adjacency: map<Id, seq<Id>>, id: Id)
    requires EdgesUpTo(g, adjacency, g.Keys) && id in g
    ensures Successors(g, id, adjacency[id])
  {
    assert RowUpTo(g, adjacency[id], g.Keys, id);
  }

  method DequeueOne(ghost g: Graph, ghost order: seq<Id>, queue0: seq<Id>, inDegree0: map<Id, int>, next: seq<Id>)
    returns (queue: seq<Id>, inDegree: map<Id, int>)
    requires KahnState(g, order, queue0, inDegree0) && |queue0| > 0
    requires Successors(g, queue0[0], next)
    ensures KahnState(g, order + [queue0[0]], queue, inDegree)
  {
    var id := queue0[0];
    assert id in queue0;
    var rest := SplitFirst(queue0);
    forall x | x in g
      ensures inDegree0[x] == Pending(g[x], Elements(order) + {id}) + Count(next, x)
      ensures x in next ==> x !in order && x != id && x !in rest
      ensures Count(next, x) == 0 <==> x !in next
    {
      PendingStep(g[x], Elements(order), id);
      CountMember(next, x);
      CountMember(g[x], id);
      if x in next { ReadyIsNew(g, order, id, x); }
    }
    inDegree, queue := Release(next, inDegree0, rest);
    PendingNone(g[id], Elements(order));
    Extend(g, order, id);
  }

  /** Kahn's loop: every dequeued id has all its dependencies dequeued before it; what is never
      dequeued is stuck. Each id is dequeued at most once, so the loop ends. */
  method Drain(ghost g: Graph, queue0: seq<Id>, inDegree0: map<Id, int>, adjacency: map<Id, seq<Id>>)
    returns (visited: nat, ghost order: seq<Id>)
    requires ClosedGraph(g) && EdgesUpTo(g, adjacency, g.Keys)
    requires KahnState(g, [], queue0, inDegree0)
    ensures visited == |order| && Distinct(order) && DepsFirst(g, order)
    ensures Elements(order) <= g.Keys
    ensures AllOrStuck(g, order)
  {
    var queue, inDegree := queue0, inDegree0;
    visited, order := 0, [];
    while |queue| > 0
      invariant Elements(order) <= g.Keys && visited == |order|
      invariant KahnState(g, order, queue, inDegree)
      decreases g.Keys - Elements(order)
    {
      var id := queue[0];
      HeadIsReady(g, order, queue, inDegree);
      AdjacencyIsSuccessors(g, adjacency, id);
      visited := visited + 1;
      queue, inDegree := DequeueOne(g, order, queue, inDegree, adjacency[id]);
      FewerLeft(g, order, id);
      order := order + [id];
    }
    BlockedAtEnd(g, order, queue, inDegree);
  }

  lemma HeadIsReady(g: Graph, order: seq<Id>, queue: seq<Id>, inDegree: map<Id, int>)
    requires KahnState(g, order, queue, inDegree) && |queue| > 0
    ensures queue[0] in g && queue[0] !in order
  {
    assert queue[0] in queue;
  }

  lemma FewerLeft(g: Graph, order: seq<Id>, id: Id)
    requires id in g && id !in order
    ensures Elements(order + [id]) == Elements(order) + {id}
    ensures g.Keys - Elements(order + [id]) < g.Keys - Elements(order)
  {
    assert id in g.Keys - Elements(order);
  }

  lemma BlockedAtEnd(g: Graph, order: seq<Id>, queue: seq<Id>, inDegree: map<Id, int>)
    requires ClosedGraph(g) && KahnState(g, order, queue, inDegree) && |queue| == 0
    requires Elements(order) <= g.Keys
    ensures AllOrStuck(g, order)
  {
    var left := g.Keys - Elements(order);
    forall x | x in left ensures Blocked(g, left, x) { PendingNone(g[x], Elements(order)); }
    if left == {} { assert forall x | x in g.Keys :: x in left || x in Elements(order); }
  }

  ghost predicate AllOrStuck(g: Graph, order: seq<Id>) {
    Elements(order) == g.Keys || Stuck(g, g.Keys - Elements(order))
  }

  function SplitFirst(queue: seq<Id>): (rest: seq<Id>)
    requires |queue| > 0 && Distinct(queue)
    ensures Distinct(rest) && forall x :: x in rest <==> x in queue && x != queue[0]
  {
    assert queue == [queue[0]] + queue[1..];
    queue[1..]
  }

  lemma Extend(g: Graph, order: seq<Id>, id: Id)
    requires Distinct(order) && DepsFirst(g, order) && id !in order
    requires id in g && forall d | d in g[id] :: d in order
    ensures Distinct(order + [id]) && DepsFirst(g, order + [id])
    ensures Elements(order + [id]) == Elements(order) + {id}
  {
    assert (order + [id])[..|order|] == order;
  }

  /** Accepts exactly the step lists whose ids are present, titled and unique, whose dependencies
      name steps, and whose dependency graph has no cycle. */
  method ValidateSteps(steps: seq<Step>) returns (v: Verdict)
    ensures v == Valid <==>
      Named(steps) && Closed(steps) && !exists path :: IsCycle(GraphOf(steps), path)
    ensures v == Valid ==> exists order :: TopologicalOrder(GraphOf(steps), order)
    ensures v == Cyclic <==>
      Named(steps) && Closed(steps) && exists path :: IsCycle(GraphOf(steps), path)
    ensures !Named(steps) ==> IsFirstNameFault(steps, v)
    ensures Named(steps) && !Closed(steps) ==> IsFirstUnknown(steps, v)
  {
    var ids;
    v, ids := CheckNames(steps);
    if v != Valid { return; }
    v := CheckClosed(steps, ids);
    if v != Valid { return; }
    ghost var g := GraphOf(steps);
    GraphDescribes(steps);
    var inDegree, adjacency := BuildGraph(steps, g);
    var queue := InitialQueue(steps, inDegree);
    GraphIsClosed(steps);
    InitialState(g, queue, inDegree);
    var visited;
    ghost var order;
    visited, order := Drain(g, queue, inDegree, adjacency);
    CardOfDistinct(order);
    OneIdPerStep(steps);
    if visited != |steps| {
      StuckHasCycle(g, g.Keys - Elements(order));
      return Cyclic;
    }
    SubsetOfSameSize(Elements(order), g.Keys);
    OrderExcludesCycles(g, order);
    assert TopologicalOrder(GraphOf(steps), order);
    v := Valid;
  }

  method InitialQueue(steps: seq<Step>, inDegree: map<Id, int>) returns (queue: seq<Id>)
    requires Named(steps) && inDegree.Keys == IdsUpTo(steps, |steps|)
    ensures Distinct(queue)
    ensures forall x :: x in queue <==> x in inDegree && inDegree[x] == 0
  {
    queue := [];
    for n := 0 to |steps|
      invariant Distinct(queue)
      invariant forall x :: x in queue <==> x in IdsUpTo(steps, n) && inDegree[x] == 0
    {
      IdsStep(steps, n);
      if inDegree[steps[n].id] == 0 { queue := queue + [steps[n].id]; }
    }
  }

  lemma InitialState(g: Graph, queue: seq<Id>, inDegree: map<Id, int>)
    requires Distinct(queue) && inDegree.Keys == g.Keys && forall x | x in g :: inDegree[x] == |g[x]|
    requires forall x :: x in queue <==> x in inDegree && inDegree[x] == 0
    ensures KahnState(g, [], queue, inDegree)
  {
    var none: seq<Id> := [];
    assert Elements(none) == {};
    forall x | x in g ensures inDegree[x] == Pending(g[x], Elements(none)) { PendingAll(g[x]); }
  }

  lemma GraphIsClosed(steps: seq<Step>)
    requires Named(steps) && Closed(steps)
    ensures ClosedGraph(GraphOf(steps))
  {
    var g := GraphOf(steps);
    forall x, d | x in g && d in g[x] ensures d in g {
      var i :| 0 <= i < |steps| && steps[i].id == x;
    }
  }

  lemma OneIdPerStep(steps: seq<Step>)
    requires Named(steps)
    ensures |GraphOf(steps).Keys| == |steps|
  {
    var ids := seq(|steps|, i requires 0 <= i < |steps| => steps[i].id);
    CardOfDistinct(ids);
    forall x | x in IdsUpTo(steps, |steps|) ensures x in ids {
      var i :| 0 <= i < |steps| && steps[i].id == x;
      assert ids[i] == x;
    }
    assert Elements(ids) == IdsUpTo(steps, |steps|);
  }

  lemma OrderExcludesCycles(g: Graph, order: seq<Id>)
    requires TopologicalOrder(g, order)
    ensures !exists path :: IsCycle(g, path)
  {
    forall path ensures !IsCycle(g, path) { OrderExcludesCycle(g, order, path); }
  }

  lemma SubsetOfSameSize(a: set<Id>, b: set<Id>)
    requires a <= b && |a| == |b|
    ensures a == b
  {
    assert |b - a| == |b| - |a|;
  }

  /** For closed graphs, being orderable and being free of cycles are the same thing. */
  lemma OrderableIffAcyclic(g: Graph)
    requires ClosedGraph(g)
    ensures (exists order :: TopologicalOrder(g, order)) <==> !exists path :: IsCycle(g, path)
  {
    if order :| TopologicalOrder(g, order) { OrderExcludesCycles(g, order); }
    if !exists path :: IsCycle(g, path) {
      var order := Peel(g, []);
    }
  }

  /** Extends a dependency-first prefix to a full order, one unblocked id at a time. */
  lemma {:induction false} Peel(g: Graph, prefix: seq<Id>) returns (order: seq<Id>)
    requires ClosedGraph(g) && !exists path :: IsCycle(g, path)
    requires Distinct(prefix) && DepsFirst(g, prefix) && forall x | x in prefix :: x in g
    ensures TopologicalOrder(g, order)
    decreases g.Keys - Elements(prefix)
  {
    var left := g.Keys - Elements(prefix);
    if left == {} {
      order := prefix;
      assert forall x | x in g :: x in left || x in prefix;
    } else {
      if Stuck(g, left) { StuckHasCycle(g, left); }
      var x :| x in left && !Blocked(g, left, x);
      Extend(g, prefix, x);
      order := Peel(g, prefix + [x]);
    }
  }
}
