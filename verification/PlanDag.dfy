/**
 Validation of an orchestration plan: distinct steps, capability bounds, known edge endpoints, no cycle.
 */
module PlanDag {
  import opened Digraph
  import opened Capacity

  const MAX_STEPS := 32
  const MAX_EDGES := 64

  datatype Verdict = Valid | InvalidPlan | DuplicateStep | MissingStep | NotPermitted | CyclicPlan

  datatype Step = Step(id: DistributedId, capabilities: bv64, approvalRequired: bool)

  datatype Edge = Edge(parent: DistributedId, child: DistributedId)

  // ---------------------------------------------------------------- steps by id

  /** The first step with this id, or the number of steps. */
  ghost function IndexOf(steps: seq<Step>, id: DistributedId): (k: nat)
    ensures k <= |steps| && (k < |steps| ==> steps[k].id == id)
    ensures forall j :: 0 <= j < k ==> steps[j].id != id
  {
    if steps == [] then 0 else if steps[0].id == id then 0 else 1 + IndexOf(steps[1..], id)
  }

  ghost predicate DistinctSteps(steps: seq<Step>) {
    forall i, j :: 0 <= i < j < |steps| ==> steps[i].id != steps[j].id
  }

  /** A step may exceed the system's capabilities only behind an approval gate. */
  predicate Permitted(s: Step, max: bv64) {
    s.capabilities & !max == 0 || s.approvalRequired
  }

  ghost function Parents(steps: seq<Step>, edges: seq<Edge>): (P: seq<int>)
    ensures |P| == |edges|
  {
    seq(|edges|, e requires 0 <= e < |edges| => IndexOf(steps, edges[e].parent))
  }

  ghost function Children(steps: seq<Step>, edges: seq<Edge>): (C: seq<int>)
    ensures |C| == |edges|
  {
    seq(|edges|, e requires 0 <= e < |edges| => IndexOf(steps, edges[e].child))
  }

  /** The edges between step positions. */
  ghost function PlanEdges(P: seq<int>, C: seq<int>): Edges
    requires |P| == |C|
  {
    set e | 0 <= e < |P| :: (P[e], C[e])
  }

  // ---------------------------------------------------------------- counting open edges

  /**
   Edges into `v` among the first `m` that are not yet discounted: their parent is not done, nor is it `u` with
   the edge already scanned.
   */
  ghost function Open(P: seq<int>, C: seq<int>, v: int, done: set<int>, u: int, scanned: nat, m: nat): nat
    requires m <= |P| == |C|
  {
    if m == 0 then 0
    else
      Open(P, C, v, done, u, scanned, m - 1) +
      (if C[m - 1] == v && P[m - 1] !in done && !(P[m - 1] == u && m - 1 < scanned) then 1 else 0)
  }

  /** Scanning one more edge discounts it exactly when it leads from `u` to `v`. */
  lemma {:induction false} OpenAfterScan(P: seq<int>, C: seq<int>, v: int, done: set<int>, u: int, k: nat, m: nat)
    requires m <= |P| == |C| && k < |P| && u !in done
    ensures Open(P, C, v, done, u, k + 1, m) + (if k < m && P[k] == u && C[k] == v then 1 else 0) == Open(P, C, v, done, u, k, m)
  {
    if m > 0 {
      OpenAfterScan(P, C, v, done, u, k, m - 1);
    }
  }

  /** When all edges are scanned, `u` is as good as done; and nothing scanned means no discount. */
  lemma {:induction false} OpenAtEnds(P: seq<int>, C: seq<int>, v: int, done: set<int>, u: int, w: int, m: nat)
    requires m <= |P| == |C|
    ensures Open(P, C, v, done, u, |P|, m) == Open(P, C, v, done + {u}, w, 0, m)
    ensures Open(P, C, v, done, u, 0, m) == Open(P, C, v, done, w, 0, m)
  {
    if m > 0 {
      OpenAtEnds(P, C, v, done, u, w, m - 1);
    }
  }

  lemma {:induction false} NoneOpen(P: seq<int>, C: seq<int>, v: int, done: set<int>, u: int, k: nat, m: nat)
    requires m <= |P| == |C|
    ensures Open(P, C, v, done, u, k, m) == 0 <==>
      forall e :: 0 <= e < m && C[e] == v ==> P[e] in done || (P[e] == u && e < k)
  {
    if m > 0 {
      NoneOpen(P, C, v, done, u, k, m - 1);
    }
  }

  // ---------------------------------------------------------------- the sort

  /** Degrees count open edges; the queue holds exactly the steps without any, each after its predecessors. */
  ghost predicate Round(P: seq<int>, C: seq<int>, n: nat, degrees: seq<nat>, q: seq<int>, done: set<int>, u: int, k: nat) {
    && |P| == |C| && k <= |P| && n <= |degrees| && Distinct(q)
    && (forall x :: x in q ==> 0 <= x < n)
    && (forall v :: 0 <= v < n ==> degrees[v] == Open(P, C, v, done, u, k, |P|))
    && (forall v :: 0 <= v < n ==> (v in q <==> degrees[v] == 0))
    && Ordered(PlanEdges(P, C), q)
    && (forall x :: x in done + {u} ==> x in q)
  }

  ghost predicate Sorting(P: seq<int>, C: seq<int>, n: nat, degrees: seq<nat>, q: seq<int>, head: int) {
    && |P| == |C| && 0 <= head <= |q| && n <= |degrees| && Distinct(q)
    && (forall x :: x in q ==> 0 <= x < n)
    && (forall v :: 0 <= v < n ==> degrees[v] == Open(P, C, v, Vertices(q[..head]), -1, 0, |P|))
    && (forall v :: 0 <= v < n ==> (v in q <==> degrees[v] == 0))
    && Ordered(PlanEdges(P, C), q)
  }

  lemma JoinKeepsOrder(P: seq<int>, C: seq<int>, q: seq<int>, v: int, done: set<int>, u: int, k: nat)
    requires |P| == |C| && Ordered(PlanEdges(P, C), q) && Open(P, C, v, done, u, k, |P|) == 0
    requires forall x :: x in done || (x == u && k > 0) ==> x in q
    ensures Ordered(PlanEdges(P, C), q + [v])
  {
    var E, w := PlanEdges(P, C), q + [v];
    NoneOpen(P, C, v, done, u, k, |P|);
    forall i, x | 0 <= i < |w| && (x, w[i]) in E ensures x in w[..i] {
      if i < |q| {
        assert w[i] == q[i] && w[..i] == q[..i];
      } else {
        var e :| 0 <= e < |P| && (P[e], C[e]) == (x, v);
        assert w[..i] == q;
      }
    }
  }

  lemma RoundBegins(P: seq<int>, C: seq<int>, n: nat, degrees: seq<nat>, q: seq<int>, head: int)
    requires Sorting(P, C, n, degrees, q, head) && head < |q|
    ensures Round(P, C, n, degrees, q, Vertices(q[..head]), q[head], 0)
    ensures 0 <= q[head] < n && q[head] !in Vertices(q[..head])
  {
    assert q[head] in q;
    forall v | 0 <= v < n ensures degrees[v] == Open(P, C, v, Vertices(q[..head]), q[head], 0, |P|) {
      OpenAtEnds(P, C, v, Vertices(q[..head]), q[head], -1, |P|);
    }
  }

  lemma RoundSkips(P: seq<int>, C: seq<int>, n: nat, degrees: seq<nat>, q: seq<int>, done: set<int>, u: int, k: nat)
    requires Round(P, C, n, degrees, q, done, u, k) && k < |P| && u !in done && P[k] != u
    ensures Round(P, C, n, degrees, q, done, u, k + 1)
  {
    forall v | 0 <= v < n ensures degrees[v] == Open(P, C, v, done, u, k + 1, |P|) {
      OpenAfterScan(P, C, v, done, u, k, |P|);
    }
  }

  /** An edge out of `u` leads to a step with a positive degree; lowering it may let the step join the queue. */
  lemma RoundLowers(P: seq<int>, C: seq<int>, n: nat, degrees: seq<nat>, q: seq<int>, done: set<int>, u: int, k: nat)
    requires Round(P, C, n, degrees, q, done, u, k) && k < |P| && u !in done && P[k] == u && 0 <= C[k] < n
    ensures var v := C[k];
      && degrees[v] > 0
      && (degrees[v] > 1 ==> Round(P, C, n, degrees[v := degrees[v] - 1], q, done, u, k + 1))
      && (degrees[v] == 1 ==> |q| < n && Round(P, C, n, degrees[v := 0], q + [v], done, u, k + 1))
  {
    var v := C[k];
    forall x | 0 <= x < n
      ensures Open(P, C, x, done, u, k, |P|) == Open(P, C, x, done, u, k + 1, |P|) + (if x == v then 1 else 0)
    {
      OpenAfterScan(P, C, x, done, u, k, |P|);
    }
    if degrees[v] == 1 {
      FullListHasAll(q, n);
      JoinKeepsOrder(P, C, q, v, done, u, k + 1);
    }
  }

  lemma RoundEnds(P: seq<int>, C: seq<int>, n: nat, degrees: seq<nat>, q: seq<int>, head: int, done: set<int>, u: int)
    requires Round(P, C, n, degrees, q, done, u, |P|) && 0 <= head < |q| && done == Vertices(q[..head]) && u == q[head]
    ensures Sorting(P, C, n, degrees, q, head + 1)
  {
    assert q[..head + 1] == q[..head] + [u];
    assert Vertices(q[..head + 1]) == done + {u};
    forall v | 0 <= v < n ensures degrees[v] == Open(P, C, v, done + {u}, -1, 0, |P|) {
      OpenAtEnds(P, C, v, done, u, -1, |P|);
    }
  }

  ghost predicate KnownEndpoints(P: seq<int>, C: seq<int>, n: nat)
    requires |P| == |C|
  {
    forall e :: 0 <= e < |P| ==> 0 <= P[e] < n && 0 <= C[e] < n
  }

  /** A dry queue lists every step exactly when all parents are known and there is no cycle. */
  lemma DryQueueDecides(P: seq<int>, C: seq<int>, n: nat, degrees: seq<nat>, q: seq<int>)
    requires Sorting(P, C, n, degrees, q, |q|) && (forall e :: 0 <= e < |C| ==> 0 <= C[e] < n)
    requires forall e :: 0 <= e < |P| ==> 0 <= P[e] <= n
    ensures |q| == n <==> KnownEndpoints(P, C, n) && Acyclic(PlanEdges(P, C))
  {
    var E := PlanEdges(P, C);
    assert q[..|q|] == q;
    var rest := UpTo(n) - Vertices(q);
    if KnownEndpoints(P, C, n) {
      forall v | 0 <= v < n && v !in q ensures HasPredecessor(E, rest, v) {
        NoneOpen(P, C, v, Vertices(q), -1, 0, |P|);
        var e :| 0 <= e < |P| && C[e] == v && P[e] !in Vertices(q);
        assert (P[e], C[e]) in E && P[e] in rest;
      }
      SortDecidesAcyclicity(E, n, q);
    } else {
      var e :| 0 <= e < |P| && !(0 <= P[e] < n);
      NoneOpen(P, C, C[e], Vertices(q), -1, 0, |P|);
      FullListHasAll(q, n);
    }
  }

  // ---------------------------------------------------------------- the validator

  method FindStep(steps: seq<Step>, id: DistributedId) returns (k: nat)
    ensures k == IndexOf(steps, id)
  {
    k := 0;
    while k < |steps|
      invariant k <= |steps| && forall j :: 0 <= j < k ==> steps[j].id != id
    {
      if steps[k].id == id {
        return;
      }
      k := k + 1;
    }
  }

  method CheckSteps(steps: seq<Step>, max: bv64) returns (r: Verdict)
    ensures r == Valid <==> DistinctSteps(steps) && forall i :: 0 <= i < |steps| ==> Permitted(steps[i], max)
    ensures r == Valid || r == DuplicateStep || r == NotPermitted
  {
    for i := 0 to |steps|
      invariant forall x, y :: 0 <= x < i && x < y < |steps| ==> steps[x].id != steps[y].id
      invariant forall x :: 0 <= x < i ==> Permitted(steps[x], max)
    {
      for j := i + 1 to |steps|
        invariant forall y :: i < y < j ==> steps[i].id != steps[y].id
      {
        if steps[i].id == steps[j].id {
          return DuplicateStep;
        }
      }
      if !Permitted(steps[i], max) {
        return NotPermitted;
      }
    }
    return Valid;
  }

  /** Counts the edges into each step; fails on an edge whose child is unknown. */
  method CountDegrees(steps: seq<Step>, edges: seq<Edge>, degrees: array<nat>) returns (ok: bool)
    requires |steps| <= degrees.Length && forall v :: 0 <= v < degrees.Length ==> degrees[v] == 0
    modifies degrees
    ensures ok <==> forall e :: 0 <= e < |edges| ==> Children(steps, edges)[e] < |steps|
    ensures ok ==> forall v :: 0 <= v < |steps| ==>
      degrees[v] == Open(Parents(steps, edges), Children(steps, edges), v, {}, -1, 0, |edges|)
  {
    ghost var P, C := Parents(steps, edges), Children(steps, edges);
    for e := 0 to |edges|
      invariant forall j :: 0 <= j < e ==> C[j] < |steps|
      invariant forall v :: 0 <= v < |steps| ==> degrees[v] == Open(P, C, v, {}, -1, 0, e)
    {
      var s := FindStep(steps, edges[e].child);
      assert s == C[e];
      if s == |steps| {
        return false;
      }
      degrees[s] := degrees[s] + 1;
    }
    return true;
  }

  method FillQueue(ghost P: seq<int>, ghost C: seq<int>, n: nat, degrees: array<nat>, queue: array<int>) returns (tail: nat)
    requires |P| == |C| && n <= degrees.Length && n <= queue.Length && degrees as object != queue
    requires forall v :: 0 <= v < n ==> degrees[v] == Open(P, C, v, {}, -1, 0, |P|)
    modifies queue
    ensures tail <= n && Sorting(P, C, n, degrees[..], queue[..tail], 0)
  {
    tail := 0;
    assert queue[..0] == [];
    for i := 0 to n
      invariant 0 <= tail <= i
      invariant Distinct(queue[..tail]) && Ordered(PlanEdges(P, C), queue[..tail])
      invariant forall x :: x in queue[..tail] <==> 0 <= x < i && degrees[x] == 0
    {
      if degrees[i] == 0 {
        ghost var q := queue[..tail];
        JoinKeepsOrder(P, C, q, i, {}, -1, 0);
        queue[tail] := i;
        tail := tail + 1;
        assert queue[..tail] == q + [i];
      }
    }
    assert queue[..tail][..0] == [];
    assert Vertices([]) == {};
  }

  method ProcessNext(steps: seq<Step>, edges: seq<Edge>, degrees: array<nat>, queue: array<int>, head: nat, tail: nat)
    returns (newTail: nat)
    requires |steps| <= degrees.Length && |steps| <= queue.Length && degrees as object != queue && DistinctSteps(steps)
    requires head < tail <= |steps|
    requires forall e :: 0 <= e < |edges| ==> Children(steps, edges)[e] < |steps|
    requires Sorting(Parents(steps, edges), Children(steps, edges), |steps|, degrees[..], queue[..tail], head)
    modifies degrees, queue
    ensures tail <= newTail <= |steps|
    ensures Sorting(Parents(steps, edges), Children(steps, edges), |steps|, degrees[..], queue[..newTail], head + 1)
  {
    hide Round, Sorting;
    ghost var P, C, n := Parents(steps, edges), Children(steps, edges), |steps|;
    RoundBegins(P, C, n, degrees[..], queue[..tail], head);
    var u := queue[head];
    ghost var q0 := queue[..tail];
    ghost var done := Vertices(q0[..head]);
    newTail := tail;
    for e := 0 to |edges|
      invariant tail <= newTail <= n && queue[..tail] == q0
      invariant Round(P, C, n, degrees[..], queue[..newTail], done, u, e)
    {
      ghost var q, g := queue[..newTail], degrees[..];
      ParentIs(steps, edges, e, u);
      if edges[e].parent == steps[u].id {
        RoundLowers(P, C, n, g, q, done, u, e);
        var v := FindStep(steps, edges[e].child);
        assert v == C[e];
        degrees[v] := degrees[v] - 1;
        assert degrees[..] == g[v := g[v] - 1];
        if degrees[v] == 0 {
          queue[newTail] := v;
          newTail := newTail + 1;
          assert queue[..newTail] == q + [v];
        }
      } else {
        RoundSkips(P, C, n, g, q, done, u, e);
      }
    }
    assert queue[..newTail][..head] == q0[..head];
    RoundEnds(P, C, n, degrees[..], queue[..newTail], head, done, u);
  }

  /** With distinct ids, an edge's parent is step `u` exactly when it carries its id. */
  lemma ParentIs(steps: seq<Step>, edges: seq<Edge>, e: int, u: int)
    requires DistinctSteps(steps) && 0 <= e < |edges| && 0 <= u < |steps|
    ensures edges[e].parent == steps[u].id <==> Parents(steps, edges)[e] == u
  {
  }

  /** What makes a plan valid. */
  ghost predicate ValidPlan(steps: seq<Step>, edges: seq<Edge>, max: bv64) {
    && |steps| <= MAX_STEPS && |edges| <= MAX_EDGES && DistinctSteps(steps)
    && (forall i :: 0 <= i < |steps| ==> Permitted(steps[i], max))
    && KnownEndpoints(Parents(steps, edges), Children(steps, edges), |steps|)
    && Acyclic(PlanEdges(Parents(steps, edges), Children(steps, edges)))
  }

  /** Accepts exactly the valid plans. */
  method Validate(steps: seq<Step>, edges: seq<Edge>, max: bv64) returns (r: Verdict)
    ensures r == Valid <==> ValidPlan(steps, edges, max)
  {
    hide Sorting, Acyclic, Permitted;
    if |steps| > MAX_STEPS || |edges| > MAX_EDGES {
      return InvalidPlan;
    }
    var check := CheckSteps(steps, max);
    if check != Valid {
      return check;
    }
    var degrees := new nat[MAX_STEPS](_ => 0);
    var queue := new int[MAX_STEPS](_ => 0);
    ghost var P, C, n := Parents(steps, edges), Children(steps, edges), |steps|;
    var known := CountDegrees(steps, edges, degrees);
    if !known {
      return MissingStep;
    }
    var tail := FillQueue(P, C, |steps|, degrees, queue);
    var head, visited := 0, 0;
    while head < tail
      invariant 0 <= head <= tail <= |steps| && visited == head
      invariant Sorting(P, C, n, degrees[..], queue[..tail], head)
      decreases |steps| - head
    {
      tail := ProcessNext(steps, edges, degrees, queue, head, tail);
      head := head + 1;
      visited := visited + 1;
    }
    DryQueueDecides(P, C, n, degrees[..], queue[..tail]);
    return if visited != |steps| then CyclicPlan else Valid;
  }
}
