/**
 The task dependency graph of a workload and the check that it has no cycle.
 */
module TaskDag {
  import opened Digraph

  const MAX_TASKS := 16

  datatype Outcome = Ok | InvalidRequest | CyclicDependency

  /** Task `j` is named in the mask. */
  predicate Bit(mask: bv16, j: nat)
    requires j < MAX_TASKS
  {
    mask & ((1 as bv16) << j) != 0
  }

  datatype Dag = Dag(inDegrees: seq<nat>, deps: seq<bv16>, count: nat)

  /** An edge leads from each task to the tasks that depend on it. */
  ghost function DependencyEdges(deps: seq<bv16>, n: nat): Edges
    requires n <= MAX_TASKS && n <= |deps|
  {
    set u, v | 0 <= u < n && 0 <= v < n && Bit(deps[v], u) :: (u, v)
  }

  /** How many of the first `k` tasks are dependencies in `mask` and not in `done`. */
  ghost function Missing(mask: bv16, done: set<int>, k: nat): nat
    requires k <= MAX_TASKS
  {
    if k == 0 then 0 else Missing(mask, done, k - 1) + (if Bit(mask, k - 1) && k - 1 !in done then 1 else 0)
  }

  lemma {:induction false} MissingAfterDone(mask: bv16, done: set<int>, u: nat, k: nat)
    requires k <= MAX_TASKS && u < MAX_TASKS && u !in done
    ensures Missing(mask, done + {u}, k) + (if u < k && Bit(mask, u) then 1 else 0) == Missing(mask, done, k)
  {
    if k > 0 {
      MissingAfterDone(mask, done, u, k - 1);
    }
  }

  lemma {:induction false} MissingNone(mask: bv16, done: set<int>, k: nat)
    requires k <= MAX_TASKS
    ensures Missing(mask, done, k) == 0 <==> forall u :: 0 <= u < k && Bit(mask, u) ==> u in done
  {
    if k > 0 {
      MissingNone(mask, done, k - 1);
    }
  }

  ghost predicate WellBuilt(d: Dag) {
    && |d.inDegrees| == |d.deps| == MAX_TASKS && d.count <= MAX_TASKS
    && forall v :: 0 <= v < d.count ==> d.inDegrees[v] == Missing(d.deps[v], {}, d.count)
  }

  /** Builds the graph of the first `count` masks, counting each task's dependencies among them. */
  method FromTasks(masks: seq<bv16>, count: nat) returns (d: Dag)
    requires count <= MAX_TASKS && count <= |masks|
    ensures WellBuilt(d) && d.count == count
    ensures forall i :: 0 <= i < count ==> d.deps[i] == masks[i]
  {
    var inDegrees := new nat[MAX_TASKS](_ => 0);
    var deps := new bv16[MAX_TASKS](_ => 0);
    for i := 0 to count
      invariant forall v :: 0 <= v < i ==> deps[v] == masks[v] && inDegrees[v] == Missing(masks[v], {}, count)
    {
      deps[i] := masks[i];
      var degree := 0;
      for j := 0 to count
        invariant degree == Missing(masks[i], {}, j)
      {
        if Bit(masks[i], j) {
          degree := degree + 1;
        }
      }
      inDegrees[i] := degree;
    }
    d := Dag(inDegrees[..], deps[..], count);
  }

  // ---------------------------------------------------------------- the sort

  /** Within a round: tasks below `v` have been updated for `done` plus `u`, the others for `done` alone. */
  ghost predicate Round(d: Dag, degrees: seq<nat>, q: seq<int>, done: set<int>, u: int, v: int)
    requires WellBuilt(d)
  {
    && |degrees| == MAX_TASKS && Distinct(q) && 0 <= v
    && (forall x :: x in q ==> 0 <= x < d.count)
    && (forall x :: 0 <= x < v && x < d.count ==> degrees[x] == Missing(d.deps[x], done + {u}, d.count))
    && (forall x :: v <= x < d.count ==> degrees[x] == Missing(d.deps[x], done, d.count))
    && (forall x :: 0 <= x < d.count ==> (x in q <==> degrees[x] == 0))
    && Ordered(DependencyEdges(d.deps, d.count), q)
    && (forall x :: x in done + {u} ==> x in q)
  }

  /** Between rounds: the first `head` queue entries are processed, degrees count what is missing. */
  ghost predicate Sorting(d: Dag, degrees: seq<nat>, q: seq<int>, head: int)
    requires WellBuilt(d)
  {
    && 0 <= head <= |q| && |degrees| == MAX_TASKS && Distinct(q)
    && (forall x :: x in q ==> 0 <= x < d.count)
    && (forall x :: 0 <= x < d.count ==> degrees[x] == Missing(d.deps[x], Vertices(q[..head]), d.count))
    && (forall x :: 0 <= x < d.count ==> (x in q <==> degrees[x] == 0))
    && Ordered(DependencyEdges(d.deps, d.count), q)
  }

  lemma EdgeMeansBit(d: Dag, u: int, v: int)
    requires WellBuilt(d)
    ensures (u, v) in DependencyEdges(d.deps, d.count) <==> 0 <= u < d.count && 0 <= v < d.count && Bit(d.deps[v], u)
  {
  }

  /** A task whose missing count has dropped to zero may join the queue. */
  lemma JoinKeepsOrder(d: Dag, q: seq<int>, v: int, done: set<int>)
    requires WellBuilt(d) && 0 <= v < d.count && Ordered(DependencyEdges(d.deps, d.count), q)
    requires Missing(d.deps[v], done, d.count) == 0 && (forall x :: x in done ==> x in q)
    ensures Ordered(DependencyEdges(d.deps, d.count), q + [v])
  {
    var E, w := DependencyEdges(d.deps, d.count), q + [v];
    MissingNone(d.deps[v], done, d.count);
    forall i, u | 0 <= i < |w| && (u, w[i]) in E ensures u in w[..i] {
      if i < |q| {
        assert w[i] == q[i] && w[..i] == q[..i];
      } else {
        EdgeMeansBit(d, u, v);
        assert w[..i] == q;
      }
    }
  }

  lemma DryQueueDecides(d: Dag, degrees: seq<nat>, q: seq<int>)
    requires WellBuilt(d) && Sorting(d, degrees, q, |q|)
    ensures |q| == d.count <==> Acyclic(DependencyEdges(d.deps, d.count))
  {
    var E, n := DependencyEdges(d.deps, d.count), d.count;
    assert q[..|q|] == q;
    var rest := UpTo(n) - Vertices(q);
    forall v | 0 <= v < n && v !in q ensures HasPredecessor(E, rest, v) {
      MissingNone(d.deps[v], Vertices(q), n);
      var u :| 0 <= u < n && Bit(d.deps[v], u) && u !in Vertices(q);
      EdgeMeansBit(d, u, v);
      assert u in rest && (u, v) in E;
    }
    SortDecidesAcyclicity(E, n, q);
  }

  /** Queues every task without dependencies. */
  method FillQueue(d: Dag, degrees: array<nat>, queue: array<int>) returns (tail: nat)
    requires WellBuilt(d) && degrees.Length == queue.Length == MAX_TASKS && degrees as object != queue
    requires degrees[..] == d.inDegrees
    modifies queue
    ensures tail <= d.count && Sorting(d, degrees[..], queue[..tail], 0)
  {
    tail := 0;
    assert queue[..0] == [];
    for i := 0 to d.count
      invariant 0 <= tail <= i
      invariant Distinct(queue[..tail]) && Ordered(DependencyEdges(d.deps, d.count), queue[..tail])
      invariant forall x :: x in queue[..tail] <==> 0 <= x < i && degrees[x] == 0
    {
      if degrees[i] == 0 {
        ghost var q := queue[..tail];
        JoinKeepsOrder(d, q, i, {});
        queue[tail] := i;
        tail := tail + 1;
        assert queue[..tail] == q + [i];
      }
    }
    assert queue[..tail][..0] == [];
    assert Vertices([]) == {};
  }

  lemma RoundBegins(d: Dag, degrees: seq<nat>, q: seq<int>, head: int)
    requires WellBuilt(d) && Sorting(d, degrees, q, head) && head < |q|
    ensures Round(d, degrees, q, Vertices(q[..head]), q[head], 0)
    ensures 0 <= q[head] < d.count && q[head] !in Vertices(q[..head])
  {
    assert q[head] in q;
  }

  lemma RoundSkips(d: Dag, degrees: seq<nat>, q: seq<int>, done: set<int>, u: nat, v: int)
    requires WellBuilt(d) && 0 <= v < d.count && u < MAX_TASKS && u !in done && Round(d, degrees, q, done, u, v)
    requires !Bit(d.deps[v], u)
    ensures Round(d, degrees, q, done, u, v + 1)
  {
    MissingAfterDone(d.deps[v], done, u, d.count);
  }

  /** A task that waits for `u` has a positive degree; lowering it may let the task join the queue. */
  lemma RoundLowers(d: Dag, degrees: seq<nat>, q: seq<int>, done: set<int>, u: nat, v: int)
    requires WellBuilt(d) && 0 <= v < d.count && u < d.count && u !in done && Round(d, degrees, q, done, u, v)
    requires Bit(d.deps[v], u)
    ensures degrees[v] > 0
    ensures degrees[v] > 1 ==> Round(d, degrees[v := degrees[v] - 1], q, done, u, v + 1)
    ensures degrees[v] == 1 ==> |q| < d.count && Round(d, degrees[v := 0], q + [v], done, u, v + 1)
  {
    MissingAfterDone(d.deps[v], done, u, d.count);
    if degrees[v] == 1 {
      RoomInQueue(d, q, v);
      JoinKeepsOrder(d, q, v, done + {u});
    }
  }

  lemma RoundEnds(d: Dag, degrees: seq<nat>, q: seq<int>, head: int, done: set<int>, u: int)
    requires WellBuilt(d) && 0 <= head < |q| && Round(d, degrees, q, done, u, d.count)
    requires done == Vertices(q[..head]) && u == q[head]
    ensures Sorting(d, degrees, q, head + 1)
  {
    assert q[..head + 1] == q[..head] + [u];
    assert Vertices(q[..head + 1]) == done + {u};
  }

  /** Takes the task at `head` off the queue and lowers the degree of everything that waited for it. */
  method ProcessNext(d: Dag, degrees: array<nat>, queue: array<int>, head: nat, tail: nat) returns (newTail: nat)
    requires WellBuilt(d) && degrees.Length == queue.Length == MAX_TASKS && degrees as object != queue
    requires head < tail <= d.count && Sorting(d, degrees[..], queue[..tail], head)
    modifies degrees, queue
    ensures tail <= newTail <= d.count && Sorting(d, degrees[..], queue[..newTail], head + 1)
  {
    hide Round, Sorting, Bit;
    RoundBegins(d, degrees[..], queue[..tail], head);
    var u := queue[head];
    ghost var q0 := queue[..tail];
    ghost var done := Vertices(q0[..head]);
    newTail := tail;
    for v := 0 to d.count
      invariant tail <= newTail <= d.count && queue[..tail] == q0
      invariant Round(d, degrees[..], queue[..newTail], done, u, v)
    {
      ghost var q, g := queue[..newTail], degrees[..];
      if Bit(d.deps[v], u) {
        RoundLowers(d, g, q, done, u, v);
        if degrees[v] > 0 {
          degrees[v] := degrees[v] - 1;
          assert degrees[..] == g[v := g[v] - 1];
          if degrees[v] == 0 {
            queue[newTail] := v;
            newTail := newTail + 1;
            assert queue[..newTail] == q + [v];
          }
        }
      } else {
        RoundSkips(d, g, q, done, u, v);
      }
    }
    assert queue[..newTail][..head] == q0[..head];
    RoundEnds(d, degrees[..], queue[..newTail], head, done, u);
  }

  lemma RoomInQueue(d: Dag, q: seq<int>, v: int)
    requires Distinct(q) && 0 <= v < d.count && v !in q && forall x :: x in q ==> 0 <= x < d.count
    ensures |q| < d.count
  {
    FullListHasAll(q, d.count);
  }

  /** Accepts exactly the graphs of one to sixteen tasks without a cycle. */
  method VerifyAcyclic(d: Dag) returns (r: Outcome)
    requires d.count <= MAX_TASKS ==> WellBuilt(d)
    ensures r == Ok <==> 1 <= d.count <= MAX_TASKS && Acyclic(DependencyEdges(d.deps, d.count))
    ensures r == InvalidRequest <==> d.count == 0 || d.count > MAX_TASKS
  {
    if d.count == 0 || d.count > MAX_TASKS {
      return InvalidRequest;
    }
    var degrees := new nat[MAX_TASKS](i requires 0 <= i < MAX_TASKS => d.inDegrees[i]);
    var queue := new int[MAX_TASKS](_ => 0);
    assert degrees[..] == d.inDegrees;
    var tail := FillQueue(d, degrees, queue);
    var head, processed := 0, 0;
    while head < tail
      invariant 0 <= head <= tail <= d.count && processed == head
      invariant Sorting(d, degrees[..], queue[..tail], head)
      decreases d.count - head
    {
      tail := ProcessNext(d, degrees, queue, head, tail);
      head := head + 1;
      processed := processed + 1;
    }
    DryQueueDecides(d, degrees[..], queue[..tail]);
    return if processed == d.count then Ok else CyclicDependency;
  }
}
