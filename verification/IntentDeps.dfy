/**
 The intent graph of one workspace slot: a 64-entry dependency table and the search that keeps
 it free of cycles.

 Creating a workspace in a reused slot resets the number of dependencies but leaves the old
 entries in the table, and the search reads the whole table.
 */
module IntentDeps {

  import opened Digraph

  const MAX_DEPS := 64

  datatype Dep = Dep(parent: int, child: int, valid: bool)

  datatype Outcome = Added | InvalidRequest | DimensionLimitExceeded

  /** The edges recorded by a stretch of the table. */
  ghost function EdgesOf(d: seq<Dep>): Edges {
    set i | 0 <= i < |d| && d[i].valid :: (d[i].parent, d[i].child)
  }

  /** Writing one entry adds its edge, and removes at most the edge it overwrites. */
  lemma WriteEntry(d: seq<Dep>, k: nat, e: Dep)
    requires k < |d| && e.valid
    ensures EdgesOf(d[k := e]) <= EdgesOf(d) + {(e.parent, e.child)}
    ensures EdgesOf(d[k := e][..k + 1]) == EdgesOf(d[..k]) + {(e.parent, e.child)}
  {
    var w := d[k := e];
    forall x | x in EdgesOf(w) ensures x in EdgesOf(d) + {(e.parent, e.child)} {
      var i :| 0 <= i < |w| && w[i].valid && (w[i].parent, w[i].child) == x;
      assert i != k ==> d[i] == w[i];
    }
    forall x | x in EdgesOf(d[..k]) ensures x in EdgesOf(w[..k + 1]) {
      var i :| 0 <= i < k && d[..k][i].valid && (d[..k][i].parent, d[..k][i].child) == x;
      assert w[..k + 1][i] == d[..k][i];
    }
    assert w[..k + 1][k] == e;
    forall x | x in EdgesOf(w[..k + 1]) ensures x in EdgesOf(d[..k]) + {(e.parent, e.child)} {
      var i :| 0 <= i < k + 1 && w[..k + 1][i].valid && (w[..k + 1][i].parent, w[..k + 1][i].child) == x;
      assert i != k ==> d[..k][i] == w[..k + 1][i];
    }
  }

  lemma PrefixEdges(d: seq<Dep>, k: nat)
    requires k <= |d|
    ensures EdgesOf(d[..k]) <= EdgesOf(d)
  {
  }

  /** What the search must answer. */
  ghost predicate Connected(E: Edges, start: int, target: int) {
    start == target || Reaches(E, start, target)
  }

  /** Adding edges that the graph already connects reaches nothing new. */
  lemma {:induction false} ShortcutsReachNothingNew(E: Edges, F: Edges, a: int, b: int, p: seq<int>)
    requires (forall x, y :: (x, y) in F ==> Reaches(E, x, y)) && WalkBetween(F, a, b, p)
    ensures Reaches(E, a, b)
    decreases |p|
  {
    var c := p[1];
    assert (a, c) in F;
    if |p| > 2 {
      var q := p[1..];
      assert forall i, j :: 0 <= i && j == i + 1 && j < |q| ==> q[i] == p[i + 1] && q[j] == p[j + 1] && (p[i + 1], p[j + 1]) in F;
      assert WalkBetween(F, c, b, q);
      ShortcutsReachNothingNew(E, F, c, b, q);
      ReachesTransitive(E, a, c, b);
    }
  }

  /**
   The whole table decides every edge as the workspace's own `k` entries would exactly when each entry, old
   ones included, joins nodes that the own entries already connect.
   */
  lemma OldEntriesAreHarmlessExactly(d: seq<Dep>, k: nat)
    requires k <= |d| && Acyclic(EdgesOf(d))
    ensures (forall p, c :: Connected(EdgesOf(d), c, p) <==> Connected(EdgesOf(d[..k]), c, p)) <==>
            (forall x, y :: (x, y) in EdgesOf(d) ==> Reaches(EdgesOf(d[..k]), x, y))
  {
    var F, E := EdgesOf(d), EdgesOf(d[..k]);
    PrefixEdges(d, k);
    if forall x, y :: (x, y) in F ==> Reaches(E, x, y) {
      forall p, c ensures Connected(F, c, p) <==> Connected(E, c, p) {
        if Reaches(F, c, p) {
          var w :| WalkBetween(F, c, p, w);
          ShortcutsReachNothingNew(E, F, c, p, w);
        }
        if Reaches(E, c, p) {
          FewerEdges(E, F, c, p);
        }
      }
    } else {
      var x, y :| (x, y) in F && !Reaches(E, x, y);
      EdgeReaches(F, x, y);
      assert Connected(F, x, y) && !Connected(E, x, y);
    }
  }

  /** No entry of the table leads from `start` to `target` when none of its entries starts such a walk. */
  lemma NoEntryLeads(d: seq<Dep>, start: int, target: int)
    requires forall i :: 0 <= i < |d| && d[i].valid && d[i].parent == start ==> !Connected(EdgesOf(d), d[i].child, target)
    ensures !Reaches(EdgesOf(d), start, target)
  {
    if Reaches(EdgesOf(d), start, target) {
      var c := FirstStep(EdgesOf(d), start, target);
    }
  }

  lemma EntryLeads(d: seq<Dep>, i: nat, target: int)
    requires i < |d| && d[i].valid && Connected(EdgesOf(d), d[i].child, target)
    ensures Reaches(EdgesOf(d), d[i].parent, target)
  {
    EdgeReaches(EdgesOf(d), d[i].parent, d[i].child);
    if d[i].child != target {
      ReachesTransitive(EdgesOf(d), d[i].parent, d[i].child, target);
    }
  }

  class IntentTable {
    const deps: array<Dep>
    var count: nat

    ghost predicate Valid()
      reads this, deps
    {
      deps.Length == MAX_DEPS && count <= MAX_DEPS && Acyclic(EdgesOf(deps[..]))
    }

    /** The edges of the workspace that holds the slot now. */
    ghost function Own(): Edges
      requires count <= deps.Length
      reads this, deps
    {
      EdgesOf(deps[..count])
    }

    constructor ()
      ensures Valid() && fresh(deps) && count == 0 && EdgesOf(deps[..]) == {}
    {
      deps := new Dep[MAX_DEPS](_ => Dep(0, 0, false));
      count := 0;
      new;
      assert EdgesOf(deps[..]) == {};
      forall v ensures !Reaches({}, v, v) {
        NoEdgesNoWalks(v, v);
      }
    }

    /** A new workspace takes the slot over. */
    method Reuse()
      requires Valid()
      modifies this
      ensures Valid() && Own() == {} && deps[..] == old(deps[..])
    {
      count := 0;
    }

    /** The recursive search; it ends because the recorded edges have no cycle. */
    method CheckReachability(start: int, target: int) returns (found: bool)
      requires Valid()
      ensures found <==> Connected(EdgesOf(deps[..]), start, target)
      decreases |ReachSet(EdgesOf(deps[..]), start)|
    {
      hide Acyclic, Reaches, ReachSet;
      ghost var d := deps[..];
      if start == target {
        return true;
      }
      for i := 0 to deps.Length
        invariant forall j :: 0 <= j < i && d[j].valid && d[j].parent == start ==> !Connected(EdgesOf(d), d[j].child, target)
      {
        assert d[i] == deps[i];
        if deps[i].valid && deps[i].parent == start {
          SuccessorReachesLess(EdgesOf(d), start, deps[i].child);
          var further := true;
          if deps[i].child != target {
            further := CheckReachability(deps[i].child, target);
          }
          if further {
            EntryLeads(d, i, target);
            return true;
          }
        }
      }
      NoEntryLeads(d, start, target);
      return false;
    }

    /** Adds an edge unless it would close a cycle through the table or the table is full. */
    method AddDep(parent: int, child: int) returns (r: Outcome)
      requires Valid()
      modifies this, deps
      ensures Valid()
      ensures r == InvalidRequest <==> Connected(old(EdgesOf(deps[..])), child, parent)
      ensures r == DimensionLimitExceeded <==> r != InvalidRequest && old(count) == MAX_DEPS
      ensures Own() == old(Own()) + if r == Added then {(parent, child)} else {}
      ensures EdgesOf(deps[..]) <= old(EdgesOf(deps[..])) + if r == Added then {(parent, child)} else {}
      ensures r != Added ==> deps[..] == old(deps[..]) && count == old(count)
    {
      hide Acyclic, Reaches, EdgesOf;
      var cycle := parent == child;
      if !cycle {
        cycle := CheckReachability(child, parent);
      }
      if cycle {
        return InvalidRequest;
      }
      if count >= MAX_DEPS {
        return DimensionLimitExceeded;
      }
      ghost var d := deps[..];
      ghost var e := Dep(parent, child, true);
      WriteEntry(d, count, e);
      SafeEdgeKeepsAcyclic(EdgesOf(d), EdgesOf(d[count := e]), parent, child);
      deps[count] := Dep(parent, child, true);
      assert deps[..] == d[count := e];
      count := count + 1;
      assert deps[..count] == d[count - 1 := e][..count];
      return Added;
    }

    /** However a slot is reused and extended, the workspace in it has an acyclic intent graph. */
    method Run(edges: seq<(int, int)>, reuse: set<nat>)
      requires Valid()
      modifies this, deps
      ensures Valid() && Acyclic(Own())
    {
      for i := 0 to |edges|
        invariant Valid()
      {
        if i in reuse {
          Reuse();
        }
        var _ := AddDep(edges[i].0, edges[i].1);
      }
      PrefixEdges(deps[..], count);
      forall v ensures !Reaches(Own(), v, v) {
        if Reaches(Own(), v, v) {
          FewerEdges(Own(), EdgesOf(deps[..]), v, v);
        }
      }
    }
  }

  /** Entries left by an earlier workspace refuse an edge that closes no cycle in the new workspace's graph. */
  method StaleEntriesRefuse() returns (t: IntentTable, r: Outcome)
    ensures t.Valid() && t.Own() == {} && r == InvalidRequest
    ensures Connected(EdgesOf(t.deps[..]), 1, 2) && !Connected(t.Own(), 1, 2)
  {
    t := new IntentTable();
    assert !Reaches({}, 2, 1) && !Reaches({}, 1, 2) by {
      NoEdgesNoWalks(2, 1);
      NoEdgesNoWalks(1, 2);
    }
    var _ := t.AddDep(1, 2);
    PrefixEdges(t.deps[..], t.count);
    assert (1, 2) in EdgesOf(t.deps[..]);
    t.Reuse();
    EdgeReaches(EdgesOf(t.deps[..]), 1, 2);
    r := t.AddDep(2, 1);
  }

  lemma NoEdgesNoWalks(a: int, b: int)
    ensures !Reaches({}, a, b)
  {
    if Reaches({}, a, b) {
      var c := FirstStep({}, a, b);
    }
  }
}
