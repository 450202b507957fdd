/**
 The resource topology: nodes with up to four directed links, and the depth-first count of the
 nodes reachable from one of them. Links may form cycles.
 */
module ResourceGraph {

  import opened Capacity
  import opened Digraph

  const MAX_NODES := 64
  const MAX_LINKS := 4

  datatype Node = Node(id: DistributedId, links: seq<nat>, active: bool)

  datatype Refusal = Done | NoSuchNode | TableFull

  /** A link counts when it leads to an active node. */
  ghost predicate Leads(nodes: seq<Node>, n: nat, v: int) {
    0 <= v < |nodes| && v < n && nodes[v].active
  }

  ghost function LinksOf(nodes: seq<Node>, n: nat, u: int): Edges
    requires 0 <= u < |nodes|
  {
    set k | 0 <= k < |nodes[u].links| && Leads(nodes, n, nodes[u].links[k]) :: (u, nodes[u].links[k])
  }

  ghost function Links(nodes: seq<Node>, n: nat): Edges {
    set u, e | 0 <= u < |nodes| && e in LinksOf(nodes, n, u) :: e
  }

  /** The nodes that `start` leads to, itself included. */
  ghost function Reachable(nodes: seq<Node>, n: nat, start: int): set<int> {
    {start} + ReachSet(Links(nodes, n), start)
  }

  lemma SetFits(s: set<int>, n: nat)
    requires forall x :: x in s ==> 0 <= x < n
    ensures |s| <= n
  {
    SubsetSize(s, UpTo(n));
  }

  /** A list of distinct table positions is no longer than the table. */
  lemma Fits(s: seq<int>)
    requires Distinct(s) && forall x :: x in s ==> 0 <= x < MAX_NODES
    ensures |s| <= MAX_NODES
  {
    FullListHasAll(s, MAX_NODES);
  }

  /** Each visited node either waits on the stack, once, or is done. */
  ghost predicate Waiting(visited: seq<bool>, stack: seq<int>, done: set<int>)
    requires |visited| == MAX_NODES
  {
    && Distinct(stack) && (forall x :: x in stack ==> 0 <= x < MAX_NODES && visited[x] && x !in done)
    && (forall x :: x in done ==> 0 <= x < MAX_NODES && visited[x])
    && (forall x :: 0 <= x < MAX_NODES && visited[x] ==> x in stack || x in done)
  }

  lemma PopKeepsWaiting(visited: seq<bool>, stack: seq<int>, done: set<int>)
    requires |visited| == MAX_NODES && Waiting(visited, stack, done) && stack != []
    ensures var cur := stack[|stack| - 1];
      && 0 <= cur < MAX_NODES && cur !in done && |done + {cur}| <= MAX_NODES
      && Waiting(visited, stack[..|stack| - 1], done + {cur})
  {
    var cur := stack[|stack| - 1];
    var rest := stack[..|stack| - 1];
    assert cur in stack;
    forall x | x in rest ensures x in stack && x != cur {
      var k :| 0 <= k < |rest| && rest[k] == x;
      assert stack[k] == x;
    }
    forall x | x in stack && x != cur ensures x in rest {
      var k :| 0 <= k < |stack| && stack[k] == x;
      assert rest[k] == x;
    }
    SetFits(done + {cur}, MAX_NODES);
  }

  lemma DoneIsInTable(visited: seq<bool>, stack: seq<int>, done: set<int>)
    requires |visited| == MAX_NODES && Waiting(visited, stack, done)
    ensures forall x :: x in done ==> 0 <= x < MAX_NODES
  {
  }

  lemma PushKeepsWaiting(visited: seq<bool>, stack: seq<int>, done: set<int>, v: int)
    requires |visited| == MAX_NODES && Waiting(visited, stack, done) && 0 <= v < MAX_NODES && !visited[v]
    ensures |stack| < MAX_NODES && Waiting(visited[v := true], stack + [v], done)
  {
    Fits(stack + [v]);
  }

  /**
   The state of the search: what is visited is either waiting on the stack or done, is reachable,
   and what a done node leads to is visited, except for links `i` and later of node `cur`.
   */
  ghost predicate Searching(nodes: seq<Node>, n: nat, start: int, visited: seq<bool>, stack: seq<int>,
                            done: set<int>, cur: int, i: nat)
  {
    && |nodes| == |visited| == MAX_NODES && n <= MAX_NODES && Leads(nodes, n, start) && visited[start]
    && Waiting(visited, stack, done)
    && (forall x :: 0 <= x < MAX_NODES && visited[x] ==> x in Reachable(nodes, n, start))
    && (forall u, v :: u in done && u != cur && (u, v) in Links(nodes, n) ==> visited[v])
    && (cur in done ==> forall k :: 0 <= k < i && k < |nodes[cur].links| ==> Seen(nodes, n, visited, nodes[cur].links[k]))
  }

  ghost predicate Seen(nodes: seq<Node>, n: nat, visited: seq<bool>, v: int)
    requires |nodes| == |visited|
  {
    Leads(nodes, n, v) ==> visited[v]
  }

  lemma SearchBegins(nodes: seq<Node>, n: nat, start: int, visited: seq<bool>)
    requires |nodes| == |visited| == MAX_NODES && n <= MAX_NODES && Leads(nodes, n, start)
    requires forall x :: 0 <= x < MAX_NODES ==> (visited[x] <==> x == start)
    ensures Searching(nodes, n, start, visited, [start], {}, -1, 0)
  {
  }

  /** Popping the top of the stack. */
  lemma SearchPops(nodes: seq<Node>, n: nat, start: int, visited: seq<bool>, stack: seq<int>, done: set<int>)
    requires Searching(nodes, n, start, visited, stack, done, -1, 0) && stack != []
    ensures var cur := stack[|stack| - 1];
      && 0 <= cur < MAX_NODES && cur !in done && |done + {cur}| <= MAX_NODES
      && Searching(nodes, n, start, visited, stack[..|stack| - 1], done + {cur}, cur, 0)
  {
    hide Links, Reachable, Seen, Waiting;
    PopKeepsWaiting(visited, stack, done);
    assert forall x :: x in done ==> x != -1 by {
      DoneIsInTable(visited, stack, done);
    }
  }

  /** Link `i` of the current node leads nowhere new. */
  lemma SearchSkips(nodes: seq<Node>, n: nat, start: int, visited: seq<bool>, stack: seq<int>, done: set<int>, cur: int, i: nat)
    requires Searching(nodes, n, start, visited, stack, done, cur, i) && cur in done && i < |nodes[cur].links|
    requires Leads(nodes, n, nodes[cur].links[i]) ==> visited[nodes[cur].links[i]]
    ensures Searching(nodes, n, start, visited, stack, done, cur, i + 1)
  {
  }

  /** Link `i` of the current node leads to a new node, which goes on the stack. */
  lemma SearchPushes(nodes: seq<Node>, n: nat, start: int, visited: seq<bool>, stack: seq<int>, done: set<int>, cur: int, i: nat)
    requires Searching(nodes, n, start, visited, stack, done, cur, i) && cur in done && i < |nodes[cur].links|
    requires var v := nodes[cur].links[i]; Leads(nodes, n, v) && !visited[v]
    ensures |stack| < MAX_NODES
    ensures var v := nodes[cur].links[i]; Searching(nodes, n, start, visited[v := true], stack + [v], done, cur, i + 1)
  {
    var v := nodes[cur].links[i];
    var E := Links(nodes, n);
    assert (cur, v) in LinksOf(nodes, n, cur);
    assert (cur, v) in E;
    EdgeReaches(E, cur, v);
    if cur != start {
      ReachesTransitive(E, start, cur, v);
    }
    ReachSetIsComplete(E, start, v);
    PushKeepsWaiting(visited, stack, done, v);
  }

  /** All links of the current node are looked at. */
  lemma SearchReturns(nodes: seq<Node>, n: nat, start: int, visited: seq<bool>, stack: seq<int>, done: set<int>, cur: int)
    requires 0 <= cur < |nodes| && Searching(nodes, n, start, visited, stack, done, cur, |nodes[cur].links|) && cur in done
    ensures Searching(nodes, n, start, visited, stack, done, -1, 0)
  {
  }

  /** When the stack is empty, what is done is exactly what is reachable. */
  lemma SearchEnds(nodes: seq<Node>, n: nat, start: int, visited: seq<bool>, done: set<int>)
    requires Searching(nodes, n, start, visited, [], done, -1, 0)
    ensures done == Reachable(nodes, n, start)
  {
    var E := Links(nodes, n);
    assert start in done;
    forall u, v | u in done && (u, v) in E ensures v in done {
      assert visited[v];
    }
    forall b | b in ReachSet(E, start) ensures b in done {
      var p :| WalkBetween(E, start, b, p);
      ClosedSetIsReached(E, start, done, b, p);
    }
    forall x | x in done ensures x in Reachable(nodes, n, start) {
      assert visited[x];
    }
  }

  class Topology {
    const nodes: array<Node>
    var nodeCount: nat

    ghost predicate Valid()
      reads this, nodes
    {
      && nodes.Length == MAX_NODES && nodeCount <= MAX_NODES
      && (forall i :: 0 <= i < nodes.Length ==> |nodes[i].links| <= MAX_LINKS)
      && (forall i :: nodeCount <= i < nodes.Length ==> !nodes[i].active)
    }

    constructor ()
      ensures Valid() && fresh(nodes) && nodeCount == 0
    {
      nodes := new Node[MAX_NODES](_ => Node(DistributedId(0, 0), [], false));
      nodeCount := 0;
    }

    /** Takes the first free position; the new node has no outgoing links. */
    method Insert(id: DistributedId) returns (slot: int)
      requires Valid()
      modifies this, nodes
      ensures Valid()
      ensures slot == -1 <==> forall i :: 0 <= i < MAX_NODES ==> old(nodes[i].active)
      ensures slot == -1 ==> nodes[..] == old(nodes[..]) && nodeCount == old(nodeCount)
      ensures slot != -1 ==> 0 <= slot < nodeCount && !old(nodes[..])[slot].active
      ensures slot != -1 ==> nodes[..] == old(nodes[..])[slot := Node(id, [], true)]
      ensures slot != -1 ==> nodeCount == if slot < old(nodeCount) then old(nodeCount) else slot + 1
    {
      for i := 0 to nodes.Length
        invariant unchanged(this) && unchanged(nodes) && forall j :: 0 <= j < i ==> nodes[j].active
      {
        if !nodes[i].active {
          nodes[i] := Node(id, [], true);
          if i >= nodeCount {
            nodeCount := i + 1;
          }
          return i;
        }
      }
      return -1;
    }

    method AddEdge(from: nat, to: nat) returns (r: Refusal)
      requires Valid()
      modifies nodes
      ensures Valid()
      ensures r == NoSuchNode <==> from >= nodeCount || to >= nodeCount
      ensures r == TableFull <==> r != NoSuchNode && |old(nodes[..])[from].links| == MAX_LINKS
      ensures r != Done ==> nodes[..] == old(nodes[..])
      ensures r == Done ==> nodes[..] == var was := old(nodes[..]); was[from := was[from].(links := was[from].links + [to])]
    {
      if from >= nodeCount || to >= nodeCount {
        return NoSuchNode;
      }
      if |nodes[from].links| >= MAX_LINKS {
        return TableFull;
      }
      nodes[from] := nodes[from].(links := nodes[from].links + [to]);
      return Done;
    }

    /** Pushes what the links of `cur` newly lead to. */
    method Expand(ghost start: int, visited: array<bool>, stack: array<int>, len: nat, ghost done: set<int>, cur: int)
      returns (newLen: nat)
      requires Valid() && stack.Length == MAX_NODES == visited.Length && len <= MAX_NODES && cur in done && 0 <= cur < MAX_NODES
      requires Searching(nodes[..], nodeCount, start, visited[..], stack[..len], done, cur, 0)
      modifies visited, stack
      ensures newLen <= MAX_NODES
      ensures Searching(nodes[..], nodeCount, start, visited[..], stack[..newLen], done, -1, 0)
    {
      hide Searching, Leads;
      newLen := len;
      var node := nodes[cur];
      for i := 0 to |node.links|
        invariant newLen <= MAX_NODES
        invariant Searching(nodes[..], nodeCount, start, visited[..], stack[..newLen], done, cur, i)
      {
        var next := node.links[i];
        ghost var v, s := visited[..], stack[..newLen];
        LeadsIs(nodes[..], nodeCount, next);
        if next < nodeCount && nodes[next].active && !visited[next] {
          SearchPushes(nodes[..], nodeCount, start, v, s, done, cur, i);
          visited[next] := true;
          assert visited[..] == v[next as int := true];
          stack[newLen] := next;
          newLen := newLen + 1;
          assert stack[..newLen] == s + [next];
        } else {
          SearchSkips(nodes[..], nodeCount, start, v, s, done, cur, i);
        }
      }
      SearchReturns(nodes[..], nodeCount, start, visited[..], stack[..newLen], done, cur);
    }

    /** The number of nodes that `start` leads to, or 0 for a position that is not in use. */
    method CountReachable(start: nat) returns (count: nat)
      requires Valid()
      ensures start < nodeCount && nodes[start].active ==> count == |Reachable(nodes[..], nodeCount, start)|
      ensures !(start < nodeCount && nodes[start].active) ==> count == 0
    {
      hide Searching, Reachable;
      if start >= nodeCount || !nodes[start].active {
        return 0;
      }
      var visited := new bool[MAX_NODES](i => i == start);
      var stack := new int[MAX_NODES](_ => 0);
      stack[0] := start;
      var len := 1;
      assert stack[..1] == [start];
      count := 0;
      ghost var done: set<int> := {};
      SearchBegins(nodes[..], nodeCount, start, visited[..]);
      while len > 0
        invariant 0 <= len <= MAX_NODES && count == |done| <= MAX_NODES
        invariant Searching(nodes[..], nodeCount, start, visited[..], stack[..len], done, -1, 0)
        decreases MAX_NODES - |done|
      {
        ghost var s := stack[..len];
        len := len - 1;
        var cur := stack[len];
        assert s[|s| - 1] == cur && s[..|s| - 1] == stack[..len];
        SearchPops(nodes[..], nodeCount, start, visited[..], s, done);
        count := count + 1;
        done := done + {cur};
        len := Expand(start, visited, stack, len, done, cur);
      }
      assert stack[..len] == [];
      SearchEnds(nodes[..], nodeCount, start, visited[..], done);
    }
  }

  lemma LeadsIs(nodes: seq<Node>, n: nat, v: int)
    requires n <= |nodes| && 0 <= v
    ensures Leads(nodes, n, v) <==> v < n && nodes[v].active
  {
  }
}
