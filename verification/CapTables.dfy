/**
 The kernel's capability tables as mutable state, and every operation that edits them.

 The kernel object table lock is held throughout each operation, so an operation is one atomic step.
 Channel endpoint counts, waiter wake-ups and memory mappings are outside the model; an object is
 reclaimed when it has no handle references and no pins.
 */
module CapTables {
  import opened Common
  import opened CapTypes
  import opened CapTree
  import opened CapLedger
  import opened CapSteps
  import opened CapEdits

  /** Whether a capability with entry `e` and node `n` may be the parent of one with the given rights. */
  predicate Derivable(e: Entry, n: Node, nextId: nat, rights: bv16) {
    && e.occupied
    && MayDuplicate(e.rights)
    && RightsSubset(rights, e.rights)
    && n.depth < MAX_DEPTH
    && nextId != U64_MAX
  }

  /** The checks of a derivation, in the kernel's order. */
  function CheckDerive(e: Entry, n: Node, nextId: nat, rights: bv16): (r: Refusal)
    ensures r.Admit? <==> Derivable(e, n, nextId, rights) && !n.revoked
  {
    if !e.occupied then Refuse(InvalidHandle)
    else if n.revoked then Refuse(CapabilityRevoked)
    else if !MayDuplicate(e.rights) then Refuse(CapabilityNotDuplicable)
    else if !RightsSubset(rights, e.rights) then Refuse(RightsAmplificationRejected)
    else if n.depth >= MAX_DEPTH then Refuse(MaxDerivationDepthExceeded)
    else if nextId == U64_MAX then Refuse(CapabilityIdExhausted)
    else Admit
  }

  /** The preflight checks of a delegation, in the kernel's order. */
  function CheckDelegate(e: Entry, n: Node, rights: bv16): (r: Refusal)
    ensures r.Admit? <==>
      && e.occupied && !n.revoked && MayTransfer(e.rights) && MayDuplicate(e.rights)
      && RightsSubset(rights, e.rights) && n.depth < MAX_DEPTH
  {
    if !e.occupied then Refuse(InvalidHandle)
    else if n.revoked then Refuse(CapabilityRevoked)
    else if !MayTransfer(e.rights) then Refuse(CapabilityNotTransferable)
    else if !MayDuplicate(e.rights) then Refuse(CapabilityNotDuplicable)
    else if !RightsSubset(rights, e.rights) then Refuse(RightsAmplificationRejected)
    else if n.depth >= MAX_DEPTH then Refuse(MaxDerivationDepthExceeded)
    else Admit
  }

  // ---------------------------------------------------------------- process exit

  /** Slots of `p` below position `h` are the ones an exit has already visited. */
  predicate Visited(p: Proc, h: int, s: Slot) {
    ProcOf(s) == p && s < p * MAX_HANDLES + h
  }

  /** How far an exit has come: visited slots are free, the rest is as it was, lineage is kept. */
  ghost predicate ExitProgress(T: Tables, U: Tables, p: Proc, h: int)
    requires Shape(T) && Shape(U)
  {
    && (forall s: Slot :: Visited(p, h, s) ==> !U.entries[s].occupied)
    && (forall s: Slot :: !Visited(p, h, s) ==> U.entries[s] == T.entries[s])
    && (forall s: Slot :: U.nodes[s].id == if Visited(p, h, s) && T.entries[s].occupied then 0 else T.nodes[s].id)
    && SameLineage(T, U) && U.nextId == T.nextId
  }

  /** Slot `s` has been closed, and nothing else about entries, ids and lineage has changed. */
  ghost predicate Relinquished(U: Tables, s: Slot, V: Tables)
    requires Shape(U) && Shape(V)
  {
    && !V.entries[s].occupied && V.nodes[s].id == 0
    && (forall x: Slot :: x != s ==> V.entries[x] == U.entries[x] && V.nodes[x].id == U.nodes[x].id)
    && SameLineage(U, V) && V.nextId == U.nextId
  }

  lemma ExitStarts(T: Tables, p: Proc)
    requires Shape(T)
    ensures ExitProgress(T, T, p, 0)
  {
  }

  lemma ExitProgresses(T: Tables, U: Tables, V: Tables, p: Proc, h: int)
    requires Shape(T) && Shape(U) && Shape(V) && 0 <= h < MAX_HANDLES && ExitProgress(T, U, p, h)
    requires if U.entries[SlotAt(p, h)].occupied then Relinquished(U, SlotAt(p, h), V) else V == U
    ensures ExitProgress(T, V, p, h + 1)
  {
  }

  lemma ExitDone(T: Tables, U: Tables, p: Proc)
    requires Shape(T) && Shape(U) && ExitProgress(T, U, p, MAX_HANDLES)
    ensures forall s: Slot :: ProcOf(s) == p ==> !U.entries[s].occupied
    ensures forall s: Slot :: ProcOf(s) != p ==> U.entries[s] == T.entries[s] && U.nodes[s].id == T.nodes[s].id
    ensures SameLineage(T, U) && NoResurrection(T, U) && U.nextId == T.nextId
    ensures (forall s: Slot :: ProcOf(s) == p ==> U.nodes[s].id == 0) <==>
            (forall s: Slot :: ProcOf(s) == p ==> T.entries[s].occupied || T.nodes[s].id == 0)
  {
  }

  class CapabilityTables {
    const entries: array<Entry>
    const nodes: array<Node>
    const counts: array<nat>
    const objects: array<ObjectSlot>
    var nextId: nat
    ghost var kids: Kids

    /** The shape of the four tables: fixed lengths, four different arrays. */
    ghost predicate Shaped() {
      && entries.Length == nodes.Length == NODES
      && counts.Length == MAX_PROCESSES && objects.Length == MAX_OBJECTS
      && entries as object != nodes && entries as object != counts && entries as object != objects
      && nodes as object != counts && nodes as object != objects && counts as object != objects
    }

    ghost function Now(): Tables
      reads this, entries, nodes, counts, objects
    {
      Tables(nodes[..], entries[..], counts[..], objects[..], nextId, kids)
    }

    ghost predicate Valid()
      reads this, entries, nodes, counts, objects
    {
      Shaped() && Sound(Now())
    }

    // -------------------------------------------------------------- chain primitives

    /** Writes a fresh node at `d` and pushes it onto the front of the chain of `p`. */
    method AddChild(p: Slot, d: Slot, n: Node)
      requires nodes.Length == NODES && p != d
      modifies nodes
      ensures nodes[..] == old(nodes[..])[d := n.(nextSibling := old(nodes[p]).firstChild)]
                                         [p := old(nodes[p]).(firstChild := d)]
    {
      nodes[d] := n;
      var oldFirst := nodes[p].firstChild;
      nodes[d] := nodes[d].(nextSibling := oldFirst);
      nodes[p] := nodes[p].(firstChild := d);
    }

    method RemoveChild(p: Slot, c: Slot, ghost l: seq<Slot>)
      requires nodes.Length == NODES
      requires ListAt(nodes[..], p, l) && Distinct(l) && c in l && p !in l
      modifies nodes
      ensures nodes[..] == Unlinked(old(nodes[..]), p, c, l)
    {
      ghost var N := nodes[..];
      ghost var j := IndexOf(l, c);
      if nodes[p].firstChild == c {
        assert j == 0;
        nodes[p] := nodes[p].(firstChild := nodes[c].nextSibling);
      } else {
        assert l[0] != c;
        var cur := nodes[p].firstChild;
        ghost var i := 0;
        while cur != NIL
          invariant 0 <= i < j && cur == l[i]
          invariant nodes[..] == N
          decreases j - i
        {
          var next := nodes[cur].nextSibling;
          assert N[l[i]].nextSibling == l[i + 1];
          if next == c {
            assert i + 1 == j;
            nodes[cur] := nodes[cur].(nextSibling := nodes[c].nextSibling);
            break;
          }
          cur := next;
          i := i + 1;
        }
      }
      nodes[c] := nodes[c].(nextSibling := NIL);
    }

    method ReplaceChild(p: Slot, c: Slot, d: Slot, ghost l: seq<Slot>)
      requires nodes.Length == NODES
      requires ListAt(nodes[..], p, l) && Distinct(l) && c in l && p !in l && d !in l && d != p
      modifies nodes
      ensures nodes[..] == Relinked(old(nodes[..]), p, c, d, l)
    {
      ghost var N := nodes[..];
      ghost var j := IndexOf(l, c);
      if nodes[p].firstChild == c {
        assert j == 0;
        nodes[d] := nodes[d].(nextSibling := nodes[c].nextSibling);
        nodes[p] := nodes[p].(firstChild := d);
      } else {
        assert l[0] != c;
        var cur := nodes[p].firstChild;
        ghost var i := 0;
        while cur != NIL
          invariant 0 <= i < j && cur == l[i]
          invariant nodes[..] == N
          decreases j - i
        {
          var next := nodes[cur].nextSibling;
          assert N[l[i]].nextSibling == l[i + 1];
          if next == c {
            assert i + 1 == j;
            nodes[d] := nodes[d].(nextSibling := nodes[c].nextSibling);
            nodes[cur] := nodes[cur].(nextSibling := d);
            break;
          }
          cur := next;
          i := i + 1;
        }
      }
    }

    /** Appends the chain starting at `first` to the worklist. */
    method PushChain(work: array<Slot>, start: nat, first: Link, ghost l: seq<Slot>) returns (len: nat)
      requires nodes.Length == work.Length == NODES && nodes as object != work
      requires first == Head(l) && Linked(nodes[..], l) && start + |l| <= NODES
      modifies work
      ensures len == start + |l| && work[..len] == old(work[..start]) + l
    {
      len := start;
      var cur := first;
      ghost var i := 0;
      while cur != NIL
        invariant 0 <= i <= |l| && len == start + i
        invariant cur == if i < |l| then l[i] else NIL
        invariant work[..len] == old(work[..start]) + l[..i]
        decreases |l| - i
      {
        if len < work.Length {
          work[len] := cur;
          len := len + 1;
        }
        cur := nodes[cur].nextSibling;
        i := i + 1;
      }
    }

    /** Hands every node of a chain to a new parent; returns the last one. */
    method AdoptChain(first: Link, parent: Link, gen: Gen, depth: nat, ghost l: seq<Slot>) returns (last: Link)
      requires nodes.Length == NODES
      requires first == Head(l) && Linked(nodes[..], l) && Distinct(l)
      modifies nodes
      ensures last == if l == [] then NIL else l[|l| - 1]
      ensures forall x: Slot ::
        nodes[x] == if x in l then Rehung(old(nodes[x]), parent, gen, depth) else old(nodes[x])
    {
      ghost var N := nodes[..];
      last := NIL;
      var cur := first;
      ghost var i := 0;
      while cur != NIL
        invariant 0 <= i <= |l|
        invariant cur == if i < |l| then l[i] else NIL
        invariant last == if i == 0 then NIL else l[i - 1]
        invariant forall x: Slot ::
          nodes[x] == if x in l[..i] then Rehung(N[x], parent, gen, depth) else N[x]
        decreases |l| - i
      {
        assert cur !in l[..i];
        nodes[cur] := Rehung(nodes[cur], parent, gen, depth);
        last := cur;
        assert i + 1 < |l| ==> N[l[i]].nextSibling == l[i + 1];
        cur := nodes[cur].nextSibling;
        assert l[..i + 1] == l[..i] + [l[i]];
        i := i + 1;
      }
      assert l[..i] == l;
    }

    /** Points every node of a chain at a new parent. */
    method RepointChain(first: Link, parent: Slot, gen: Gen, ghost l: seq<Slot>)
      requires nodes.Length == NODES
      requires first == Head(l) && Linked(nodes[..], l) && Distinct(l)
      modifies nodes
      ensures forall x: Slot ::
        nodes[x] == if x in l then old(nodes[x]).(parent := parent, parentGen := gen) else old(nodes[x])
    {
      ghost var N := nodes[..];
      var cur := first;
      ghost var i := 0;
      while cur != NIL
        invariant 0 <= i <= |l|
        invariant cur == if i < |l| then l[i] else NIL
        invariant forall x: Slot ::
          nodes[x] == if x in l[..i] then N[x].(parent := parent, parentGen := gen) else N[x]
        decreases |l| - i
      {
        assert cur !in l[..i];
        nodes[cur] := nodes[cur].(parent := parent, parentGen := gen);
        assert i + 1 < |l| ==> N[l[i]].nextSibling == l[i + 1];
        cur := nodes[cur].nextSibling;
        assert l[..i + 1] == l[..i] + [l[i]];
        i := i + 1;
      }
      assert l[..i] == l;
    }

    // -------------------------------------------------------------- entry and object primitives

    method OccupyEntry(d: Slot, e: Entry)
      requires Shaped()
      modifies entries, counts
      ensures entries[..] == old(entries[..])[d := e]
      ensures counts[..] == WithCount(old(counts[..]), ProcOf(d), 1)
    {
      entries[d] := e;
      counts[ProcOf(d)] := counts[ProcOf(d)] + 1;
    }

    /** Frees an entry, retires its generation and lowers the count, stopping at zero. */
    method VacateEntry(s: Slot)
      requires Shaped()
      modifies entries, counts
      ensures entries[..] == old(entries[..])[s := FreedEntry(old(entries[s]))]
      ensures counts[..] == old(counts[..])[ProcOf(s) := if old(counts[ProcOf(s)]) > 0 then old(counts[ProcOf(s)]) - 1 else 0]
    {
      var gen := if entries[s].gen == U16_MAX then 0 else entries[s].gen + 1;
      entries[s] := entries[s].(occupied := false, gen := gen);
      if entries[s].gen == 0 {
        entries[s] := entries[s].(gen := 1);
      }
      counts[ProcOf(s)] := if counts[ProcOf(s)] > 0 then counts[ProcOf(s)] - 1 else 0;
    }

    method Retain(o: int)
      requires Shaped() && 0 <= o < MAX_OBJECTS
      modifies objects
      ensures objects[..] == WithRefs(old(objects[..]), o, 1)
    {
      objects[o] := objects[o].(handleRefs := objects[o].handleRefs + 1);
    }

    /** Drops one handle reference of an object that is still there, stopping at zero. */
    method Drop(o: int)
      requires Shaped()
      modifies objects
      ensures 0 <= o < MAX_OBJECTS && old(objects[o].occupied) && old(objects[o].handleRefs) > 0 ==>
        objects[..] == WithRefs(old(objects[..]), o, -1)
      ensures !(0 <= o < MAX_OBJECTS && old(objects[o].occupied) && old(objects[o].handleRefs) > 0) ==>
        objects[..] == old(objects[..])
    {
      if 0 <= o < MAX_OBJECTS {
        if objects[o].occupied {
          objects[o] := objects[o].(handleRefs := if objects[o].handleRefs > 0 then objects[o].handleRefs - 1 else 0);
        }
      }
    }

    /** Frees an object slot that nothing refers to any more, and retires its generation. */
    method Reclaim(o: int)
      requires Shaped() && 0 <= o < MAX_OBJECTS
      requires Referenced(entries[..], objects[..])
      modifies objects
      ensures Referenced(entries[..], objects[..])
      ensures objects[..] ==
        if old(objects[o].occupied && objects[o].handleRefs == 0 && objects[o].pins == 0)
        then old(objects[..])[o := ObjectSlot(false, NextGen(old(objects[o]).gen), 0, 0)]
        else old(objects[..])
    {
      hide Referenced;
      if objects[o].occupied && objects[o].handleRefs == 0 && objects[o].pins == 0 {
        UnreferencedObjectIsFree(entries[..], objects[..], o, ObjectSlot(false, NextGen(objects[o].gen), 0, 0));
        objects[o] := ObjectSlot(false, NextGen(objects[o].gen), 0, 0);
      }
    }

    // -------------------------------------------------------------- tree primitives

    /** Closing below a parent: unlink `c`, then splice its children in front of its siblings. */
    method SpliceIntoParent(c: Slot, p: Slot, ghost E: seq<Entry>)
      requires Shaped() && Forest(nodes[..], E, kids) && E[c].occupied && nodes[c].parent == p
      modifies nodes
      ensures c in kids[p]
      ensures forall x: Slot :: x != c ==> nodes[x] == ClosedNode(old(nodes[..]), kids, c, x)
    {
      hide Forest, ClosedNode, Linked, Distinct, Unlinked, UnlinkedFacts;
      ghost var N, K := nodes[..], kids;
      var gen, first := nodes[c].parentGen, nodes[c].firstChild;
      DepthIsBounded(N, E, K, c, p);
      FamilyIsDisjoint(N, E, K, c, p);
      RemoveChild(p, c, K[p]);
      ghost var U := nodes[..];
      forall x: Slot | x in K[c] || x == p
        ensures U[x].(firstChild := NIL) == N[x].(firstChild := NIL) && (x in K[c] ==> U[x] == N[x])
      {
        UnlinkedElsewhere(N, E, K, c, p, x);
      }
      LinkedFrame(N, U, K[c]);
      var depth := nodes[p].depth;
      var last := AdoptChain(first, p, gen, if depth < 255 then depth + 1 else 255, K[c]);
      ghost var A := nodes[..];
      if last != NIL {
        var oldFirst := nodes[p].firstChild;
        nodes[last] := nodes[last].(nextSibling := oldFirst);
        nodes[p] := nodes[p].(firstChild := first);
      }
      forall x: Slot | x != c ensures nodes[x] == ClosedNode(N, K, c, x) {
        SplicedAt(N, E, K, c, p, A, nodes[..], x);
      }
    }

    /** Takes `c` out of the derivation tree, re-hanging its children or promoting them to roots. */
    method UnlinkNode(c: Slot, ghost E: seq<Entry>)
      requires Shaped() && Forest(nodes[..], E, kids) && E[c].occupied
      modifies nodes
      ensures old(nodes[c]).parent != NIL ==> c in kids[old(nodes[c]).parent]
      ensures forall x: Slot :: nodes[x] == ClosedNode(old(nodes[..]), kids, c, x)
    {
      var p := nodes[c].parent;
      if p != NIL {
        SpliceIntoParent(c, p, E);
      } else {
        ghost var N := nodes[..];
        forall x: Slot | x in kids[c] ensures x != c { assert Edge(N, E, c, x); }
        var _ := AdoptChain(nodes[c].firstChild, NIL, 0, 0, kids[c]);
      }
      nodes[c] := EMPTY_NODE;
    }

    /** Moves a node to the free slot `dst`, taking over its place among its siblings and all its children. */
    method MoveNode(src: Slot, dst: Slot, id: nat, gen: Gen, ghost E: seq<Entry>)
      requires Shaped() && Forest(nodes[..], E, kids)
      requires E[src].occupied && !E[dst].occupied && gen == E[dst].gen
      modifies nodes
      ensures old(nodes[src]).parent != NIL ==> src in kids[old(nodes[src]).parent]
      ensures forall x: Slot :: nodes[x] == MovedNode(old(nodes[..]), E, kids, src, dst, id, x)
    {
      ghost var N, K := nodes[..], kids;
      UnoccupiedIsChildless(N, E, K, dst);
      var p, first := nodes[src].parent, nodes[src].firstChild;
      nodes[dst] := nodes[src].(id := id, revoked := false, nextSibling := NIL);
      ghost var A := nodes[..];
      assert A == N[dst := N[src].(id := id, revoked := false, nextSibling := NIL)];
      if p != NIL {
        FamilyIsDisjoint(N, E, K, src, p);
        LinkedFrame(N, A, K[p]);
        ReplaceChild(p, src, dst, K[p]);
      }
      ghost var B := nodes[..];
      assert B == Replanted(N, K, src, dst, id);
      forall x: Slot | x != src ensures x in K[src] ==> x != dst && B[x] == N[x] {
        ReplantedAt(N, E, K, src, dst, id, x);
      }
      assert src !in K[src] by { assert src in K[src] ==> Edge(N, E, src, src); }
      LinkedFrame(N, B, K[src]);
      RepointChain(first, dst, gen, K[src]);
      nodes[src] := EMPTY_NODE;
      forall x: Slot ensures nodes[x] == MovedNode(N, E, K, src, dst, id, x) {
        if x != src { ReplantedAt(N, E, K, src, dst, id, x); }
      }
    }

    /** Frees the entry of a revoked capability `u`, while `t` still holds the same object. */
    method RevokeEntry(u: Slot, ghost t: Slot)
      requires Shaped() && Tallied(entries[..], counts[..]) && Referenced(entries[..], objects[..])
      requires u != t && entries[u].occupied && entries[t].occupied && entries[u].obj == entries[t].obj
      modifies entries, counts, objects
      ensures entries[..] == old(entries[..])[u := FreedEntry(old(entries[u]))]
      ensures Tallied(entries[..], counts[..]) && Referenced(entries[..], objects[..])
      ensures SameObjects(old(objects[..]), objects[..])
    {
      hide Tallied, Referenced;
      ghost var E, C, O := entries[..], counts[..], objects[..];
      EntryIsCurrent(E, O, u);
      FreeKeepsTally(E, C, u, FreedEntry(E[u]));
      FreeKeepsRefs(E, O, u, FreedEntry(E[u]));
      VacateEntry(u);
      var o := entries[u].obj;
      Drop(o);
      assert entries[..][t] == E[t];
      NoRefsNoNames(entries[..], objects[..], o);
      Reclaim(o);
    }

    // -------------------------------------------------------------- creation

    constructor ()
      ensures Valid()
      ensures fresh(entries) && fresh(nodes) && fresh(counts) && fresh(objects)
      ensures nextId == 1 && forall s: Slot :: !entries[s].occupied
      ensures forall o :: 0 <= o < MAX_OBJECTS ==> !objects[o].occupied
    {
      entries := new Entry[NODES](_ => EMPTY_ENTRY);
      nodes := new Node[NODES](_ => EMPTY_NODE);
      counts := new nat[MAX_PROCESSES](_ => 0);
      objects := new ObjectSlot[MAX_OBJECTS](_ => EMPTY_OBJECT);
      nextId := 1;
      kids := seq(NODES, _ => []);
      new;
      EmptyTables(entries[..], counts[..], objects[..]);
    }

    /** The lowest free handle slot of a process. */
    method AllocateSlot(p: Proc) returns (r: Result<Slot>)
      requires Valid()
      ensures r.Ok? ==> ProcOf(r.value) == p && !entries[r.value].occupied
      ensures r.Ok? ==> forall s: Slot :: ProcOf(s) == p && s < r.value ==> entries[s].occupied
      ensures r.Err? <==> forall s: Slot :: ProcOf(s) == p ==> entries[s].occupied
      ensures r.Err? ==> r.error == HandleTableFull
    {
      for h := 0 to MAX_HANDLES
        invariant forall s: Slot :: ProcOf(s) == p && s < p * MAX_HANDLES + h ==> entries[s].occupied
      {
        if !entries[SlotAt(p, h)].occupied {
          return Ok(SlotAt(p, h));
        }
      }
      return Err(HandleTableFull);
    }

    /** Occupies a free object slot, keeping its generation. */
    method AllocateObject() returns (r: Result<int>)
      requires Valid()
      modifies objects
      ensures Valid()
      ensures r.Ok? ==>
        && 0 <= r.value < MAX_OBJECTS && !old(objects[r.value]).occupied
        && Now() == old(Now()).(objects := old(objects[..])[r.value := ObjectSlot(true, old(objects[r.value]).gen, 0, 0)])
      ensures r.Err? ==> Now() == old(Now())
      ensures r.Err? <==> forall o :: 0 <= o < MAX_OBJECTS ==> old(objects[o]).occupied
    {
      hide Forest, Tallied, Referenced, Identified;
      for o := 0 to MAX_OBJECTS
        invariant objects[..] == old(objects[..])
        invariant forall i :: 0 <= i < o ==> old(objects[i]).occupied
      {
        if !objects[o].occupied {
          VacantObjectHasNoRefs(entries[..], objects[..], o);
          UnreferencedObjectIsFree(entries[..], objects[..], o, ObjectSlot(true, objects[o].gen, 0, 0));
          objects[o] := ObjectSlot(true, objects[o].gen, 0, 0);
          return Ok(o);
        }
      }
      return Err(ObjectTableFull);
    }

    /** Something outside the capability tables starts or stops using an object. */
    method SetPins(o: int, pins: nat)
      requires Valid() && 0 <= o < MAX_OBJECTS
      modifies objects
      ensures Valid()
      ensures Now() == old(Now()).(objects := old(objects[..])[o := old(objects[o]).(pins := pins)])
    {
      PinsDoNotMatter(entries[..], objects[..], o, pins);
      hide Forest, Tallied, Referenced, Identified;
      objects[o] := objects[o].(pins := pins);
    }

    /** Installs the first capability to an object: a root of the forest. */
    method InstallRoot(d: Slot, o: int, rights: bv16, endpoint: int) returns (r: Result<Gen>)
      requires Valid() && !entries[d].occupied
      requires 0 <= o < MAX_OBJECTS && objects[o].occupied
      modifies this, entries, nodes, counts, objects
      ensures Valid()
      ensures r.Err? <==> old(nextId) == U64_MAX
      ensures r.Err? ==> r.error == CapabilityIdExhausted && Now() == old(Now())
      ensures r.Ok? ==> r.value == entries[d].gen && RootStep(old(Now()), d, o, rights, endpoint, Now())
    {
      hide Forest, Tallied, Referenced, Identified;
      ghost var T := Now();
      IdsAreBounded(T);
      if nextId == U64_MAX {
        return Err(CapabilityIdExhausted);
      }
      var id := nextId;
      nextId := nextId + 1;
      var e := Entry(o, entries[d].gen, objects[o].gen, rights, endpoint, true);
      OccupyEntry(d, e);
      nodes[d] := RootNode(id);
      Retain(o);
      assert RootStep(T, d, o, rights, endpoint, Now());
      RootKeepsSound(T, d, o, rights, endpoint, Now());
      return Ok(e.gen);
    }

    /** The commit half of a derivation: allocate an id, fill the slot, link it below `p`. */
    method CommitDerived(d: Slot, p: Slot, rights: bv16) returns (gen: Gen)
      requires Valid() && !entries[d].occupied && Derivable(entries[p], nodes[p], nextId, rights)
      modifies this, entries, nodes, counts, objects
      ensures Valid()
      ensures gen == entries[d].gen && DeriveStep(old(Now()), p, d, rights, Now())
    {
      hide Forest, Tallied, Referenced, Identified;
      ghost var T := Now();
      LiveIsCounted(T, p);
      var o, id := entries[p].obj, nextId;
      nextId := nextId + 1;
      var e := Entry(o, entries[d].gen, entries[p].objGen, rights, entries[p].endpoint, true);
      var n := Node(id, p, entries[p].gen, nodes[p].depth + 1, false, 0, NIL, NIL);
      OccupyEntry(d, e);
      AddChild(p, d, n);
      kids := kids[p := [d] + kids[p]];
      Retain(o);
      assert n.(nextSibling := T.nodes[p].firstChild) == DerivedNode(T.nodes, T.entries, p, id);
      assert DeriveStep(T, p, d, rights, Now());
      DeriveKeepsSound(T, p, d, rights, Now());
      return e.gen;
    }

    /**
     Installs a child capability. A live capability is never marked revoked and its object is always
     current, so the kernel's checks for those two cases never refuse.
     */
    method InstallDerived(d: Slot, p: Slot, rights: bv16) returns (r: Result<Gen>)
      requires Valid() && !entries[d].occupied
      modifies this, entries, nodes, counts, objects
      ensures Valid()
      ensures r.Ok? <==> old(Derivable(entries[p], nodes[p], nextId, rights))
      ensures r.Err? ==> Now() == old(Now())
      ensures r.Ok? ==> r.value == entries[d].gen && DeriveStep(old(Now()), p, d, rights, Now())
    {
      hide Forest, Tallied, Referenced, Identified;
      if entries[p].occupied { LiveIsCounted(Now(), p); }
      var check := CheckDerive(entries[p], nodes[p], nextId, rights);
      if check.Refuse? {
        return Err(check.error);
      }
      var gen := CommitDerived(d, p, rights);
      return Ok(gen);
    }

    // -------------------------------------------------------------- closing

    /** Closes a capability and returns the object and endpoint it named. */
    method Close(c: Slot) returns (r: Result<(int, int)>)
      requires Valid()
      modifies this, entries, nodes, counts, objects
      ensures Valid()
      ensures r.Ok? <==> old(entries[c].occupied)
      ensures r.Err? ==> r.error == InvalidHandle && Now() == old(Now())
      ensures r.Ok? ==> CloseStep(old(Now()), c, Now()) && r.value == (old(entries[c]).obj, old(entries[c]).endpoint)
    {
      hide Forest, Tallied, Referenced, Identified, ClosedNode;
      if !entries[c].occupied {
        return Err(InvalidHandle);
      }
      ghost var T := Now();
      LiveIsCounted(T, c);
      var o, endpoint := entries[c].obj, entries[c].endpoint;
      VacateEntry(c);
      UnlinkNode(c, T.entries);
      Drop(o);
      kids := ClosedKids(T.nodes, T.kids, c);
      assert Closes(T.nodes, T.entries, T.kids, c, nodes[..], entries[..]);
      assert CloseStep(T, c, Now());
      CloseKeepsSound(T, c, Now());
      return Ok((o, endpoint));
    }

    // -------------------------------------------------------------- moving

    /** The commit half of a move; it cannot fail. */
    method CommitMove(src: Slot, dst: Slot) returns (gen: Gen)
      requires Valid() && entries[src].occupied && !entries[dst].occupied && nextId != U64_MAX
      modifies this, entries, nodes, counts, objects
      ensures Valid()
      ensures gen == entries[dst].gen && MoveStep(old(Now()), src, dst, Now())
    {
      hide Forest, Tallied, Referenced, Identified, MovedNode;
      ghost var T := Now();
      LiveIsCounted(T, src);
      var id := nextId;
      nextId := nextId + 1;
      gen := entries[dst].gen;
      OccupyEntry(dst, entries[src].(gen := gen));
      MoveNode(src, dst, id, gen, T.entries);
      VacateEntry(src);
      kids := MovedKids(T.nodes, T.kids, src, dst);
      assert Moves(T.nodes, T.entries, T.kids, src, dst, id, nodes[..], entries[..]);
      assert MoveStep(T, src, dst, Now());
      MoveKeepsSound(T, src, dst, Now());
    }

    // -------------------------------------------------------------- revoking

    /**
     Revokes everything derived from `t`, breadth first. The worklist guard never drops a node, and since
     `t` itself keeps naming the object, no revocation ever reclaims it.
     */
    method RevokeTree(t: Slot) returns (revoked: nat)
      requires Valid()
      modifies this, entries, nodes, counts, objects
      ensures Valid()
      ensures revoked == |old(Descendants(nodes[..], entries[..], t))|
      ensures RevokeStep(old(Now()), t, Now())
    {
      hide Forest, Sweep, Swept, Revokes, Tallied, Referenced, Identified, Descendants;
      ghost var T := Now();
      ghost var N, E, K := T.nodes, T.entries, T.kids;
      var work := new Slot[NODES](_ => 0);
      SweepStarts(N, E, K, t);
      SweepFits(N, E, K, t, K[t], 0);
      ChainAt(N, E, K, t);
      if !entries[t].occupied { UnoccupiedIsChildless(N, E, K, t); }
      var len := PushChain(work, 0, nodes[t].firstChild, K[t]);
      nodes[t] := nodes[t].(firstChild := NIL);
      NothingRevoked(N, E, t, work[..len]);
      assert nodes[..] == N[t := N[t].(firstChild := NIL)] && work[..len] == K[t];
      revoked := 0;
      var idx := 0;
      while idx < len
        invariant 0 <= idx <= len <= NODES && revoked == idx && (len > 0 ==> E[t].occupied)
        invariant nextId == T.nextId && kids == K
        invariant Sweep(N, E, K, t, work[..len], idx)
        invariant PartlyRevoked(N, E, t, work[..len], idx, nodes[..], entries[..])
        invariant Tallied(entries[..], counts[..]) && Referenced(entries[..], objects[..])
        invariant SameObjects(T.objects, objects[..])
        decreases NODES - idx
      {
        len := RevokeNext(work, len, idx, t, T);
        idx := idx + 1;
        revoked := revoked + 1;
      }
      SweepEnds(N, E, K, t, work[..len]);
      ghost var D := Descendants(N, E, t);
      assert work[..len][..len] == work[..len];
      assert Elements(work[..len]) == D;
      kids := RevokedKids(K, t, D);
      assert RevokeStep(T, t, Now());
      RevokeKeepsSound(T, t, Now());
    }

    /** One round of the worklist loop: queue the children of entry `idx`, then revoke it. */
    method RevokeNext(work: array<Slot>, len: nat, idx: nat, ghost t: Slot, ghost T: Tables) returns (newLen: nat)
      requires Shaped() && work.Length == NODES && work as object != nodes && work as object != entries
      requires work as object != counts && work as object != objects
      requires Sound(T) && T.entries[t].occupied && idx < len <= NODES
      requires Sweep(T.nodes, T.entries, T.kids, t, work[..len], idx)
      requires PartlyRevoked(T.nodes, T.entries, t, work[..len], idx, nodes[..], entries[..])
      requires Tallied(entries[..], counts[..]) && Referenced(entries[..], objects[..])
      requires SameObjects(T.objects, objects[..])
      modifies work, entries, nodes, counts, objects
      ensures len <= newLen <= NODES
      ensures Sweep(T.nodes, T.entries, T.kids, t, work[..newLen], idx + 1)
      ensures PartlyRevoked(T.nodes, T.entries, t, work[..newLen], idx + 1, nodes[..], entries[..])
      ensures Tallied(entries[..], counts[..]) && Referenced(entries[..], objects[..])
      ensures SameObjects(T.objects, objects[..])
    {
      hide Forest, Sweep, Revokes, Tallied, Referenced, Identified, Linked, Distinct;
      ghost var W, M, F := work[..len], nodes[..], entries[..];
      var u := work[idx];
      SweepIsDistinct(T.nodes, T.entries, T.kids, t, W, idx);
      NextToRevoke(T.nodes, T.entries, T.kids, t, W, idx, M, F);
      RevokeOneMore(T.nodes, T.entries, t, W, idx, T.kids[u], M, F);
      SweepSteps(T.nodes, T.entries, T.kids, t, W, idx);
      SweepFits(T.nodes, T.entries, T.kids, t, W + T.kids[u], idx + 1);
      newLen := PushChain(work, len, nodes[u].firstChild, T.kids[u]);
      nodes[u] := nodes[u].(revoked := true, firstChild := NIL, nextSibling := NIL);
      RevokeEntry(u, t);
      assert work[..newLen] == W + T.kids[u];
      assert nodes[..] == M[u := RevokedNode(M[u])];
    }

    // -------------------------------------------------------------- entry points

    /** Whether process `p` has a free handle slot. */
    ghost predicate HasRoom(p: Proc)
      requires entries.Length == NODES
      reads entries
    {
      exists s: Slot :: ProcOf(s) == p && !entries[s].occupied
    }

    /** Creates a root capability in the lowest free slot of a process. */
    method Create(p: Proc, o: int, rights: bv16, endpoint: int) returns (r: Result<(Slot, Gen)>)
      requires Valid() && 0 <= o < MAX_OBJECTS && objects[o].occupied
      modifies this, entries, nodes, counts, objects
      ensures Valid()
      ensures r.Ok? <==> old(HasRoom(p)) && old(nextId) != U64_MAX
      ensures r.Err? ==> Now() == old(Now())
      ensures r.Ok? ==> ProcOf(r.value.0) == p && RootStep(old(Now()), r.value.0, o, rights, endpoint, Now())
    {
      hide Forest, Tallied, Referenced, Identified, ProcOf;
      var slot := AllocateSlot(p);
      if slot.Err? {
        return Err(slot.error);
      }
      var res := InstallRoot(slot.value, o, rights, endpoint);
      if res.Err? {
        return Err(res.error);
      }
      return Ok((slot.value, res.value));
    }

    /** Derives a child from handle `h` of process `p`, in the same process. */
    method Derive(p: Proc, h: nat, rights: bv16) returns (r: Result<(Slot, Gen)>)
      requires Valid()
      modifies this, entries, nodes, counts, objects
      ensures Valid()
      ensures r.Ok? <==>
        && h < MAX_HANDLES && old(HasRoom(p))
        && old(Derivable(entries[SlotAt(p, h)], nodes[SlotAt(p, h)], nextId, rights))
      ensures r.Err? ==> Now() == old(Now())
      ensures r.Ok? ==> ProcOf(r.value.0) == p && DeriveStep(old(Now()), SlotAt(p, h), r.value.0, rights, Now())
    {
      hide Forest, Tallied, Referenced, Identified, ProcOf, Derivable;
      if h >= MAX_HANDLES {
        return Err(InvalidHandle);
      }
      var slot := AllocateSlot(p);
      if slot.Err? {
        return Err(slot.error);
      }
      var res := InstallDerived(slot.value, SlotAt(p, h), rights);
      if res.Err? {
        return Err(res.error);
      }
      return Ok((slot.value, res.value));
    }

    /** Derives a child with the parent's own rights, from a handle whose generation must be current. */
    method Duplicate(p: Proc, h: nat, gen: Gen) returns (r: Result<(Slot, Gen)>)
      requires Valid()
      modifies this, entries, nodes, counts, objects
      ensures Valid()
      ensures r.Ok? <==>
        && h < MAX_HANDLES && old(entries[SlotAt(p, h)]).gen == gen && old(HasRoom(p))
        && old(Derivable(entries[SlotAt(p, h)], nodes[SlotAt(p, h)], nextId, entries[SlotAt(p, h)].rights))
      ensures r.Err? ==> Now() == old(Now())
      ensures r.Ok? ==>
        && ProcOf(r.value.0) == p
        && DeriveStep(old(Now()), SlotAt(p, h), r.value.0, old(entries[SlotAt(p, h)]).rights, Now())
    {
      hide Forest, Tallied, Referenced, Identified, ProcOf, MayDuplicate, RightsSubset;
      if h >= MAX_HANDLES {
        return Err(InvalidHandle);
      }
      var s := SlotAt(p, h);
      if !entries[s].occupied || entries[s].gen != gen {
        return Err(InvalidHandle);
      }
      r := Derive(p, h, entries[s].rights);
    }

    /** Derives a child of `src` in another process; needs both transfer and duplicate rights. */
    method Delegate(src: Slot, dst: Proc, rights: bv16) returns (r: Result<(Slot, Gen)>)
      requires Valid()
      modifies this, entries, nodes, counts, objects
      ensures Valid()
      ensures r.Ok? <==>
        && old(MayTransfer(entries[src].rights)) && old(HasRoom(dst))
        && old(Derivable(entries[src], nodes[src], nextId, rights))
      ensures r.Err? ==> Now() == old(Now())
      ensures r.Ok? ==> ProcOf(r.value.0) == dst && DeriveStep(old(Now()), src, r.value.0, rights, Now())
    {
      hide Forest, Tallied, Referenced, Identified, ProcOf;
      if entries[src].occupied { LiveIsCounted(Now(), src); }
      var check := CheckDelegate(entries[src], nodes[src], rights);
      if check.Refuse? {
        return Err(check.error);
      }
      var slot := AllocateSlot(dst);
      if slot.Err? {
        return Err(slot.error);
      }
      var res := InstallDerived(slot.value, src, rights);
      if res.Err? {
        return Err(res.error);
      }
      return Ok((slot.value, res.value));
    }

    /** Moves a capability to another process. A refused move leaves the sender's capability untouched. */
    method Transfer(src: Slot, dst: Proc) returns (r: Result<(Slot, Gen)>)
      requires Valid()
      modifies this, entries, nodes, counts, objects
      ensures Valid()
      ensures r.Ok? <==> old(entries[src].occupied && MayTransfer(entries[src].rights) && HasRoom(dst) && nextId != U64_MAX)
      ensures r.Err? ==> Now() == old(Now())
      ensures r.Ok? ==> ProcOf(r.value.0) == dst && MoveStep(old(Now()), src, r.value.0, Now())
    {
      hide Forest, Tallied, Referenced, Identified, ProcOf;
      if !entries[src].occupied {
        return Err(InvalidHandle);
      }
      LiveIsCounted(Now(), src);
      assert !nodes[src].revoked;
      if !MayTransfer(entries[src].rights) {
        return Err(CapabilityNotTransferable);
      }
      var slot := AllocateSlot(dst);
      if slot.Err? {
        return Err(slot.error);
      }
      if nextId == U64_MAX {
        return Err(CapabilityIdExhausted);
      }
      var gen := CommitMove(src, slot.value);
      return Ok((slot.value, gen));
    }

    /** Revokes everything derived from `t`; the caller must hold the revoke right. */
    method Revoke(t: Slot) returns (r: Result<nat>)
      requires Valid()
      modifies this, entries, nodes, counts, objects
      ensures Valid()
      ensures r.Ok? <==> old(entries[t].occupied) && old(entries[t]).rights & CAP_REVOKE != 0
      ensures r.Err? ==> Now() == old(Now())
      ensures r.Ok? ==> r.value == |old(Descendants(nodes[..], entries[..], t))| && RevokeStep(old(Now()), t, Now())
    {
      hide Forest, Tallied, Referenced, Identified, Descendants;
      if !entries[t].occupied {
        return Err(InvalidHandle);
      }
      LiveIsCounted(Now(), t);
      assert !nodes[t].revoked;
      if entries[t].rights & CAP_REVOKE == 0 {
        return Err(PermissionDenied);
      }
      var n := RevokeTree(t);
      return Ok(n);
    }

    /** Finds the live capability with a given id, scanning all processes. */
    method LookupById(id: nat) returns (r: Result<Slot>)
      requires Valid()
      ensures r.Ok? ==> entries[r.value].occupied && nodes[r.value].id == id
      ensures r.Ok? ==> forall s: Slot :: entries[s].occupied && nodes[s].id == id ==> s == r.value
      ensures r.Err? ==> forall s: Slot :: entries[s].occupied ==> nodes[s].id != id
    {
      if id == 0 {
        return Err(InvalidCapability);
      }
      for p: int := 0 to MAX_PROCESSES
        invariant forall s: Slot :: s < p * MAX_HANDLES && entries[s].occupied ==> nodes[s].id != id
      {
        for h := 0 to MAX_HANDLES
          invariant forall s: Slot :: s < p * MAX_HANDLES + h && entries[s].occupied ==> nodes[s].id != id
        {
          var s := SlotAt(p, h);
          if entries[s].occupied {
            assert LiveNode(Now().nodes[s]);
            if !nodes[s].revoked && nodes[s].id == id {
              return Ok(s);
            }
          }
        }
      }
      return Err(InvalidCapability);
    }

    // -------------------------------------------------------------- process exit

    /** Closes a live capability and reclaims its object if that was the last use. */
    method CloseAndReclaim(s: Slot) returns (r: Result<()>)
      requires Valid()
      modifies this, entries, nodes, counts, objects
      ensures Valid()
      ensures r.Ok? <==> old(entries[s].occupied)
      ensures r.Err? ==> r.error == InvalidHandle && Now() == old(Now())
      ensures r.Ok? ==> Relinquished(old(Now()), s, Now())
    {
      hide Forest, Tallied, Referenced, Identified, CloseStep, SameLineage;
      ghost var U := Now();
      if entries[s].occupied { LiveIsCounted(U, s); }
      var closed := Close(s);
      if closed.Err? {
        return Err(closed.error);
      }
      ghost var V := Now();
      CloseLeavesRest(U, s, V);
      CloseKeepsLineage(U, s, V);
      CloseKeepsIds(U, s, V);
      Reclaim(closed.value.0);
      LineageIgnoresObjects(U, V, Now());
      return Ok(());
    }

    /**
     Closes every capability of an exiting process. The kernel ends by asserting that each of its nodes has
     id zero; that holds exactly when no free slot of the process carried an old id beforehand.
     */
    method Exit(p: Proc)
      requires Valid()
      modifies this, entries, nodes, counts, objects
      ensures Valid()
      ensures counts[p] == 0
      ensures forall s: Slot :: ProcOf(s) == p ==> !entries[s].occupied && nodes[s].firstChild == NIL
      ensures forall s: Slot :: ProcOf(s) != p ==> entries[s] == old(entries[s]) && nodes[s].id == old(nodes[s]).id
      ensures SameLineage(old(Now()), Now()) && NoResurrection(old(Now()), Now()) && nextId == old(nextId)
      ensures (forall s: Slot :: ProcOf(s) == p ==> nodes[s].id == 0) <==>
              (forall s: Slot :: ProcOf(s) == p ==> old(entries[s]).occupied || old(nodes[s]).id == 0)
    {
      hide Sound, ExitProgress, Relinquished;
      ghost var T := Now();
      SoundHasShape(T);
      ExitStarts(T, p);
      for h := 0 to MAX_HANDLES
        invariant Shaped() && Sound(Now()) && Shape(Now())
        invariant ExitProgress(T, Now(), p, h)
      {
        var s := SlotAt(p, h);
        ghost var U := Now();
        if entries[s].occupied {
          var _ := CloseAndReclaim(s);
        }
        SoundHasShape(Now());
        ExitProgresses(T, U, Now(), p, h);
      }
      ExitDone(T, Now(), p);
      EmptyProcess(Now(), p);
    }
  }
}
