/**
 The three ledgers kept beside the derivation tree: the occupancy count of each handle table, the
 handle reference count of each kernel object, and the capability identifiers.
 */
module CapLedger {
  import opened Common
  import opened CapTypes

  function CountIf(E: seq<Entry>, holds: Entry -> bool, lo: nat, hi: nat): nat
    requires lo <= hi <= |E|
    decreases hi
  {
    if lo == hi then 0 else CountIf(E, holds, lo, hi - 1) + (if holds(E[hi - 1]) then 1 else 0)
  }

  lemma {:induction false} CountAfterUpdate(E: seq<Entry>, holds: Entry -> bool, lo: nat, hi: nat, s: int, e: Entry)
    requires lo <= hi <= |E| && 0 <= s < |E|
    ensures lo <= s < hi ==>
      CountIf(E[s := e], holds, lo, hi) + (if holds(E[s]) then 1 else 0)
        == CountIf(E, holds, lo, hi) + (if holds(e) then 1 else 0)
    ensures !(lo <= s < hi) ==> CountIf(E[s := e], holds, lo, hi) == CountIf(E, holds, lo, hi)
    decreases hi
  {
    if lo < hi {
      CountAfterUpdate(E, holds, lo, hi - 1, s, e);
    }
  }

  lemma {:induction false} CountBounds(E: seq<Entry>, holds: Entry -> bool, lo: nat, hi: nat)
    requires lo <= hi <= |E|
    ensures CountIf(E, holds, lo, hi) <= hi - lo
    ensures CountIf(E, holds, lo, hi) == 0 <==> forall s :: lo <= s < hi ==> !holds(E[s])
    decreases hi
  {
    if lo < hi {
      CountBounds(E, holds, lo, hi - 1);
    }
  }

  function IsOccupied(e: Entry): bool {
    e.occupied
  }

  function Names(o: int): Entry -> bool {
    (e: Entry) => e.occupied && e.obj == o
  }

  function OccupiedIn(E: seq<Entry>, p: Proc): nat
    requires |E| == NODES
  {
    CountIf(E, IsOccupied, p * MAX_HANDLES, p * MAX_HANDLES + MAX_HANDLES)
  }

  function Naming(E: seq<Entry>, o: int): nat
    requires |E| == NODES
  {
    CountIf(E, Names(o), 0, NODES)
  }

  /** Each handle table's count is the number of its occupied entries. */
  ghost predicate Tallied(E: seq<Entry>, C: seq<nat>) {
    |E| == NODES && |C| == MAX_PROCESSES && forall p: Proc :: C[p] == OccupiedIn(E, p)
  }

  /** Each object's reference count is the number of occupied entries naming it, and those entries are current. */
  ghost predicate Referenced(E: seq<Entry>, O: seq<ObjectSlot>) {
    && |E| == NODES && |O| == MAX_OBJECTS
    && (forall o :: 0 <= o < MAX_OBJECTS ==> O[o].handleRefs == Naming(E, o))
    && (forall s: Slot :: E[s].occupied ==> Current(E[s], O))
  }

  predicate Current(e: Entry, O: seq<ObjectSlot>)
    requires |O| == MAX_OBJECTS
  {
    0 <= e.obj < MAX_OBJECTS && O[e.obj].occupied && O[e.obj].gen == e.objGen
  }

  /** Live capability ids are positive, pairwise distinct and below the generator. */
  ghost predicate Identified(N: seq<Node>, E: seq<Entry>, next: nat) {
    && |N| == |E| == NODES && 1 <= next <= U64_MAX
    && (forall s: Slot :: N[s].id < next)
    && (forall s: Slot :: E[s].occupied ==> N[s].id > 0)
    && (forall s: Slot, t: Slot :: E[s].occupied && E[t].occupied && s != t ==> N[s].id != N[t].id)
  }

  /** A freshly issued id differs from every live one. */
  lemma NewIdKeepsIdentified(N: seq<Node>, E: seq<Entry>, next: nat, d: Slot, M: seq<Node>, F: seq<Entry>)
    requires Identified(N, E, next) && next < U64_MAX && |M| == |F| == NODES
    requires M[d].id == next
    requires forall s: Slot :: s != d ==> (M[s].id == N[s].id || M[s].id == 0)
    requires forall s: Slot :: s != d && F[s].occupied ==> E[s].occupied && M[s].id == N[s].id
    ensures Identified(M, F, next + 1)
  {
  }

  lemma FreeKeepsIdentified(N: seq<Node>, E: seq<Entry>, next: nat, M: seq<Node>, F: seq<Entry>)
    requires Identified(N, E, next) && |M| == |F| == NODES
    requires forall s: Slot :: M[s].id == N[s].id || M[s].id == 0
    requires forall s: Slot :: F[s].occupied ==> E[s].occupied && M[s].id == N[s].id
    ensures Identified(M, F, next)
  {
  }

  // ---------------------------------------------------------------- effect of one entry changing

  function WithCount(C: seq<nat>, p: Proc, change: int): seq<nat>
    requires |C| == MAX_PROCESSES && C[p] + change >= 0
  {
    C[p := C[p] + change]
  }

  lemma OccupyKeepsTally(E: seq<Entry>, C: seq<nat>, s: Slot, e: Entry)
    requires Tallied(E, C) && !E[s].occupied && e.occupied
    ensures Tallied(E[s := e], WithCount(C, ProcOf(s), 1))
  {
    forall p: Proc ensures WithCount(C, ProcOf(s), 1)[p] == OccupiedIn(E[s := e], p) {
      CountAfterUpdate(E, IsOccupied, p * MAX_HANDLES, p * MAX_HANDLES + MAX_HANDLES, s, e);
    }
  }

  lemma FreeKeepsTally(E: seq<Entry>, C: seq<nat>, s: Slot, e: Entry)
    requires Tallied(E, C) && E[s].occupied && !e.occupied
    ensures C[ProcOf(s)] > 0
    ensures Tallied(E[s := e], WithCount(C, ProcOf(s), -1))
  {
    var q := ProcOf(s);
    CountBounds(E, IsOccupied, q * MAX_HANDLES, q * MAX_HANDLES + MAX_HANDLES);
    forall p: Proc ensures WithCount(C, q, -1)[p] == OccupiedIn(E[s := e], p) {
      CountAfterUpdate(E, IsOccupied, p * MAX_HANDLES, p * MAX_HANDLES + MAX_HANDLES, s, e);
    }
  }

  function WithRefs(O: seq<ObjectSlot>, o: int, change: int): seq<ObjectSlot>
    requires |O| == MAX_OBJECTS && 0 <= o < MAX_OBJECTS && O[o].handleRefs + change >= 0
  {
    O[o := O[o].(handleRefs := O[o].handleRefs + change)]
  }

  /** Whether `e` is an occupied entry naming `o`, as a number. */
  function Share(e: Entry, o: int): nat {
    if e.occupied && e.obj == o then 1 else 0
  }

  lemma NamingAfterUpdate(E: seq<Entry>, s: Slot, e: Entry, o: int)
    requires |E| == NODES
    ensures Naming(E[s := e], o) + Share(E[s], o) == Naming(E, o) + Share(e, o) && Naming(E[s := e], o) <= NODES
    ensures Share(e, o) <= Naming(E[s := e], o)
  {
    CountAfterUpdate(E, Names(o), 0, NODES, s, e);
    CountBounds(E, Names(o), 0, NODES);
    CountBounds(E[s := e], Names(o), 0, NODES);
    assert Share(e, o) == 1 ==> Names(o)(E[s := e][s]);
  }

  lemma EntryIsCurrent(E: seq<Entry>, O: seq<ObjectSlot>, s: Slot)
    requires Referenced(E, O) && E[s].occupied
    ensures |E| == NODES && |O| == MAX_OBJECTS && Current(E[s], O)
  {
  }

  /** A reference count never reaches its 16-bit limit: there are only 512 entries. */
  lemma OccupyKeepsRefs(E: seq<Entry>, O: seq<ObjectSlot>, s: Slot, e: Entry)
    requires Referenced(E, O) && !E[s].occupied && e.occupied && Current(e, O)
    ensures O[e.obj].handleRefs < NODES
    ensures Referenced(E[s := e], WithRefs(O, e.obj, 1))
  {
    hide Naming;
    var P := WithRefs(O, e.obj, 1);
    NamingAfterUpdate(E, s, e, e.obj);
    forall o | 0 <= o < MAX_OBJECTS ensures P[o].handleRefs == Naming(E[s := e], o) {
      NamingAfterUpdate(E, s, e, o);
    }
  }

  lemma FreeKeepsRefs(E: seq<Entry>, O: seq<ObjectSlot>, s: Slot, e: Entry)
    requires Referenced(E, O) && E[s].occupied && !e.occupied
    ensures O[E[s].obj].handleRefs > 0
    ensures Referenced(E[s := e], WithRefs(O, E[s].obj, -1))
  {
    hide Naming;
    assert Current(E[s], O);
    NamingAfterUpdate(E, s, E[s], E[s].obj);
    assert E[s := E[s]] == E;
    var P := WithRefs(O, E[s].obj, -1);
    forall o | 0 <= o < MAX_OBJECTS ensures P[o].handleRefs == Naming(E[s := e], o) {
      NamingAfterUpdate(E, s, e, o);
    }
  }

  /** Moving an entry to a free slot changes no reference count. */
  lemma MoveKeepsRefs(E: seq<Entry>, O: seq<ObjectSlot>, src: Slot, dst: Slot, e: Entry, f: Entry)
    requires Referenced(E, O) && E[src].occupied && !E[dst].occupied
    requires e.occupied && e.obj == E[src].obj && e.objGen == E[src].objGen && !f.occupied
    ensures Referenced(E[dst := e][src := f], O)
  {
    hide Referenced;
    EntryIsCurrent(E, O, src);
    OccupyKeepsRefs(E, O, dst, e);
    FreeKeepsRefs(E[dst := e], WithRefs(O, e.obj, 1), src, f);
    assert WithRefs(WithRefs(O, e.obj, 1), e.obj, -1) == O;
  }

  /** An object with no references is named by no occupied entry. */
  lemma NoRefsNoNames(E: seq<Entry>, O: seq<ObjectSlot>, o: int)
    requires Referenced(E, O) && 0 <= o < MAX_OBJECTS
    ensures O[o].handleRefs == 0 <==> forall s: Slot :: E[s].occupied ==> E[s].obj != o
  {
    CountBounds(E, Names(o), 0, NODES);
    if O[o].handleRefs == 0 {
      forall s: Slot | E[s].occupied ensures E[s].obj != o {
        assert !Names(o)(E[s]);
      }
    } else {
      var s :| 0 <= s < NODES && Names(o)(E[s]);
    }
  }

  lemma VacantObjectHasNoRefs(E: seq<Entry>, O: seq<ObjectSlot>, o: int)
    requires Referenced(E, O) && 0 <= o < MAX_OBJECTS && !O[o].occupied
    ensures O[o].handleRefs == 0
  {
    NoRefsNoNames(E, O, o);
    assert forall s: Slot :: E[s].occupied ==> Current(E[s], O);
  }

  /** Replacing an unreferenced object slot leaves every entry current. */
  lemma UnreferencedObjectIsFree(E: seq<Entry>, O: seq<ObjectSlot>, o: int, slot: ObjectSlot)
    requires Referenced(E, O) && 0 <= o < MAX_OBJECTS && O[o].handleRefs == slot.handleRefs == 0
    ensures Referenced(E, O[o := slot])
  {
    NoRefsNoNames(E, O, o);
  }

  lemma PinsDoNotMatter(E: seq<Entry>, O: seq<ObjectSlot>, o: int, pins: nat)
    requires Referenced(E, O) && 0 <= o < MAX_OBJECTS
    ensures Referenced(E, O[o := O[o].(pins := pins)])
  {
  }

  lemma EmptyTables(E: seq<Entry>, C: seq<nat>, O: seq<ObjectSlot>)
    requires |E| == NODES && |C| == MAX_PROCESSES && |O| == MAX_OBJECTS
    requires (forall s: Slot :: !E[s].occupied) && (forall p: Proc :: C[p] == 0)
    requires forall o :: 0 <= o < MAX_OBJECTS ==> O[o].handleRefs == 0
    ensures Tallied(E, C) && Referenced(E, O)
  {
    forall p: Proc ensures OccupiedIn(E, p) == 0 {
      CountBounds(E, IsOccupied, p * MAX_HANDLES, p * MAX_HANDLES + MAX_HANDLES);
    }
    forall o: int ensures Naming(E, o) == 0 {
      CountBounds(E, Names(o), 0, NODES);
    }
  }
}
