/**
 Any number of nodes handing one session authority around, over a network that may delay, duplicate,
 reorder and lose proofs.

 Assumptions on the environment: proofs are authentic (only issued ones are delivered), each node names
 itself when it fences and when it receives, and recovery answers are truthful: "committed" means the
 source's last proof was accepted, and "aborted" means it was not and its destination cannot accept it.
 Any issued proof may be delivered at any time, one that was answered "aborted" included.
 */
module HandoffRuns {
  import opened Common
  import opened Handoff

  datatype World = World(nodes: map<nat, Node>, issued: set<Proof>, accepted: set<Proof>, dead: set<Proof>)

  datatype Step =
    | IssueNonce(n: nat, nonce: nat)
    | Fence(n: nat, session: nat, dest: nat, nonce: nat)
    | Deliver(n: nat, q: Proof, session: nat, source: nat, nonce: nat)
    | Reboot(n: nat)
    | Reconcile(n: nat, committed: bool, aborted: bool)

  ghost predicate Pending(n: Node) {
    n.authority.FencedPendingCommit? || n.authority.RecoveryUncertain?
  }

  /** What the environment may do next. */
  ghost predicate Allowed(w: World, s: Step) {
    && s.n in w.nodes
    && match s
       case IssueNonce(_, _) => true
       case Fence(_, _, _, _) => true
       case Deliver(_, q, _, _, _) => q in w.issued
       case Reboot(n) => w.nodes[n].authority.FencedPendingCommit?
       case Reconcile(n, committed, aborted) =>
         Pending(w.nodes[n]) && w.nodes[n].lastProof.Some? ==>
           && (committed ==> w.nodes[n].lastProof.value in w.accepted)
           && (aborted && !committed ==>
                 w.nodes[n].lastProof.value !in w.accepted && Spent(w, w.nodes[n].lastProof.value))
  }

  /** No node accepts a proof that names nobody, or no session, or no nonce. */
  ghost predicate Void(q: Proof) {
    q.session == 0 || q.source == 0 || q.dest == 0 || q.nonce == 0
  }

  /** The destination lags behind the epoch this proof starts from. */
  ghost predicate Behind(w: World, q: Proof) {
    q.dest in w.nodes && w.nodes[q.dest].epoch < q.previousEpoch
  }

  /** The destination cannot accept this proof. */
  ghost predicate Spent(w: World, q: Proof) {
    Void(q) || Overtaken(w, q) || Behind(w, q)
  }

  /** The destination has moved past this proof. */
  ghost predicate Overtaken(w: World, q: Proof) {
    q.dest !in w.nodes || w.nodes[q.dest].epoch > q.previousEpoch || w.nodes[q.dest].fenceSequence >= q.fenceSequence
  }

  /** Being overtaken is permanent and rules acceptance out, whoever delivers the proof and whenever. */
  lemma OvertakenStays(w: World, s: Step, q: Proof)
    requires Allowed(w, s) && Overtaken(w, q)
    ensures !Accepts(w, s, q) && Overtaken(Apply(w, s), q)
  {
  }

  ghost predicate Accepts(w: World, s: Step, q: Proof) {
    && s.Deliver? && s.q == q && s.n in w.nodes
    && Acceptable(w.nodes[s.n], q, s.session, s.source, s.n, s.nonce)
  }

  ghost function Apply(w: World, s: Step): World
    requires Allowed(w, s)
  {
    var n := w.nodes[s.n];
    match s
    case IssueNonce(i, v) => w.(nodes := w.nodes[i := n.(nonce := v)])
    case Fence(i, session, dest, nonce) =>
      if n.authority.Authoritative? then
        var q := FencingProof(n, session, i, dest, nonce);
        w.(nodes := w.nodes[i := Fenced(n, q)], issued := w.issued + {q})
      else w
    case Deliver(i, q, session, source, nonce) =>
      if Acceptable(n, q, session, source, i, nonce) then
        w.(nodes := w.nodes[i := Committed(n, q)], accepted := w.accepted + {q})
      else w
    case Reboot(i) => w.(nodes := w.nodes[i := n.(authority := RecoveryUncertain)])
    case Reconcile(i, committed, aborted) =>
      var m := w.(nodes := w.nodes[i := Reconciled(n, committed, aborted)]);
      if Pending(n) && n.lastProof.Some? && !committed && aborted then m.(dead := w.dead + {n.lastProof.value}) else m
  }

  // ---------------------------------------------------------------- the authority token

  /** Where the right to act can be: at a node, or travelling inside a proof. */
  datatype Token = AtNode(n: nat) | InFlight(q: Proof)

  ghost predicate Holds(w: World, t: Token) {
    match t
    case AtNode(n) => n in w.nodes && w.nodes[n].authority.Authoritative?
    case InFlight(q) => q in w.issued && q !in w.accepted && q !in w.dead
  }

  /** `t` is the only token, or there is none. */
  ghost predicate OnlyToken(w: World, t: Option<Token>) {
    forall u :: Holds(w, u) <==> t == Some(u)
  }

  ghost predicate WellIssued(w: World, q: Proof) {
    && q.magic == FENCING_PROOF_MAGIC && q.source in w.nodes
    && q.fenceSequence <= w.nodes[q.source].fenceSequence
    && q.previousEpoch <= w.nodes[q.source].epoch
    && q.proposedEpoch == q.previousEpoch + 1
  }

  /** `t` is the only token; accepted proofs are behind their destination; pending nodes remember a live proof. */
  ghost predicate Safe(w: World, t: Option<Token>) {
    && w.accepted <= w.issued && w.dead <= w.issued && w.accepted !! w.dead
    && (forall q :: q in w.issued ==> WellIssued(w, q))
    && (forall q :: q in w.accepted ==> q.dest in w.nodes && w.nodes[q.dest].epoch > q.previousEpoch)
    && (forall n :: n in w.nodes && Pending(w.nodes[n]) ==> Remembers(w, n, w.nodes[n].lastProof))
    && (forall q :: q in w.dead ==> Void(q) || Overtaken(w, q) || LeftBehind(w, t, q))
    && OnlyToken(w, t)
    && (t.Some? && t.value.InFlight? ==> t.value.q.previousEpoch == w.nodes[t.value.q.source].epoch)
  }

  /** The destination lags behind, and the token has gone too far ahead for it ever to catch up. */
  ghost predicate LeftBehind(w: World, t: Option<Token>, q: Proof) {
    Behind(w, q) && t.Some? && TokenEpoch(w, t.value) > q.previousEpoch
  }

  /** The epoch of the node that holds the token, or the one its proof starts from. */
  ghost function TokenEpoch(w: World, t: Token): nat {
    match t
    case AtNode(n) => if n in w.nodes then w.nodes[n].epoch else 0
    case InFlight(q) => q.previousEpoch
  }

  ghost predicate Remembers(w: World, n: nat, last: Option<Proof>) {
    last.Some? && last.value in w.issued && last.value.source == n && last.value !in w.dead
  }

  /** Nothing issued, nobody in the middle of a handoff. */
  ghost predicate Quiet(w: World) {
    w.issued == w.accepted == w.dead == {} && forall n :: n in w.nodes ==> !Pending(w.nodes[n])
  }

  ghost predicate AtMostOneAuthority(w: World) {
    forall a, b :: Holds(w, AtNode(a)) && Holds(w, AtNode(b)) ==> a == b
  }

  lemma QuietIsSafe(w: World) returns (t: Option<Token>)
    requires Quiet(w) && AtMostOneAuthority(w)
    ensures Safe(w, t)
  {
    if a :| Holds(w, AtNode(a)) {
      t := Some(AtNode(a));
    } else {
      t := None;
    }
  }

  /** Where the token goes in one step. */
  ghost function TokenAfter(w: World, s: Step, t: Option<Token>): Option<Token>
    requires Allowed(w, s)
  {
    var n := w.nodes[s.n];
    match s
    case Fence(i, session, dest, nonce) =>
      if n.authority.Authoritative? then Some(InFlight(FencingProof(n, session, i, dest, nonce))) else t
    case Deliver(i, q, session, source, nonce) =>
      if Acceptable(n, q, session, source, i, nonce) then Some(AtNode(i)) else t
    case Reconcile(i, committed, aborted) =>
      if Pending(n) && !committed && aborted then Some(AtNode(i)) else t
    case _ => t
  }

  lemma FenceIsSafe(w: World, s: Step, t: Option<Token>)
    requires Safe(w, t) && Allowed(w, s) && s.Fence?
    ensures Safe(Apply(w, s), TokenAfter(w, s, t))
  {
    var n := w.nodes[s.n];
    if n.authority.Authoritative? {
      assert Holds(w, AtNode(s.n));
      var q := FencingProof(n, s.session, s.n, s.dest, s.nonce);
      assert q !in w.issued;
      var v := Apply(w, s);
      forall u ensures Holds(v, u) <==> u == InFlight(q) {
        assert Holds(v, u) ==> Holds(w, u) || u == InFlight(q);
      }
    }
  }

  lemma DeliverIsSafe(w: World, s: Step, t: Option<Token>)
    requires Safe(w, t) && Allowed(w, s) && s.Deliver?
    ensures Safe(Apply(w, s), TokenAfter(w, s, t))
    ensures Accepts(w, s, s.q) ==> t == Some(InFlight(s.q)) && s.q.source != s.n && s.q !in w.accepted
  {
    var n := w.nodes[s.n];
    if Acceptable(n, s.q, s.session, s.source, s.n, s.nonce) {
      assert s.q !in w.accepted;
      assert Holds(w, InFlight(s.q));
      var v := Apply(w, s);
      forall u ensures Holds(v, u) <==> u == AtNode(s.n) {
        assert Holds(v, u) ==> Holds(w, u) || u == AtNode(s.n);
      }
    }
  }

  lemma ReconcileIsSafe(w: World, s: Step, t: Option<Token>)
    requires Safe(w, t) && Allowed(w, s) && s.Reconcile?
    ensures Safe(Apply(w, s), TokenAfter(w, s, t))
    ensures Pending(w.nodes[s.n]) && !s.committed && s.aborted ==>
      w.nodes[s.n].lastProof.Some? && t == Some(InFlight(w.nodes[s.n].lastProof.value))
  {
    var n := w.nodes[s.n];
    var v := Apply(w, s);
    if Pending(n) && !s.committed && s.aborted {
      assert Remembers(w, s.n, n.lastProof);
      assert Holds(w, InFlight(n.lastProof.value));
      forall u ensures Holds(v, u) <==> u == AtNode(s.n) {
        assert Holds(v, u) ==> Holds(w, u) || u == AtNode(s.n);
      }
    } else {
      forall u ensures Holds(v, u) <==> Holds(w, u) { }
    }
  }

  lemma LocalStepIsSafe(w: World, s: Step, t: Option<Token>)
    requires Safe(w, t) && Allowed(w, s) && (s.IssueNonce? || s.Reboot?)
    ensures Safe(Apply(w, s), t)
  {
  }

  /** Every step keeps the number of tokens, and so the right to act is never doubled or lost. */
  lemma StepIsSafe(w: World, s: Step, t: Option<Token>)
    requires Safe(w, t) && Allowed(w, s)
    ensures Safe(Apply(w, s), TokenAfter(w, s, t))
    ensures TokenAfter(w, s, t).None? <==> t.None?
  {
    match s
    case IssueNonce(_, _) => LocalStepIsSafe(w, s, t);
    case Reboot(_) => LocalStepIsSafe(w, s, t);
    case Fence(_, _, _, _) =>
      FenceIsSafe(w, s, t);
      assert w.nodes[s.n].authority.Authoritative? ==> Holds(w, AtNode(s.n));
    case Deliver(_, _, _, _, _) => DeliverIsSafe(w, s, t);
    case Reconcile(_, _, _) => ReconcileIsSafe(w, s, t);
  }

  // ---------------------------------------------------------------- runs

  ghost predicate IsRun(ws: seq<World>, ss: seq<Step>) {
    && |ws| == |ss| + 1
    && forall i {:trigger ss[i]} :: 0 <= i < |ss| ==> Allowed(ws[i], ss[i]) && ws[i + 1] == Apply(ws[i], ss[i])
  }

  lemma RunIsSafe(ws: seq<World>, ss: seq<Step>, i: nat) returns (t: Option<Token>)
    requires IsRun(ws, ss) && Quiet(ws[0]) && AtMostOneAuthority(ws[0]) && i < |ws|
    ensures Safe(ws[i], t)
    ensures t.None? <==> forall n :: !Holds(ws[0], AtNode(n))
  {
    var start := QuietIsSafe(ws[0]);
    assert start.Some? ==> Holds(ws[0], start.value);
    t := SafeRunIsSafe(ws, ss, i, start);
  }

  /** A run from a safe world stays safe, and the token is neither lost nor made. */
  lemma {:induction false} SafeRunIsSafe(ws: seq<World>, ss: seq<Step>, i: nat, start: Option<Token>) returns (t: Option<Token>)
    requires IsRun(ws, ss) && Safe(ws[0], start) && i < |ws|
    ensures Safe(ws[i], t) && (t.None? <==> start.None?)
    decreases i
  {
    t := start;
    if i > 0 {
      var before := SafeRunIsSafe(ws, ss, i - 1, start);
      StepIsSafe(ws[i - 1], ss[i - 1], before);
      t := TokenAfter(ws[i - 1], ss[i - 1], before);
    }
  }

  /** Started with at most one authority, a fleet never has two. */
  lemma NeverTwoAuthorities(ws: seq<World>, ss: seq<Step>, i: nat)
    requires IsRun(ws, ss) && Quiet(ws[0]) && AtMostOneAuthority(ws[0]) && i < |ws|
    ensures AtMostOneAuthority(ws[i])
  {
    var _ := RunIsSafe(ws, ss, i);
  }

  /** Every run from this world has at most one authority throughout. */
  ghost predicate SafeFrom(w: World) {
    forall ws: seq<World>, ss: seq<Step>, i: nat :: IsRun(ws, ss) && ws[0] == w && i < |ws| ==> AtMostOneAuthority(ws[i])
  }

  lemma SafeWorldIsSafeFrom(w: World, t: Option<Token>)
    requires Safe(w, t)
    ensures SafeFrom(w)
  {
    forall ws: seq<World>, ss: seq<Step>, i: nat | IsRun(ws, ss) && ws[0] == w && i < |ws| ensures AtMostOneAuthority(ws[i]) {
      var _ := SafeRunIsSafe(ws, ss, i, t);
    }
  }

  /** The world after a pending source is told that its last proof was aborted, truthfully or not. */
  ghost function Aborted(w: World, n: nat): World
    requires n in w.nodes && w.nodes[n].lastProof.Some?
  {
    w.(nodes := w.nodes[n := Reconciled(w.nodes[n], false, true)], dead := w.dead + {w.nodes[n].lastProof.value})
  }

  /** Told too early, the source takes its authority back and the same proof still makes the destination authoritative. */
  lemma EarlyAbortIsUnsafe(w: World, t: Option<Token>, n: nat, q: Proof)
    requires Safe(w, t) && n in w.nodes && Pending(w.nodes[n]) && w.nodes[n].lastProof == Some(q) && !Spent(w, q)
    ensures !SafeFrom(Aborted(w, n))
  {
    assert Remembers(w, n, Some(q));
    var a := Aborted(w, n);
    var nonce, deliver := IssueNonce(q.dest, q.nonce), Deliver(q.dest, q, q.session, q.source, q.nonce);
    var b := Apply(a, nonce);
    var v := Apply(b, deliver);
    assert Holds(v, AtNode(n)) && Holds(v, AtNode(q.dest));
    var ws, ss := [a, b, v], [nonce, deliver];
    assert IsRun(ws, ss) && ws[0] == a && ws[2] == v;
  }

  /**
   The exact condition for the answer "aborted": of a proof that was not accepted, it keeps every run safe if
   and only if the destination cannot accept that proof any more.
   */
  lemma AbortIsSafeExactly(w: World, t: Option<Token>, n: nat, q: Proof)
    requires Safe(w, t) && n in w.nodes && Pending(w.nodes[n]) && w.nodes[n].lastProof == Some(q) && q !in w.accepted
    ensures Spent(w, q) <==> SafeFrom(Aborted(w, n))
  {
    if Spent(w, q) {
      var s := Reconcile(n, false, true);
      StepIsSafe(w, s, t);
      assert Apply(w, s) == Aborted(w, n);
      SafeWorldIsSafeFrom(Aborted(w, n), TokenAfter(w, s, t));
    } else {
      EarlyAbortIsUnsafe(w, t, n, q);
    }
  }

  /** The starting condition is exact: from a quiet world, safety of every run is the same as a sole start. */
  lemma SafetyIsASoleStart(w: World)
    requires Quiet(w)
    ensures AtMostOneAuthority(w) <==> SafeFrom(w)
  {
    if AtMostOneAuthority(w) {
      var t := QuietIsSafe(w);
      SafeWorldIsSafeFrom(w, t);
    } else {
      var none: seq<Step> := [];
      assert IsRun([w], none) && [w][0] == w;
    }
  }

  /** Daemons all start authoritative, so two fresh ones do not meet the starting condition. */
  lemma FreshDaemonsAreTwoAuthorities(w: World, a: nat, b: nat)
    requires a != b && a in w.nodes && b in w.nodes && w.nodes[a] == w.nodes[b] == FRESH
    ensures !AtMostOneAuthority(w)
  {
    assert Holds(w, AtNode(a)) && Holds(w, AtNode(b));
  }

  lemma {:induction false} AcceptedStays(ws: seq<World>, ss: seq<Step>, i: nat, j: nat, q: Proof)
    requires IsRun(ws, ss) && i <= j < |ws| && q in ws[i].accepted
    ensures q in ws[j].accepted
    decreases j
  {
    if i < j {
      AcceptedStays(ws, ss, i, j - 1, q);
      assert ws[j] == Apply(ws[j - 1], ss[j - 1]);
    }
  }

  /** A proof its destination has moved past is never accepted again in any run: a sound ground for "aborted". */
  lemma {:induction false} OvertakenForever(ws: seq<World>, ss: seq<Step>, i: nat, j: nat, q: Proof)
    requires IsRun(ws, ss) && i <= j < |ss| && Overtaken(ws[i], q)
    ensures Overtaken(ws[j], q) && !Accepts(ws[j], ss[j], q)
    decreases j
  {
    if i < j {
      OvertakenForever(ws, ss, i, j - 1, q);
      OvertakenStays(ws[j - 1], ss[j - 1], q);
      assert ws[j] == Apply(ws[j - 1], ss[j - 1]);
    }
    OvertakenStays(ws[j], ss[j], q);
  }

  lemma {:induction false} DeadStays(ws: seq<World>, ss: seq<Step>, i: nat, j: nat, q: Proof)
    requires IsRun(ws, ss) && i <= j < |ws| && q in ws[i].dead
    ensures q in ws[j].dead
    decreases j
  {
    if i < j {
      DeadStays(ws, ss, i, j - 1, q);
      assert ws[j] == Apply(ws[j - 1], ss[j - 1]);
    }
  }

  /** A proof answered "aborted" is never accepted afterwards, however often it is still delivered. */
  lemma AbortedForever(ws: seq<World>, ss: seq<Step>, i: nat, j: nat, q: Proof)
    requires IsRun(ws, ss) && Quiet(ws[0]) && AtMostOneAuthority(ws[0]) && i <= j < |ss| && q in ws[i].dead
    ensures !Accepts(ws[j], ss[j], q)
  {
    DeadStays(ws, ss, i, j, q);
    var t := RunIsSafe(ws, ss, j);
    if Accepts(ws[j], ss[j], q) {
      DeliverIsSafe(ws[j], ss[j], t);
    }
  }

  /** No proof is accepted twice, however often it is delivered and whatever nonces are reissued. */
  lemma AcceptedAtMostOnce(ws: seq<World>, ss: seq<Step>, i: nat, j: nat, q: Proof)
    requires IsRun(ws, ss) && Quiet(ws[0]) && AtMostOneAuthority(ws[0]) && i < |ss| && j < |ss|
    requires Accepts(ws[i], ss[i], q) && Accepts(ws[j], ss[j], q)
    ensures i == j
  {
    if i != j {
      var a, b := if i < j then i else j, if i < j then j else i;
      AcceptedStays(ws, ss, a + 1, b, q);
      var t := RunIsSafe(ws, ss, b);
      DeliverIsSafe(ws[b], ss[b], t);
    }
  }

  // ---------------------------------------------------------------- how often authority can move

  /** The node the token belongs to: its holder, or the source of the proof it travels in. */
  ghost function Owner(t: Token): nat {
    match t case AtNode(n) => n case InFlight(q) => q.source
  }

  /** Everyone but the owner is still at epoch 1; once anything was settled, the owner is beyond it. */
  ghost predicate OwnerLeads(w: World, t: Option<Token>) {
    && (forall n :: n in w.nodes && (t.None? || n != Owner(t.value)) ==> w.nodes[n].epoch == 1)
    && (t.Some? ==> Owner(t.value) in w.nodes && w.nodes[Owner(t.value)].epoch >= 1)
    && (t.Some? && t.value.InFlight? ==> t.value.q.previousEpoch == w.nodes[t.value.q.source].epoch)
    && (t.Some? && (w.accepted != {} || w.dead != {}) ==> w.nodes[Owner(t.value)].epoch >= 2)
  }

  lemma OwnerKeepsLeading(w: World, s: Step, t: Option<Token>)
    requires Safe(w, t) && OwnerLeads(w, t) && Allowed(w, s)
    ensures OwnerLeads(Apply(w, s), TokenAfter(w, s, t))
    ensures s.Deliver? && Accepts(w, s, s.q) ==> w.accepted == {}
  {
    match s
    case Deliver(_, _, _, _, _) => DeliverIsSafe(w, s, t);
    case Reconcile(_, _, _) => ReconcileIsSafe(w, s, t);
    case Fence(_, _, _, _) => assert w.nodes[s.n].authority.Authoritative? ==> Holds(w, AtNode(s.n));
    case _ =>
  }

  lemma {:induction false} OwnerLeadsThroughout(ws: seq<World>, ss: seq<Step>, i: nat) returns (t: Option<Token>)
    requires IsRun(ws, ss) && Quiet(ws[0]) && AtMostOneAuthority(ws[0]) && i < |ws|
    requires forall n :: n in ws[0].nodes ==> ws[0].nodes[n].epoch == 1
    ensures Safe(ws[i], t) && OwnerLeads(ws[i], t)
    decreases i
  {
    if i == 0 {
      t := QuietIsSafe(ws[0]);
      assert t.Some? ==> Holds(ws[0], t.value);
    } else {
      var before := OwnerLeadsThroughout(ws, ss, i - 1);
      StepIsSafe(ws[i - 1], ss[i - 1], before);
      OwnerKeepsLeading(ws[i - 1], ss[i - 1], before);
      t := TokenAfter(ws[i - 1], ss[i - 1], before);
    }
  }

  /**
   In a fleet whose nodes all start at epoch 1, as daemons do, authority moves at most once: a source never
   learns the new epoch, so no other node can match the next proof's previous epoch.
   */
  lemma OnlyOneHandoffSucceeds(ws: seq<World>, ss: seq<Step>, i: nat, j: nat, q: Proof, r: Proof)
    requires IsRun(ws, ss) && Quiet(ws[0]) && AtMostOneAuthority(ws[0]) && i < |ss| && j < |ss|
    requires forall n :: n in ws[0].nodes ==> ws[0].nodes[n].epoch == 1
    requires Accepts(ws[i], ss[i], q) && Accepts(ws[j], ss[j], r)
    ensures i == j
  {
    if i != j {
      var a, b := if i < j then i else j, if i < j then j else i;
      var first := ss[a].q;
      AcceptedStays(ws, ss, a + 1, b, first);
      var t := OwnerLeadsThroughout(ws, ss, b);
      OwnerKeepsLeading(ws[b], ss[b], t);
    }
  }
}
