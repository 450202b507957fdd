/**
 Session handoff between nodes: one node's authority state and the three protocol actions on it,
 first as functions on values, then as the daemon that updates its fields in place.
 */
module Handoff {

  import opened Common

  const FENCING_PROOF_MAGIC := 0x46454E43455F5A45
  const MAX_SESSIONS := 4
  const MAX_TELEMETRY := 8

  datatype Authority = Authoritative | FencedPendingCommit | RemoteCommitted | RecoveryUncertain | AbortedRecovery

  datatype Error = InvalidRequest | PermissionDenied | StaleEndpoint | StaleSessionEpoch | ObjectTableFull | NotFound

  datatype Result<+T> = Ok(value: T) | Err(error: Error)

  datatype Proof = Proof(magic: nat, session: nat, source: nat, dest: nat, previousEpoch: nat, proposedEpoch: nat,
                         nonce: nat, fenceSequence: nat)

  datatype Node = Node(epoch: nat, authority: Authority, nonce: nat, fenceSequence: nat, lastProof: Option<Proof>)

  /** A freshly started daemon. */
  const FRESH := Node(1, Authoritative, 0, 1, None)

  // ---------------------------------------------------------------- the protocol on values

  /** The proof an authoritative source issues when it fences itself. */
  function FencingProof(n: Node, session: nat, source: nat, dest: nat, nonce: nat): Proof {
    Proof(FENCING_PROOF_MAGIC, session, source, dest, n.epoch, n.epoch + 1, nonce, n.fenceSequence + 1)
  }

  function Fenced(n: Node, q: Proof): Node {
    n.(authority := FencedPendingCommit, fenceSequence := n.fenceSequence + 1, lastProof := Some(q))
  }

  /** The eight checks a destination makes before it accepts a proof. */
  predicate Acceptable(n: Node, q: Proof, session: nat, source: nat, dest: nat, nonce: nat) {
    && q.magic == FENCING_PROOF_MAGIC
    && q.session != 0 && q.session == session
    && q.source != 0 && q.source == source
    && q.dest != 0 && q.dest == dest
    && nonce != 0 && q.nonce == nonce && q.nonce == n.nonce
    && q.previousEpoch == n.epoch
    && q.proposedEpoch == q.previousEpoch + 1
    && q.fenceSequence > n.fenceSequence
  }

  function Committed(n: Node, q: Proof): Node {
    n.(epoch := q.proposedEpoch, fenceSequence := q.fenceSequence, authority := Authoritative, nonce := 0)
  }

  /** Recovery of a source that does not know whether its proof was used. */
  function Reconciled(n: Node, committed: bool, aborted: bool): Node {
    if !n.authority.RecoveryUncertain? && !n.authority.FencedPendingCommit? then n
    else if committed then n.(authority := RemoteCommitted)
    else if aborted then n.(epoch := n.epoch + 2, authority := Authoritative)
    else n.(authority := RecoveryUncertain)
  }

  // ---------------------------------------------------------------- the daemon

  datatype Session = Session(id: nat, user: nat, running: bool, workspaces: seq<nat>, active: nat)

  datatype Activity = Activity(agentNode: nat, agentSeq: nat, state: nat, progress: nat)

  datatype Request =
    | Create(user: nat, id: nat)
    | Destroy(session: nat)
    | SwitchWorkspace(session: nat, workspace: nat)
    | SetLayout
    | QueryMembership(session: nat, workspace: nat)
    | Telemetry(activity: Activity)
    | Other

  const DEFAULT_WORKSPACE := 10

  predicate Mutating(q: Request) {
    q.Create? || q.Destroy? || q.SwitchWorkspace? || q.SetLayout?
  }

  /** The first session with this id. */
  ghost predicate IsFirst(ss: seq<Session>, id: nat, i: nat) {
    i < |ss| && ss[i].id == id && forall j :: 0 <= j < i ==> ss[j].id != id
  }

  class SessionDaemon {
    var epoch: nat
    var authority: Authority
    var nonce: nat
    var fenceSequence: nat
    var lastProof: Option<Proof>
    var sessions: seq<Session>
    var telemetry: seq<Activity>

    ghost function View(): Node
      reads this
    {
      Node(epoch, authority, nonce, fenceSequence, lastProof)
    }

    constructor ()
      ensures View() == FRESH && sessions == [] && telemetry == []
    {
      epoch, authority, nonce, fenceSequence, lastProof := 1, Authoritative, 0, 1, None;
      sessions, telemetry := [], [];
    }

    method IssueNonce(v: nat)
      modifies this
      ensures View() == old(View()).(nonce := v) && sessions == old(sessions) && telemetry == old(telemetry)
    {
      nonce := v;
    }

    method ExecuteSourceFence(session: nat, source: nat, dest: nat, destNonce: nat) returns (r: Result<Proof>)
      modifies this
      ensures r.Ok? <==> old(authority).Authoritative?
      ensures r.Err? ==> r.error == StaleSessionEpoch && View() == old(View())
      ensures r.Ok? ==>
        && r.value == FencingProof(old(View()), session, source, dest, destNonce)
        && View() == Fenced(old(View()), r.value)
      ensures sessions == old(sessions)
    {
      if !authority.Authoritative? {
        return Err(StaleSessionEpoch);
      }
      var previous := epoch;
      var proposed := previous + 1;
      authority := FencedPendingCommit;
      var q := Proof(FENCING_PROOF_MAGIC, session, source, dest, previous, proposed, destNonce, fenceSequence + 1);
      fenceSequence := fenceSequence + 1;
      lastProof := Some(q);
      return Ok(q);
    }

    method ReceiveFencingProof(q: Proof, session: nat, source: nat, dest: nat, expectedNonce: nat) returns (r: Result<()>)
      modifies this
      ensures r.Ok? <==> old(Acceptable(View(), q, session, source, dest, expectedNonce))
      ensures View() == if r.Ok? then Committed(old(View()), q) else old(View())
      ensures sessions == old(sessions)
    {
      if q.magic != FENCING_PROOF_MAGIC {
        return Err(InvalidRequest);
      }
      if q.session == 0 || q.session != session {
        return Err(PermissionDenied);
      }
      if q.source == 0 || q.source != source {
        return Err(PermissionDenied);
      }
      if q.dest == 0 || q.dest != dest {
        return Err(PermissionDenied);
      }
      if expectedNonce == 0 || q.nonce != expectedNonce || q.nonce != nonce {
        return Err(StaleEndpoint);
      }
      if q.previousEpoch != epoch {
        return Err(StaleSessionEpoch);
      }
      if q.proposedEpoch != q.previousEpoch + 1 {
        return Err(StaleSessionEpoch);
      }
      if q.fenceSequence <= fenceSequence {
        return Err(StaleSessionEpoch);
      }
      epoch := q.proposedEpoch;
      fenceSequence := q.fenceSequence;
      authority := Authoritative;
      nonce := 0;
      return Ok(());
    }

    method ReconcileRecovery(committed: bool, aborted: bool) returns (state: Authority)
      modifies this
      ensures View() == Reconciled(old(View()), committed, aborted)
      ensures state == authority && sessions == old(sessions)
    {
      if !authority.RecoveryUncertain? && !authority.FencedPendingCommit? {
        return authority;
      }
      if committed {
        authority := RemoteCommitted;
      } else if aborted {
        epoch := epoch + 2;
        authority := Authoritative;
      } else {
        authority := RecoveryUncertain;
      }
      return authority;
    }

    method CheckMutationAuthority(claimed: nat) returns (r: Result<()>)
      ensures r.Ok? <==> authority.Authoritative? && (claimed == 0 || claimed == epoch)
      ensures r.Err? ==> r.error == StaleSessionEpoch
    {
      if !authority.Authoritative? {
        return Err(StaleSessionEpoch);
      }
      if claimed > 0 && claimed != epoch {
        return Err(StaleSessionEpoch);
      }
      return Ok(());
    }

    /** A session table can only be changed where the node is authoritative, and never changes the authority. */
    method Dispatch(q: Request) returns (r: Result<()>)
      modifies this
      ensures View() == old(View())
      ensures sessions != old(sessions) ==> Mutating(q) && authority.Authoritative?
      ensures Mutating(q) && r.Ok? ==> authority.Authoritative?
      ensures Mutating(q) && !authority.Authoritative? ==> r == Err(StaleSessionEpoch)
      ensures q.Create? ==>
        (r.Ok? <==> authority.Authoritative? && |old(sessions)| < MAX_SESSIONS)
      ensures q.Create? && r.Ok? ==>
        sessions == old(sessions) + [Session(q.id, q.user, true, [DEFAULT_WORKSPACE], DEFAULT_WORKSPACE)]
      ensures q.Destroy? ==>
        (r.Ok? <==> authority.Authoritative? && exists i: nat :: IsFirst(old(sessions), q.session, i))
      ensures q.Destroy? && r.Ok? ==> exists i: nat ::
        IsFirst(old(sessions), q.session, i) && sessions == old(sessions)[i := old(sessions)[i].(running := false)]
      ensures q.SwitchWorkspace? ==>
        (r.Ok? <==> authority.Authoritative? && exists i: nat ::
           IsFirst(old(sessions), q.session, i) && q.workspace in old(sessions)[i].workspaces)
      ensures q.SwitchWorkspace? && r.Ok? ==> exists i: nat ::
        IsFirst(old(sessions), q.session, i) && sessions == old(sessions)[i := old(sessions)[i].(active := q.workspace)]
      ensures q.QueryMembership? ==>
        (r.Ok? <==> exists i: nat :: IsFirst(old(sessions), q.session, i) && q.workspace in old(sessions)[i].workspaces)
      ensures r.Err? ==> sessions == old(sessions)
      ensures q.Telemetry? ==> r.Ok?
      ensures telemetry == if q.Telemetry? && |old(telemetry)| < MAX_TELEMETRY then old(telemetry) + [q.activity] else old(telemetry)
    {
      if Mutating(q) {
        var gate := CheckMutationAuthority(epoch);
        if gate.Err? {
          return gate;
        }
      }
      match q
      case Create(user, id) =>
        if |sessions| >= MAX_SESSIONS {
          return Err(ObjectTableFull);
        }
        sessions := sessions + [Session(id, user, true, [DEFAULT_WORKSPACE], DEFAULT_WORKSPACE)];
        return Ok(());
      case Destroy(session) =>
        var i := Find(session);
        if i == |sessions| {
          return Err(NotFound);
        }
        sessions := sessions[i := sessions[i].(running := false)];
        return Ok(());
      case SwitchWorkspace(session, workspace) =>
        var i := Find(session);
        if i == |sessions| {
          return Err(NotFound);
        }
        if workspace !in sessions[i].workspaces {
          return Err(PermissionDenied);
        }
        sessions := sessions[i := sessions[i].(active := workspace)];
        return Ok(());
      case QueryMembership(session, workspace) =>
        var i := Find(session);
        if i == |sessions| {
          return Err(NotFound);
        }
        return if workspace in sessions[i].workspaces then Ok(()) else Err(PermissionDenied);
      case Telemetry(activity) =>
        if |telemetry| < MAX_TELEMETRY {
          telemetry := telemetry + [activity];
        }
        return Ok(());
      case SetLayout =>
        return Err(InvalidRequest);
      case Other =>
        return Err(InvalidRequest);
    }

    /** The first session with this id, or the length of the table. */
    method Find(id: nat) returns (i: nat)
      ensures if i < |sessions| then IsFirst(sessions, id, i) else i == |sessions| && forall j :: 0 <= j < i ==> sessions[j].id != id
    {
      i := 0;
      while i < |sessions|
        invariant 0 <= i <= |sessions|
        invariant forall j :: 0 <= j < i ==> sessions[j].id != id
      {
        if sessions[i].id == id {
          return;
        }
        i := i + 1;
      }
    }
  }
}
