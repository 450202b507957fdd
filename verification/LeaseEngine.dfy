/**
 The lease engine: grants, returns, renews and quarantines leases, moving capacity in the accounting manager as
 it goes. The quarantine ledger is outside the model.
 */
module LeaseEngine {
  import opened Common
  import opened Capacity
  import opened Coupling
  import opened Accounting
  import opened LeaseBooks

  const U32 := 0x1_0000_0000

  class Engine {
    const leases: array<Option<Lease>>
    var leaseCount: nat

    ghost function View(a: AccountingManager): Books
      reads this, leases, a, a.domains, a.quotas
    {
      Books(leases[..], leaseCount, a.domains[..], a.domainCount, a.quotas[..])
    }

    ghost predicate Valid(a: AccountingManager)
      reads this, leases, a, a.domains, a.quotas
    {
      && leases.Length == MAX_LEASES && a.Shaped()
      && leases as object != a.domains && leases as object != a.quotas
      && Balanced(View(a))
    }

    constructor (a: AccountingManager)
      requires a.Shaped() && a.domainCount == 0
      ensures Valid(a) && fresh(leases)
      ensures forall s :: 0 <= s < MAX_LEASES ==> leases[s].None?
    {
      leases := new Option<Lease>[MAX_LEASES](_ => None);
      leaseCount := 0;
      new;
      NothingOccupied(leases[..], MAX_LEASES);
    }

    /** The first free slot, or the length of the table. */
    method FreeSlot() returns (s: nat)
      ensures s <= leases.Length && (s < leases.Length ==> leases[s].None?)
      ensures forall j :: 0 <= j < s ==> leases[j].Some?
    {
      s := 0;
      while s < leases.Length
        invariant s <= leases.Length
        invariant forall j :: 0 <= j < s ==> leases[j].Some?
      {
        if leases[s].None? {
          return;
        }
        s := s + 1;
      }
    }

    /** The first lease with this id, or the length of the table. */
    method Find(id: DistributedId) returns (s: nat)
      ensures s <= leases.Length && (s < leases.Length ==> leases[s].Some? && leases[s].value.id == id)
      ensures forall j :: 0 <= j < s ==> !(leases[j].Some? && leases[j].value.id == id)
    {
      s := 0;
      while s < leases.Length
        invariant s <= leases.Length
        invariant forall j :: 0 <= j < s ==> !(leases[j].Some? && leases[j].value.id == id)
      {
        if leases[s].Some? && leases[s].value.id == id {
          return;
        }
        s := s + 1;
      }
    }

    // -------------------------------------------------------------- granting

    /** What a request needs in order to be granted. */
    ghost predicate Grantable(B: Books, resource: DistributedId, entity: nat, amount: Vector, end: nat, coverage: bool,
                              coupling: Option<seq<Row>>)
      requires Balanced(B) && (coupling.Some? ==> ValidMatrix(coupling.value))
    {
      && coverage && end <= U64_MAX && QuotaCovers(B.quotas, entity, amount) && Registered(B, resource)
      && Below(amount, B.domains[DomainOf(B, resource)].avail)
      && (coupling.Some? ==> Passes(coupling.value, Admitted(B.domains[DomainOf(B, resource)], amount).alloc))
      && exists s :: 0 <= s < MAX_LEASES && B.leases[s].None?
    }

    /**
     Grants a lease. A refused request on a registered resource changes no capacity and no quota amount; one on
     an unknown resource leaves the quota charged.
     */
    method Request(a: AccountingManager, id: DistributedId, resource: DistributedId, entity: nat, channel: nat,
                   amount: Vector, duration: nat, now: nat, coverage: bool, coupling: Option<seq<Row>>)
      returns (r: Result<Lease>, ghost s: nat)
      requires Valid(a) && (coupling.Some? ==> ValidMatrix(coupling.value))
      modifies this, leases, a.domains, a.quotas
      ensures Valid(a)
      ensures r.Ok? <==> Grantable(old(View(a)), resource, entity, amount, now + duration, coverage, coupling)
      ensures r.Ok? ==>
        && r.value == Lease(id, resource, 1, Active, amount, now, now + duration, entity, channel)
        && Grants(old(View(a)), s, r.value, View(a))
        && exists k: nat :: Charged(old(a.quotas[..]), entity, amount, k, a.quotas[..])
      ensures r.Err? && Registered(old(View(a)), resource) ==> SameAmounts(old(View(a)), View(a))
      ensures r.Err? && !Registered(old(View(a)), resource) ==>
        if coverage && now + duration <= U64_MAX && QuotaCovers(old(a.quotas[..]), entity, amount) then
          && View(a) == old(View(a)).(quotas := a.quotas[..])
          && exists k: nat :: Charged(old(a.quotas[..]), entity, amount, k, a.quotas[..])
        else View(a) == old(View(a))
      ensures old(QuotasAgree(View(a))) && Registered(old(View(a)), resource) ==> QuotasAgree(View(a))
    {
      hide Agrees, Conserved, FindDomain, SumWhere, Below, Fits, Occupied, Plus, Minus, QuotasAgree, IsQuotaOf, Grants;
      s := 0;
      ghost var B := View(a);
      if !coverage {
        return Err(PermissionDenied), s;
      }
      if now + duration > U64_MAX {
        return Err(DeadlineExhaustion), s;
      }
      var charge, k := a.ChargeQuota(entity, amount);
      ChargeDecides(B.quotas, entity, amount, k);
      if charge.Err? {
        return Err(charge.error), s;
      }
      ghost var Q := a.quotas[..];
      assert Charged(B.quotas, entity, amount, k, Q);
      var d := a.Find(resource);
      BalanceIgnoresQuotas(B, View(a));
      if d == a.domainCount {
        return Err(NotFound), s;
      }
      var lease := Lease(id, resource, 1, Active, amount, now, now + duration, entity, channel);
      r, s := GrantIn(a, d, lease, coupling, B, k);
    }

    /** The charged half of a grant: admit into domain `d`, find a slot, undo everything if there is none. */
    method GrantIn(a: AccountingManager, d: nat, lease: Lease, coupling: Option<seq<Row>>, ghost B: Books, ghost k: nat)
      returns (r: Result<Lease>, ghost s: nat)
      requires leases.Length == MAX_LEASES && a.Shaped() && leases as object != a.domains && leases as object != a.quotas
      requires Balanced(B) && View(a) == B.(quotas := a.quotas[..]) && lease.state.Active?
      requires Charged(B.quotas, lease.holder, lease.amount, k, a.quotas[..])
      requires d == DomainOf(B, lease.resource) && d < B.domainCount
      requires coupling.Some? ==> ValidMatrix(coupling.value)
      modifies this, leases, a.domains, a.quotas
      ensures Balanced(View(a))
      ensures r.Ok? <==>
        && Below(lease.amount, B.domains[d].avail)
        && (coupling.Some? ==> Passes(coupling.value, Admitted(B.domains[d], lease.amount).alloc))
        && exists s :: 0 <= s < MAX_LEASES && B.leases[s].None?
      ensures r.Ok? ==> r.value == lease && Grants(B, s, lease, View(a)) && a.quotas[..] == old(a.quotas[..])
      ensures r.Err? ==> SameAmounts(B, View(a))
      ensures QuotasAgree(B) ==> QuotasAgree(View(a))
    {
      hide Agrees, Conserved, FindDomain, SumWhere, Below, Fits, Occupied, Plus, Minus, QuotasAgree, IsQuotaOf, SameAmounts, Charged;
      s := 0;
      assert Healthy(B.domains[d]);
      var admitted := a.Admit(d, lease.amount, coupling);
      if admitted.Err? {
        UndoCharge(a, lease, B, k);
        return Err(admitted.error), s;
      }
      var slot := FreeSlot();
      s := slot;
      if slot < leases.Length {
        leases[slot] := Some(lease);
        leaseCount := leaseCount + 1;
        assert Grants(B, s, lease, View(a));
        GrantKeepsBalance(B, s, lease, View(a));
        if QuotasAgree(B) { ChargeForGrant(B, s, lease, k, View(a)); }
        return Ok(lease), s;
      }
      AdmitThenRelease(B.domains[d], lease.amount);
      var undo := a.Release(d, lease.amount);
      UndoCharge(a, lease, B, k);
      return Err(ObjectTableFull), s;
    }

    /** Refunds a charge, after which the books carry the amounts they had before it. */
    method UndoCharge(a: AccountingManager, lease: Lease, ghost B: Books, ghost k: nat)
      requires leases.Length == MAX_LEASES && a.Shaped() && leases as object != a.domains && leases as object != a.quotas
      requires Balanced(B) && Charged(B.quotas, lease.holder, lease.amount, k, a.quotas[..])
      requires View(a).leases == B.leases && View(a).count == B.count && View(a).domainCount == B.domainCount
      requires forall i :: 0 <= i < MAX_DOMAINS ==> SameDomain(B.domains[i], a.domains[i])
      modifies a.quotas
      ensures SameAmounts(B, View(a)) && Balanced(View(a)) && (QuotasAgree(B) ==> QuotasAgree(View(a)))
    {
      hide Agrees, Conserved, FindDomain, SumWhere, Below, Fits, Occupied, Plus, Minus, QuotasAgree, IsQuotaOf, Balanced, Charged;
      BalancedShape(B);
      ghost var Q := a.quotas[..];
      var _, j := a.RefundQuota(lease.holder, lease.amount);
      ChargeThenRefund(B.quotas, lease.holder, lease.amount, k, Q, j, a.quotas[..]);
      RolledBack(B, View(a));
    }

    // -------------------------------------------------------------- returning and renewing

    /** Returns a lease to its resource. Giving its capacity back can not fail. */
    method Return(a: AccountingManager, id: DistributedId, generation: nat) returns (r: Result<()>, ghost s: nat)
      requires Valid(a)
      modifies this, leases, a.domains, a.quotas
      ensures Valid(a)
      ensures s <= MAX_LEASES && forall j :: 0 <= j < s ==> !(old(leases[j]).Some? && old(leases[j]).value.id == id)
      ensures r.Ok? <==>
        && s < MAX_LEASES && old(leases[s]).Some? && old(leases[s]).value.id == id
        && old(leases[s]).value.generation == generation && old(leases[s]).value.state.Active?
      ensures r.Ok? ==>
        var l := old(leases[s]).value;
        var d := DomainOf(old(View(a)), l.resource);
        && d < a.domainCount && Conserved(old(a.domains[..])[d]) && Below(l.amount, old(a.domains[..])[d].alloc)
        && Ends(old(View(a)), s, None, GivenBack(old(a.domains[..])[d], l.amount), View(a))
        && exists k: nat :: Refunded(old(a.quotas[..]), l.holder, l.amount, k, a.quotas[..])
      ensures r.Err? ==> View(a) == old(View(a))
      ensures old(QuotasAgree(View(a))) ==> QuotasAgree(View(a))
    {
      hide Agrees, Conserved, FindDomain, SumWhere, Below, Fits, Occupied, Plus, Minus, QuotasAgree, IsQuotaOf;
      ghost var B := View(a);
      var i := Find(id);
      s := i;
      if i == leases.Length {
        return Err(NotFound), s;
      }
      if leases[i].value.generation != generation {
        return Err(GenerationMismatch), s;
      }
      if !leases[i].value.state.Active? {
        return Err(InvalidRequest), s;
      }
      EndingIsHealthy(B, s);
      var l := leases[i].value;
      leases[i] := Some(l.(state := Released));
      var d := a.Find(l.resource);
      var given := a.Release(d, l.amount);
      var _, k := a.RefundQuota(l.holder, l.amount);
      assert Refunded(B.quotas, l.holder, l.amount, k, a.quotas[..]);
      leases[i] := None;
      if leaseCount > 0 {
        leaseCount := leaseCount - 1;
      }
      assert leases[..] == B.leases[i := None];
      assert Ends(B, s, None, GivenBack(B.domains[d], l.amount), View(a));
      EndKeepsBalance(B, s, None, GivenBack(B.domains[d], l.amount), View(a));
      if QuotasAgree(B) { ReturnKeepsQuotas(B, s, k, View(a)); }
      return Ok(()), s;
    }

    /** Renews an active lease; its generation moves on, so the old token is no longer good. */
    method Renew(a: AccountingManager, id: DistributedId, generation: nat, extra: nat, now: nat)
      returns (r: Result<nat>, ghost s: nat)
      requires Valid(a)
      modifies leases
      ensures Valid(a)
      ensures s <= MAX_LEASES && forall j :: 0 <= j < s ==> !(old(leases[j]).Some? && old(leases[j]).value.id == id)
      ensures r.Ok? <==>
        && s < MAX_LEASES && old(leases[s]).Some? && old(leases[s]).value.id == id
        && old(leases[s]).value.generation == generation && old(leases[s]).value.state.Active? && now + extra <= U64_MAX
      ensures r.Ok? ==>
        && r.value == now + extra
        && leases[..] == old(leases[..])[s := Some(old(leases[s]).value.(expires := now + extra, generation := (generation + 1) % U32))]
      ensures r.Err? ==> leases[..] == old(leases[..])
      ensures old(QuotasAgree(View(a))) ==> QuotasAgree(View(a))
    {
      hide Agrees, Conserved, FindDomain, SumWhere, Occupied, QuotasAgree;
      ghost var B := View(a);
      var i := Find(id);
      s := i;
      if i == leases.Length {
        return Err(NotFound), s;
      }
      if leases[i].value.generation != generation {
        return Err(GenerationMismatch), s;
      }
      if !leases[i].value.state.Active? {
        return Err(InvalidRequest), s;
      }
      if now + extra > U64_MAX {
        return Err(DeadlineExhaustion), s;
      }
      var l := leases[i].value.(expires := now + extra, generation := (generation + 1) % U32);
      leases[i] := Some(l);
      LeaseChangeKeepsBalance(B, s, l, View(a));
      return Ok(now + extra), s;
    }

    /** After a crash: a surviving lease may be re-attested, but never for longer than it had left. */
    method Reattest(a: AccountingManager, id: DistributedId, now: nat, policyMax: nat) returns (r: Result<nat>, ghost s: nat)
      requires Valid(a)
      modifies leases
      ensures Valid(a)
      ensures s <= MAX_LEASES && forall j :: 0 <= j < s ==> !(old(leases[j]).Some? && old(leases[j]).value.id == id)
      ensures r.Ok? <==>
        s < MAX_LEASES && old(leases[s]).Some? && old(leases[s]).value.id == id && now < old(leases[s]).value.expires
      ensures r.Ok? ==>
        && r.value <= policyMax && now + r.value <= old(leases[s]).value.expires
        && (r.value == policyMax || now + r.value == old(leases[s]).value.expires)
        && leases[..] == old(leases[..])[s := Some(old(leases[s]).value.(generation := (old(leases[s]).value.generation + 1) % U32))]
      ensures r.Err? ==> leases[..] == old(leases[..])
      ensures old(QuotasAgree(View(a))) ==> QuotasAgree(View(a))
    {
      hide Agrees, Conserved, FindDomain, SumWhere, Occupied, QuotasAgree;
      ghost var B := View(a);
      var i := Find(id);
      s := i;
      if i == leases.Length {
        return Err(NotFound), s;
      }
      var l := leases[i].value;
      if now >= l.expires {
        return Err(PermissionDenied), s;
      }
      var remaining := l.expires - now;
      var window := if remaining < policyMax then remaining else policyMax;
      leases[i] := Some(l.(generation := (l.generation + 1) % U32));
      LeaseChangeKeepsBalance(B, s, leases[i].value, View(a));
      return Ok(window), s;
    }

    // -------------------------------------------------------------- quarantine

    /** Ends one active lease in place and quarantines its capacity. */
    method QuarantineSlot(a: AccountingManager, s: nat, state: LeaseState)
      requires Valid(a) && s < MAX_LEASES && leases[s].Some? && leases[s].value.state.Active? && !state.Active?
      modifies leases, a.domains
      ensures Valid(a)
      ensures leases[..] == old(leases[..])[s := Some(old(leases[s]).value.(state := state))]
      ensures OnlyQuarantined(old(a.domains[..]), a.domains[..])
      ensures old(QuotasAgree(View(a))) ==> QuotasAgree(View(a))
    {
      hide Agrees, Conserved, FindDomain, SumWhere, Below, Fits, Occupied, Plus, Minus, QuotasAgree, OnlyQuarantined;
      ghost var B := View(a);
      EndingIsHealthy(B, s);
      var l := leases[s].value;
      leases[s] := Some(l.(state := state));
      var d := a.Find(l.resource);
      var moved := a.Quarantine(d, l.amount);
      ghost var e := Quarantined(B.domains[d], l.amount);
      assert Ends(B, s, leases[s], e, View(a));
      EndKeepsBalance(B, s, leases[s], e, View(a));
      QuarantineOnlyMoves(B.domains, d, l.amount);
      if QuotasAgree(B) { StateChangeKeepsQuotas(B, s, state, View(a)); }
    }

    /** Time authority is lost: every active lease ends; nothing becomes available. */
    method LoseTimeAuthority(a: AccountingManager)
      requires Valid(a)
      modifies leases, a.domains
      ensures Valid(a)
      ensures forall s :: 0 <= s < MAX_LEASES ==> leases[s] == Ended(old(leases[s]), TimeAuthorityLost)
      ensures OnlyQuarantined(old(a.domains[..]), a.domains[..])
      ensures old(QuotasAgree(View(a))) ==> QuotasAgree(View(a))
    {
      hide Balanced, QuotasAgree, OnlyQuarantined;
      OnlyQuarantinedReflexive(a.domains[..]);
      for s := 0 to leases.Length
        invariant Valid(a)
        invariant forall j :: 0 <= j < s ==> leases[j] == Ended(old(leases[j]), TimeAuthorityLost)
        invariant forall j :: s <= j < MAX_LEASES ==> leases[j] == old(leases[j])
        invariant OnlyQuarantined(old(a.domains[..]), a.domains[..])
        invariant old(QuotasAgree(View(a))) ==> QuotasAgree(View(a))
      {
        if leases[s].Some? && leases[s].value.state.Active? {
          ghost var D := a.domains[..];
          QuarantineSlot(a, s, TimeAuthorityLost);
          OnlyQuarantinedComposes(old(a.domains[..]), D, a.domains[..]);
        }
      }
    }

    /** A client is gone: its active leases end, quarantined. */
    method ClosePeer(a: AccountingManager, channel: nat)
      requires Valid(a)
      modifies leases, a.domains
      ensures Valid(a)
      ensures forall s :: 0 <= s < MAX_LEASES ==>
        leases[s] == if old(leases[s]).Some? && old(leases[s]).value.channel == channel then Ended(old(leases[s]), Released)
                     else old(leases[s])
      ensures OnlyQuarantined(old(a.domains[..]), a.domains[..])
      ensures old(QuotasAgree(View(a))) ==> QuotasAgree(View(a))
    {
      hide Balanced, QuotasAgree, OnlyQuarantined;
      OnlyQuarantinedReflexive(a.domains[..]);
      for s := 0 to leases.Length
        invariant Valid(a)
        invariant forall j :: 0 <= j < s ==>
          leases[j] == if old(leases[j]).Some? && old(leases[j]).value.channel == channel then Ended(old(leases[j]), Released)
                       else old(leases[j])
        invariant forall j :: s <= j < MAX_LEASES ==> leases[j] == old(leases[j])
        invariant OnlyQuarantined(old(a.domains[..]), a.domains[..])
        invariant old(QuotasAgree(View(a))) ==> QuotasAgree(View(a))
      {
        if leases[s].Some? && leases[s].value.channel == channel && leases[s].value.state.Active? {
          ghost var D := a.domains[..];
          QuarantineSlot(a, s, Released);
          OnlyQuarantinedComposes(old(a.domains[..]), D, a.domains[..]);
        }
      }
    }

    /** A provider is gone: its whole domain becomes unavailable and its active leases end. */
    method LoseProvider(a: AccountingManager, resource: DistributedId)
      requires Valid(a)
      modifies leases, a.domains
      ensures Valid(a)
      ensures LosesProvider(old(View(a)), resource, View(a))
      ensures old(QuotasAgree(View(a))) ==> QuotasAgree(View(a))
    {
      hide Agrees, Conserved, FindDomain, SumWhere, Occupied, QuotasAgree;
      ghost var B := View(a);
      var d := a.Find(resource);
      if d < a.domainCount {
        assert Healthy(B.domains[d]);
        var _ := a.LoseProvider(d);
      }
      ghost var D := a.domains[..];
      for s := 0 to leases.Length
        invariant a.domains[..] == D
        invariant forall j :: 0 <= j < s ==> leases[j] == AfterProviderLoss(B.leases[j], resource)
        invariant forall j :: s <= j < MAX_LEASES ==> leases[j] == B.leases[j]
      {
        if leases[s].Some? && leases[s].value.resource == resource && leases[s].value.state.Active? {
          leases[s] := Some(leases[s].value.(state := ProviderLost));
        }
      }
      assert LosesProvider(B, resource, View(a));
      ProviderLossKeepsBalance(B, resource, View(a));
      if QuotasAgree(B) { ProviderLossKeepsQuotas(B, resource, View(a)); }
    }

    /** The driver confirms a release: unavailable capacity of a resource becomes available again. */
    method ConfirmDriverRelease(a: AccountingManager, resource: DistributedId, amount: Vector) returns (r: Result<()>)
      requires Valid(a)
      modifies a.domains
      ensures Valid(a)
      ensures r.Ok? <==>
        var d := DomainOf(old(View(a)), resource);
        d < a.domainCount && Below(amount, old(a.domains[..])[d].unavail)
      ensures r.Ok? ==>
        var d := DomainOf(old(View(a)), resource);
        Conserved(old(a.domains[..])[d]) && a.domains[..] == old(a.domains[..])[d := Confirmed(old(a.domains[..])[d], amount)]
      ensures r.Err? ==> a.domains[..] == old(a.domains[..])
    {
      hide Agrees, Conserved, FindDomain, SumWhere, Occupied, Below, Fits, Plus, Minus;
      ghost var B := View(a);
      var d := a.Find(resource);
      if d == a.domainCount {
        return Err(NotFound);
      }
      assert Healthy(B.domains[d]);
      TransfersConserve(B.domains[d], amount);
      r := a.Confirm(d, amount);
      if r.Ok? {
        DomainChangeKeepsBalance(B, d, Confirmed(B.domains[d], amount), View(a));
      }
    }
  }

  /** What ending does to one slot. */
  function Ended(o: Option<Lease>, state: LeaseState): Option<Lease> {
    if o.Some? && o.value.state.Active? then Some(o.value.(state := state)) else o
  }

  /** Capacity only moved from the allocated to the unavailable part. */
  ghost predicate OnlyQuarantined(D: seq<Domain>, E: seq<Domain>) {
    && |D| == |E|
    && forall k :: 0 <= k < |D| ==>
         && E[k].id == D[k].id && E[k].phys == D[k].phys && E[k].avail == D[k].avail && E[k].resv == D[k].resv
         && forall i :: 0 <= i < DIMS ==>
              && E[k].alloc.dims[i] <= D[k].alloc.dims[i]
              && E[k].alloc.dims[i] + E[k].unavail.dims[i] == D[k].alloc.dims[i] + D[k].unavail.dims[i]
  }

  lemma QuarantineOnlyMoves(D: seq<Domain>, k: int, v: Vector)
    requires 0 <= k < |D| && Conserved(D[k]) && Below(v, D[k].alloc)
    ensures OnlyQuarantined(D, D[k := Quarantined(D[k], v)])
  {
  }

  lemma OnlyQuarantinedReflexive(D: seq<Domain>)
    ensures OnlyQuarantined(D, D)
  {
  }

  lemma OnlyQuarantinedComposes(D: seq<Domain>, E: seq<Domain>, F: seq<Domain>)
    requires OnlyQuarantined(D, E) && OnlyQuarantined(E, F)
    ensures OnlyQuarantined(D, F)
  {
  }

  /** Ending an active lease by moving its amount out of the allocated part. */
  lemma EndingIsHealthy(B: Books, s: int)
    requires Balanced(B) && 0 <= s < MAX_LEASES && B.leases[s].Some? && B.leases[s].value.state.Active?
    ensures var l := B.leases[s].value;
      var d := DomainOf(B, l.resource);
      && d < B.domainCount && B.count > 0 && Conserved(B.domains[d]) && Below(l.amount, B.domains[d].alloc)
      && Healthy(GivenBack(B.domains[d], l.amount)) && Healthy(Quarantined(B.domains[d], l.amount))
      && forall i :: 0 <= i < DIMS ==>
           && GivenBack(B.domains[d], l.amount).alloc.dims[i] + l.amount.dims[i] == B.domains[d].alloc.dims[i]
           && Quarantined(B.domains[d], l.amount).alloc.dims[i] + l.amount.dims[i] == B.domains[d].alloc.dims[i]
  {
    var l := B.leases[s].value;
    ActiveIsAllocated(B, s);
    OccupiedSlotIsCounted(B, s);
    assert Healthy(B.domains[DomainOf(B, l.resource)]);
    TransfersConserve(B.domains[DomainOf(B, l.resource)], l.amount);
  }

  lemma BalanceIgnoresQuotas(A: Books, B: Books)
    requires Balanced(A) && Shape(B) && B == A.(quotas := B.quotas)
    ensures Balanced(B)
  {
    forall id ensures Agrees(B, id) { assert Agrees(A, id); }
  }

  lemma ChargeDecides(Q: seq<Quota>, e: nat, v: Vector, k: nat)
    requires IsQuotaOf(Q, e, k)
    ensures QuotaCovers(Q, e, v) <==> (k < |Q| ==> Fits(Q[k].used, v) && Below(Plus(Q[k].used, v), Q[k].max))
  {
  }

  lemma BalancedShape(B: Books)
    requires Balanced(B)
    ensures Shape(B)
  {
  }

  lemma ChargeForGrant(A: Books, s: int, l: Lease, k: nat, B: Books)
    requires QuotasAgree(A) && Balanced(A) && Grants(A, s, l, B) && Shape(B) && Charged(A.quotas, l.holder, l.amount, k, B.quotas)
    ensures QuotasAgree(B)
  {
    hide Agrees, Conserved, FindDomain, SumWhere, Below, Fits, Plus, QuotasAgree, IsQuotaOf;
    GrantKeepsQuotas(A, s, l, k, B);
  }

  /** After a rollback the books carry the same amounts as before. */
  lemma RolledBack(A: Books, B: Books)
    requires Balanced(A) && Shape(B) && A.leases == B.leases && A.count == B.count && A.domainCount == B.domainCount
    requires forall k :: 0 <= k < MAX_DOMAINS ==> SameDomain(A.domains[k], B.domains[k])
    requires forall k :: 0 <= k < MAX_QUOTAS ==> SameQuota(A.quotas[k], B.quotas[k])
    ensures SameAmounts(A, B) && Balanced(B) && (QuotasAgree(A) ==> QuotasAgree(B))
  {
    SameAmountsSameBalance(A, B);
    if QuotasAgree(A) { SameAmountsSameQuotas(A, B); }
  }

  lemma {:induction false} NothingOccupied(L: Table, n: nat)
    requires n <= |L| && forall s :: 0 <= s < |L| ==> L[s].None?
    ensures Occupied(L, n) == 0
  {
    if n > 0 {
      NothingOccupied(L, n - 1);
    }
  }
}
