/**
 Accounting domains: the physical capacity of one resource split into available, reserved, allocated and
 unavailable parts, and the transfers between those parts.
 */
module Accounting {
  import opened Common
  import opened Capacity
  import opened Coupling

  const MAX_DOMAINS := 64
  const MAX_QUOTAS := 32

  datatype Domain = Domain(id: DistributedId, phys: Vector, avail: Vector, resv: Vector, alloc: Vector,
                           unavail: Vector, locked: bool)

  datatype Quota = Quota(entity: nat, max: Vector, used: Vector, active: bool)

  const NO_DOMAIN := Domain(DistributedId(0, 0), EMPTY, EMPTY, EMPTY, EMPTY, EMPTY, false)
  const NO_QUOTA := Quota(0, EMPTY, EMPTY, false)

  ghost function Parts(d: Domain, i: int): nat
    requires 0 <= i < DIMS
  {
    d.avail.dims[i] + d.resv.dims[i] + d.alloc.dims[i] + d.unavail.dims[i]
  }

  /** In every dimension the four parts add up to the physical capacity. */
  ghost predicate Conserved(d: Domain) {
    forall i :: 0 <= i < DIMS ==> Parts(d, i) == d.phys.dims[i]
  }

  // ---------------------------------------------------------------- transfers

  ghost function Admitted(d: Domain, v: Vector): Domain
    requires Conserved(d) && Below(v, d.avail)
  {
    PartsFit(d);
    d.(avail := Minus(d.avail, v), alloc := Plus(d.alloc, v))
  }

  ghost function GivenBack(d: Domain, v: Vector): Domain
    requires Conserved(d) && Below(v, d.alloc)
  {
    PartsFit(d);
    d.(alloc := Minus(d.alloc, v), avail := Plus(d.avail, v))
  }

  ghost function Quarantined(d: Domain, v: Vector): Domain
    requires Conserved(d) && Below(v, d.alloc)
  {
    PartsFit(d);
    d.(alloc := Minus(d.alloc, v), unavail := Plus(d.unavail, v))
  }

  ghost function Confirmed(d: Domain, v: Vector): Domain
    requires Conserved(d) && Below(v, d.unavail)
  {
    PartsFit(d);
    d.(unavail := Minus(d.unavail, v), avail := Plus(d.avail, v))
  }

  ghost function Reserved(d: Domain, v: Vector): Domain
    requires Conserved(d) && Below(v, d.avail)
  {
    PartsFit(d);
    d.(avail := Minus(d.avail, v), resv := Plus(d.resv, v))
  }

  /** Everything becomes unavailable. */
  ghost function AllLost(d: Domain): Domain
  {
    var none: Vector := RawVector(ZERO_DIMS, d.phys.count);
    d.(unavail := RawVector(d.phys.dims, d.phys.count), avail := none, resv := none, alloc := none)
  }

  /** Moving an amount between two parts never overflows a part. */
  lemma PartsFit(d: Domain)
    requires Conserved(d)
    ensures forall v: Vector :: Below(v, d.avail) ==> Fits(d.alloc, v) && Fits(d.resv, v)
    ensures forall v: Vector :: Below(v, d.alloc) ==> Fits(d.avail, v) && Fits(d.unavail, v)
    ensures forall v: Vector :: Below(v, d.unavail) ==> Fits(d.avail, v)
  {
    forall i | 0 <= i < DIMS
      ensures d.avail.dims[i] + d.alloc.dims[i] <= U64_MAX && d.avail.dims[i] + d.resv.dims[i] <= U64_MAX
      ensures d.alloc.dims[i] + d.unavail.dims[i] <= U64_MAX && d.avail.dims[i] + d.unavail.dims[i] <= U64_MAX
    {
      assert Parts(d, i) == d.phys.dims[i] <= U64_MAX;
    }
  }

  lemma TransfersConserve(d: Domain, v: Vector)
    requires Conserved(d)
    ensures Below(v, d.avail) ==> Conserved(Admitted(d, v)) && Conserved(Reserved(d, v))
    ensures Below(v, d.alloc) ==> Conserved(GivenBack(d, v)) && Conserved(Quarantined(d, v))
    ensures Below(v, d.unavail) ==> Conserved(Confirmed(d, v))
    ensures Conserved(AllLost(d))
  {
  }

  // ---------------------------------------------------------------- the manager

  lemma LossConserves(d: Domain)
    requires Conserved(d)
    ensures Conserved(AllLost(d))
  {
  }

  /** The first domain of this id among the first `n`, or `n`. */
  ghost function FindDomain(D: seq<Domain>, n: nat, id: DistributedId): (k: nat)
    requires n <= |D|
    ensures k <= n && (k < n ==> D[k].id == id)
    ensures forall j :: 0 <= j < k ==> D[j].id != id
  {
    if n == 0 then 0
    else
      var k := FindDomain(D, n - 1, id);
      if k < n - 1 then k else if D[n - 1].id == id then n - 1 else n
  }

  /** The first active quota of this entity, or the length of the table. */
  ghost predicate IsQuotaOf(Q: seq<Quota>, e: nat, k: nat) {
    && k <= |Q| && (k < |Q| ==> Q[k].active && Q[k].entity == e)
    && forall j :: 0 <= j < k ==> !(Q[j].active && Q[j].entity == e)
  }

  /** Entry `k` is now the entity's quota: the ceiling of an existing one changed, or a new one opened. */
  ghost predicate QuotaSet(Q: seq<Quota>, e: nat, max: Vector, k: nat, R: seq<Quota>) {
    && k < |Q|
    && if IsQuotaOf(Q, e, k) then R == Q[k := Q[k].(max := max)]
       else
         && IsQuotaOf(Q, e, |Q|) && !Q[k].active
         && R == Q[k := Quota(e, max, RawVector(ZERO_DIMS, max.count), true)]
  }

  class AccountingManager {
    const domains: array<Domain>
    var domainCount: nat
    const quotas: array<Quota>

    ghost predicate Shaped()
      reads this
    {
      domains.Length == MAX_DOMAINS && domainCount <= MAX_DOMAINS && quotas.Length == MAX_QUOTAS && domains as object != quotas
    }

    constructor ()
      ensures Shaped() && fresh(domains) && fresh(quotas) && domainCount == 0
      ensures forall k :: 0 <= k < MAX_QUOTAS ==> !quotas[k].active
    {
      domains := new Domain[MAX_DOMAINS](_ => NO_DOMAIN);
      quotas := new Quota[MAX_QUOTAS](_ => NO_QUOTA);
      domainCount := 0;
    }

    method Find(id: DistributedId) returns (k: nat)
      requires Shaped()
      ensures k == FindDomain(domains[..], domainCount, id)
    {
      k := 0;
      while k < domainCount
        invariant k <= domainCount
        invariant forall j :: 0 <= j < k ==> domains[j].id != id
      {
        if domains[k].id == id {
          return;
        }
        k := k + 1;
      }
    }

    method FindQuota(e: nat) returns (k: nat)
      requires Shaped()
      ensures IsQuotaOf(quotas[..], e, k)
    {
      k := 0;
      while k < quotas.Length
        invariant k <= quotas.Length
        invariant forall j :: 0 <= j < k ==> !(quotas[j].active && quotas[j].entity == e)
      {
        if quotas[k].active && quotas[k].entity == e {
          return;
        }
        k := k + 1;
      }
    }

    /** Recomputes the four-way sum of one domain. */
    method AssertConservation(k: nat) returns (ok: bool)
      requires Shaped() && k < MAX_DOMAINS
      ensures ok <==> forall i :: 0 <= i < domains[k].phys.count ==> Parts(domains[k], i) == domains[k].phys.dims[i]
    {
      var d := domains[k];
      for i := 0 to d.phys.count
        invariant forall j :: 0 <= j < i ==> Parts(d, j) == d.phys.dims[j]
      {
        var sum := d.avail.dims[i] + d.resv.dims[i] + d.alloc.dims[i] + d.unavail.dims[i];
        assert sum == Parts(d, i);
        if sum > U64_MAX || sum != d.phys.dims[i] {
          return false;
        }
      }
      return true;
    }

    method Register(id: DistributedId, phys: Vector) returns (r: Result<nat>)
      requires Shaped()
      modifies this, domains
      ensures Shaped() && quotas[..] == old(quotas[..])
      ensures r.Ok? <==> old(domainCount) < MAX_DOMAINS
      ensures r.Err? ==> domainCount == old(domainCount) && domains[..] == old(domains[..])
      ensures r.Ok? ==>
        && r.value == old(domainCount) && domainCount == old(domainCount) + 1
        && domains[..] == old(domains[..])[r.value := Domain(id, phys, phys, EMPTY, EMPTY, EMPTY, false)]
    {
      if domainCount >= MAX_DOMAINS {
        return Err(ObjectTableFull);
      }
      domains[domainCount] := Domain(id, phys, phys, EMPTY, EMPTY, EMPTY, false);
      assert Conserved(domains[domainCount]);
      var ok := AssertConservation(domainCount);
      r := Err(VectorConservationViolated);
      if ok {
        r := Ok(domainCount);
        domainCount := domainCount + 1;
      }
    }

    /** Admits an allocation if it fits what is available and the coupling constraints. */
    method Admit(k: nat, v: Vector, coupling: Option<seq<Row>>) returns (r: Result<()>)
      requires Shaped() && k < MAX_DOMAINS && Conserved(domains[k])
      requires coupling.Some? ==> ValidMatrix(coupling.value)
      modifies domains
      ensures r.Ok? <==>
        && !old(domains[k]).locked && Below(v, old(domains[k]).avail)
        && (coupling.Some? ==> Passes(coupling.value, Admitted(old(domains[k]), v).alloc))
      ensures r.Ok? ==> domains[..] == old(domains[..])[k := Admitted(old(domains[k]), v)]
      ensures r.Err? ==> domains[..] == old(domains[..])
    {
      PartsFit(domains[k]);
      if domains[k].locked {
        return Err(WouldBlock);
      }
      var le := LessOrEqual(v, domains[k].avail);
      if !le {
        return Err(InvalidRequest);
      }
      var newAlloc := CheckedAdd(domains[k].alloc, v);
      if coupling.Some? {
        var feasible := IsFeasible(coupling.value, newAlloc.value);
        if !feasible {
          return Err(CouplingViolation);
        }
      }
      var newAvail := CheckedSub(domains[k].avail, v);
      TransfersConserve(domains[k], v);
      domains[k] := domains[k].(avail := newAvail.value);
      domains[k] := domains[k].(alloc := newAlloc.value);
      var ok := AssertConservation(k);
      return if ok then Ok(()) else Err(VectorConservationViolated);
    }

    /** Returns allocated capacity to the available part. */
    method Release(k: nat, v: Vector) returns (r: Result<()>)
      requires Shaped() && k < MAX_DOMAINS && Conserved(domains[k])
      modifies domains
      ensures r.Ok? <==> Below(v, old(domains[k]).alloc)
      ensures r.Ok? ==> domains[..] == old(domains[..])[k := GivenBack(old(domains[k]), v)]
      ensures r.Err? ==> domains[..] == old(domains[..])
    {
      PartsFit(domains[k]);
      var alloc := CheckedSub(domains[k].alloc, v);
      if alloc.Err? {
        return Err(alloc.error);
      }
      TransfersConserve(domains[k], v);
      domains[k] := domains[k].(alloc := alloc.value);
      var avail := CheckedAdd(domains[k].avail, v);
      domains[k] := domains[k].(avail := avail.value);
      var ok := AssertConservation(k);
      return if ok then Ok(()) else Err(VectorConservationViolated);
    }

    /** Moves allocated capacity to the unavailable part; what is available stays as it was. */
    method Quarantine(k: nat, v: Vector) returns (r: Result<()>)
      requires Shaped() && k < MAX_DOMAINS && Conserved(domains[k])
      modifies domains
      ensures r.Ok? <==> Below(v, old(domains[k]).alloc)
      ensures r.Ok? ==> domains[..] == old(domains[..])[k := Quarantined(old(domains[k]), v)]
      ensures r.Err? ==> domains[..] == old(domains[..])
    {
      PartsFit(domains[k]);
      var alloc := CheckedSub(domains[k].alloc, v);
      if alloc.Err? {
        return Err(alloc.error);
      }
      TransfersConserve(domains[k], v);
      domains[k] := domains[k].(alloc := alloc.value);
      var unavail := CheckedAdd(domains[k].unavail, v);
      domains[k] := domains[k].(unavail := unavail.value);
      var ok := AssertConservation(k);
      return if ok then Ok(()) else Err(VectorConservationViolated);
    }

    /** The driver confirms that unavailable capacity is usable again. */
    method Confirm(k: nat, v: Vector) returns (r: Result<()>)
      requires Shaped() && k < MAX_DOMAINS && Conserved(domains[k])
      modifies domains
      ensures r.Ok? <==> Below(v, old(domains[k]).unavail)
      ensures r.Ok? ==> domains[..] == old(domains[..])[k := Confirmed(old(domains[k]), v)]
      ensures r.Err? ==> domains[..] == old(domains[..])
    {
      PartsFit(domains[k]);
      var unavail := CheckedSub(domains[k].unavail, v);
      if unavail.Err? {
        return Err(unavail.error);
      }
      TransfersConserve(domains[k], v);
      domains[k] := domains[k].(unavail := unavail.value);
      var avail := CheckedAdd(domains[k].avail, v);
      domains[k] := domains[k].(avail := avail.value);
      var ok := AssertConservation(k);
      return if ok then Ok(()) else Err(VectorConservationViolated);
    }

    /** Sets capacity aside. */
    method Reserve(k: nat, v: Vector) returns (r: Result<()>)
      requires Shaped() && k < MAX_DOMAINS && Conserved(domains[k])
      modifies domains
      ensures r.Ok? <==> Below(v, old(domains[k]).avail)
      ensures r.Ok? ==> domains[..] == old(domains[..])[k := Reserved(old(domains[k]), v)]
      ensures r.Err? ==> domains[..] == old(domains[..])
    {
      PartsFit(domains[k]);
      var avail := CheckedSub(domains[k].avail, v);
      if avail.Err? {
        return Err(avail.error);
      }
      TransfersConserve(domains[k], v);
      domains[k] := domains[k].(avail := avail.value);
      var resv := CheckedAdd(domains[k].resv, v);
      domains[k] := domains[k].(resv := resv.value);
      var ok := AssertConservation(k);
      return if ok then Ok(()) else Err(VectorConservationViolated);
    }

    /** Quarantines a whole domain; the conservation check at the end cannot fail. */
    method LoseProvider(k: nat) returns (r: Result<()>)
      requires Shaped() && k < MAX_DOMAINS && Conserved(domains[k])
      modifies domains
      ensures r.Ok? && domains[..] == old(domains[..])[k := AllLost(old(domains[k]))]
    {
      LossConserves(domains[k]);
      LoseParts(k);
      var ok := AssertConservation(k);
      return if ok then Ok(()) else Err(VectorConservationViolated);
    }

    /** Moves everything to the unavailable part, dimension by dimension. */
    method LoseParts(k: nat)
      requires Shaped() && k < MAX_DOMAINS && Conserved(domains[k])
      modifies domains
      ensures domains[..] == old(domains[..])[k := AllLost(old(domains[k]))]
    {
      var d := domains[k];
      var un, av, re, al := d.unavail.dims, d.avail.dims, d.resv.dims, d.alloc.dims;
      for i := 0 to d.phys.count
        invariant |un| == |av| == |re| == |al| == DIMS
        invariant forall j :: 0 <= j < i ==> un[j] == d.phys.dims[j] && av[j] == re[j] == al[j] == 0
        invariant forall j :: i <= j < DIMS ==>
          un[j] == d.unavail.dims[j] && av[j] == d.avail.dims[j] && re[j] == d.resv.dims[j] && al[j] == d.alloc.dims[j]
      {
        var total := un[i] + av[i] + re[i] + al[i];
        assert total == Parts(d, i);
        un := un[i := total];
        av, re, al := av[i := 0], re[i := 0], al[i := 0];
      }
      assert forall j :: d.phys.count <= j < DIMS ==> Parts(d, j) == 0;
      assert un == d.phys.dims && av == re == al == ZERO_DIMS;
      var n := d.phys.count;
      domains[k] := d.(unavail := RawVector(un, n), avail := RawVector(av, n), resv := RawVector(re, n), alloc := RawVector(al, n));
    }

    /** Charges an entity's quota; an entity without one is not limited. */
    method ChargeQuota(e: nat, v: Vector) returns (r: Result<()>, ghost k: nat)
      requires Shaped()
      modifies quotas
      ensures IsQuotaOf(old(quotas[..]), e, k)
      ensures r.Ok? <==> k < MAX_QUOTAS ==>
        Fits(old(quotas[k]).used, v) && Below(Plus(old(quotas[k]).used, v), old(quotas[k]).max)
      ensures r.Ok? && k < MAX_QUOTAS ==>
        && Fits(old(quotas[k]).used, v)
        && quotas[..] == old(quotas[..])[k := old(quotas[k]).(used := Plus(old(quotas[k]).used, v))]
      ensures r.Err? || k == MAX_QUOTAS ==> quotas[..] == old(quotas[..])
    {
      var i := FindQuota(e);
      k := i;
      if i == quotas.Length {
        return Ok(()), k;
      }
      var used := CheckedAdd(quotas[i].used, v);
      if used.Err? {
        return Err(used.error), k;
      }
      var within := LessOrEqual(used.value, quotas[i].max);
      if !within {
        return Err(QuotaExceeded), k;
      }
      quotas[i] := quotas[i].(used := used.value);
      return Ok(()), k;
    }

    /** Gives back quota; refused, and nothing changed, if more than is in use. */
    method RefundQuota(e: nat, v: Vector) returns (r: Result<()>, ghost k: nat)
      requires Shaped()
      modifies quotas
      ensures IsQuotaOf(old(quotas[..]), e, k)
      ensures r.Ok? <==> (k < MAX_QUOTAS ==> Below(v, old(quotas[k]).used))
      ensures r.Ok? && k < MAX_QUOTAS ==>
        quotas[..] == old(quotas[..])[k := old(quotas[k]).(used := Minus(old(quotas[k]).used, v))]
      ensures r.Err? || k == MAX_QUOTAS ==> quotas[..] == old(quotas[..])
    {
      var i := FindQuota(e);
      k := i;
      if i == quotas.Length {
        return Ok(()), k;
      }
      var used := CheckedSub(quotas[i].used, v);
      if used.Err? {
        return Err(used.error), k;
      }
      quotas[i] := quotas[i].(used := used.value);
      return Ok(()), k;
    }

    /** Sets or updates an entity's ceiling; a new quota starts with nothing in use. */
    method SetQuota(e: nat, max: Vector) returns (r: Result<()>)
      requires Shaped()
      modifies quotas
      ensures r.Err? ==> quotas[..] == old(quotas[..])
      ensures r.Err? <==> forall i :: 0 <= i < MAX_QUOTAS ==> old(quotas[i]).active && old(quotas[i]).entity != e
      ensures r.Ok? ==> exists k: nat :: QuotaSet(old(quotas[..]), e, max, k, quotas[..])
    {
      var i := FindQuota(e);
      if i < quotas.Length {
        quotas[i] := quotas[i].(max := max);
        assert QuotaSet(old(quotas[..]), e, max, i, quotas[..]);
        return Ok(());
      }
      for j := 0 to quotas.Length
        invariant quotas[..] == old(quotas[..])
        invariant forall k :: 0 <= k < j ==> quotas[k].active
      {
        if !quotas[j].active {
          quotas[j] := Quota(e, max, RawVector(ZERO_DIMS, max.count), true);
          assert QuotaSet(old(quotas[..]), e, max, j, quotas[..]);
          return Ok(());
        }
      }
      return Err(ObjectTableFull);
    }
  }
}
