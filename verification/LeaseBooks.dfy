/**
 Leases, and what it means for the lease table, the accounting domains and the quotas to agree.
 */
module LeaseBooks {
  import opened Common
  import opened Capacity
  import opened Coupling
  import opened Accounting

  const MAX_LEASES := 256

  datatype LeaseState = Active | Expired | TimeAuthorityLost | ProviderLost | Released

  datatype Lease = Lease(id: DistributedId, resource: DistributedId, generation: nat, state: LeaseState,
                         amount: Vector, granted: nat, expires: nat, holder: nat, channel: nat)

  type Table = seq<Option<Lease>>

  datatype Books = Books(leases: Table, count: nat, domains: seq<Domain>, domainCount: nat, quotas: seq<Quota>)

  // ---------------------------------------------------------------- sums over the lease table

  function Share(o: Option<Lease>, holds: Lease -> bool, i: int): nat
    requires 0 <= i < DIMS
  {
    if o.Some? && holds(o.value) then o.value.amount.dims[i] else 0
  }

  function SumWhere(L: Table, holds: Lease -> bool, i: int, n: nat): nat
    requires n <= |L| && 0 <= i < DIMS
  {
    if n == 0 then 0 else SumWhere(L, holds, i, n - 1) + Share(L[n - 1], holds, i)
  }

  function Occupied(L: Table, n: nat): nat
    requires n <= |L|
  {
    if n == 0 then 0 else Occupied(L, n - 1) + (if L[n - 1].Some? then 1 else 0)
  }

  function ActiveOn(id: DistributedId): Lease -> bool {
    (l: Lease) => l.state.Active? && l.resource == id
  }

  function HeldBy(e: nat): Lease -> bool {
    (l: Lease) => l.holder == e
  }

  lemma {:induction false} SumAfterUpdate(L: Table, holds: Lease -> bool, i: int, n: nat, s: int, o: Option<Lease>)
    requires n <= |L| && 0 <= i < DIMS && 0 <= s < |L|
    ensures SumWhere(L[s := o], holds, i, n) + (if s < n then Share(L[s], holds, i) else 0)
         == SumWhere(L, holds, i, n) + (if s < n then Share(o, holds, i) else 0)
  {
    if n > 0 {
      SumAfterUpdate(L, holds, i, n - 1, s, o);
    }
  }

  lemma {:induction false} SumUnchanged(L: Table, M: Table, holds: Lease -> bool, i: int, n: nat)
    requires n <= |L| == |M| && 0 <= i < DIMS
    requires forall s :: 0 <= s < n ==> Share(L[s], holds, i) == Share(M[s], holds, i)
    ensures SumWhere(L, holds, i, n) == SumWhere(M, holds, i, n)
  {
    if n > 0 {
      SumUnchanged(L, M, holds, i, n - 1);
    }
  }

  lemma {:induction false} SumOfNothing(L: Table, holds: Lease -> bool, i: int, n: nat)
    requires n <= |L| && 0 <= i < DIMS
    requires forall s :: 0 <= s < n ==> Share(L[s], holds, i) == 0
    ensures SumWhere(L, holds, i, n) == 0
  {
    if n > 0 {
      SumOfNothing(L, holds, i, n - 1);
    }
  }

  lemma {:induction false} ShareIsPartOfSum(L: Table, holds: Lease -> bool, i: int, n: nat, s: int)
    requires n <= |L| && 0 <= i < DIMS && 0 <= s < n
    ensures Share(L[s], holds, i) <= SumWhere(L, holds, i, n)
  {
    if s < n - 1 {
      ShareIsPartOfSum(L, holds, i, n - 1, s);
    }
  }

  lemma {:induction false} OccupiedAfterUpdate(L: Table, n: nat, s: int, o: Option<Lease>)
    requires n <= |L| && 0 <= s < |L|
    ensures Occupied(L[s := o], n) + (if s < n && L[s].Some? then 1 else 0)
         == Occupied(L, n) + (if s < n && o.Some? then 1 else 0)
  {
    if n > 0 {
      OccupiedAfterUpdate(L, n - 1, s, o);
    }
  }

  lemma {:induction false} OccupiedUnchanged(L: Table, M: Table, n: nat)
    requires n <= |L| == |M| && forall s :: 0 <= s < n ==> L[s].Some? == M[s].Some?
    ensures Occupied(L, n) == Occupied(M, n)
  {
    if n > 0 {
      OccupiedUnchanged(L, M, n - 1);
    }
  }

  // ---------------------------------------------------------------- agreement

  ghost predicate Shape(B: Books) {
    |B.leases| == MAX_LEASES && |B.domains| == MAX_DOMAINS && B.domainCount <= MAX_DOMAINS && |B.quotas| == MAX_QUOTAS
  }

  ghost function DomainOf(B: Books, id: DistributedId): (k: nat)
    requires Shape(B)
    ensures k <= B.domainCount && (k < B.domainCount ==> B.domains[k].id == id)
  {
    FindDomain(B.domains, B.domainCount, id)
  }

  ghost predicate Registered(B: Books, id: DistributedId)
    requires Shape(B)
  {
    DomainOf(B, id) < B.domainCount
  }

  /** The allocated part of a resource's domain is the sum of the active leases on it. */
  ghost predicate Agrees(B: Books, id: DistributedId)
    requires Shape(B)
  {
    Registered(B, id) ==>
      forall i :: 0 <= i < DIMS ==>
        B.domains[DomainOf(B, id)].alloc.dims[i] == SumWhere(B.leases, ActiveOn(id), i, MAX_LEASES)
  }

  ghost predicate Healthy(d: Domain) {
    Conserved(d) && !d.locked
  }

  /** Every domain conserves its capacity, agrees with the lease table, and the count is right. */
  ghost predicate Balanced(B: Books) {
    && Shape(B)
    && (forall k :: 0 <= k < B.domainCount ==> Healthy(B.domains[k]))
    && (forall id :: Agrees(B, id))
    && (forall s :: 0 <= s < MAX_LEASES && B.leases[s].Some? && B.leases[s].value.state.Active? ==>
          Registered(B, B.leases[s].value.resource))
    && B.count == Occupied(B.leases, MAX_LEASES)
  }

  /** An entity's quota in use is the sum of the leases it holds in the table, whatever their state. */
  ghost predicate QuotaAgrees(B: Books, e: nat, k: nat)
    requires Shape(B)
  {
    IsQuotaOf(B.quotas, e, k) && k < MAX_QUOTAS ==>
      forall i :: 0 <= i < DIMS ==> B.quotas[k].used.dims[i] == SumWhere(B.leases, HeldBy(e), i, MAX_LEASES)
  }

  ghost predicate QuotasAgree(B: Books) {
    Shape(B) && forall e: nat, k: nat :: QuotaAgrees(B, e, k)
  }

  /** Same amounts everywhere; only the recorded number of dimensions of a vector may have grown. */
  ghost predicate SameAmounts(A: Books, B: Books) {
    && Shape(A) && Shape(B) && A.leases == B.leases && A.count == B.count && A.domainCount == B.domainCount
    && (forall k :: 0 <= k < MAX_DOMAINS ==> SameDomain(A.domains[k], B.domains[k]))
    && (forall k :: 0 <= k < MAX_QUOTAS ==> SameQuota(A.quotas[k], B.quotas[k]))
  }

  ghost predicate SameDomain(d: Domain, e: Domain) {
    && d.id == e.id && d.locked == e.locked && d.phys == e.phys
    && d.avail.dims == e.avail.dims && d.resv.dims == e.resv.dims
    && d.alloc.dims == e.alloc.dims && d.unavail.dims == e.unavail.dims
  }

  ghost predicate SameQuota(q: Quota, r: Quota) {
    q.entity == r.entity && q.active == r.active && q.max == r.max && q.used.dims == r.used.dims
  }

  // ---------------------------------------------------------------- looking up domains

  lemma {:induction false} FindIgnoresContents(D: seq<Domain>, n: nat, id: DistributedId, k: int, d: Domain)
    requires n <= |D| && 0 <= k < |D| && d.id == D[k].id
    ensures FindDomain(D[k := d], n, id) == FindDomain(D, n, id)
  {
    if n > 0 {
      FindIgnoresContents(D, n - 1, id, k, d);
    }
  }

  /** An active lease never holds more than is allocated on its resource. */
  lemma ActiveIsAllocated(B: Books, s: int)
    requires Balanced(B) && 0 <= s < MAX_LEASES && B.leases[s].Some? && B.leases[s].value.state.Active?
    ensures var l := B.leases[s].value;
      Registered(B, l.resource) && Below(l.amount, B.domains[DomainOf(B, l.resource)].alloc)
  {
    var l := B.leases[s].value;
    assert Agrees(B, l.resource);
    forall i | 0 <= i < DIMS ensures l.amount.dims[i] <= B.domains[DomainOf(B, l.resource)].alloc.dims[i] {
      ShareIsPartOfSum(B.leases, ActiveOn(l.resource), i, MAX_LEASES, s);
    }
  }

  // ---------------------------------------------------------------- transitions of the books

  /** A new lease in slot `s`, allocated in domain `k`. */
  ghost predicate Grants(A: Books, s: int, l: Lease, B: Books)
    requires Balanced(A)
  {
    var k := DomainOf(A, l.resource);
    && 0 <= s < MAX_LEASES && A.leases[s].None? && l.state.Active? && k < A.domainCount
    && Below(l.amount, A.domains[k].avail)
    && B.leases == A.leases[s := Some(l)] && B.count == A.count + 1
    && B.domains == A.domains[k := Admitted(A.domains[k], l.amount)] && B.domainCount == A.domainCount
    && |B.quotas| == MAX_QUOTAS
  }

  lemma GrantKeepsAgreement(A: Books, s: int, l: Lease, B: Books, id: DistributedId)
    requires Balanced(A) && Grants(A, s, l, B)
    ensures Shape(B) && Agrees(B, id) && (Registered(B, id) <==> Registered(A, id))
  {
    var k := DomainOf(A, l.resource);
    FindIgnoresContents(A.domains, A.domainCount, id, k, B.domains[k]);
    assert Agrees(A, id);
    forall i | 0 <= i < DIMS
      ensures SumWhere(B.leases, ActiveOn(id), i, MAX_LEASES) ==
              SumWhere(A.leases, ActiveOn(id), i, MAX_LEASES) + (if id == l.resource then l.amount.dims[i] else 0)
    {
      SumAfterUpdate(A.leases, ActiveOn(id), i, MAX_LEASES, s, Some(l));
    }
  }

  lemma GrantKeepsBalance(A: Books, s: int, l: Lease, B: Books)
    requires Balanced(A) && Grants(A, s, l, B)
    ensures Balanced(B)
  {
    hide Agrees, Conserved, FindDomain, SumWhere, Below;
    var k := DomainOf(A, l.resource);
    assert Healthy(A.domains[k]);
    TransfersConserve(A.domains[k], l.amount);
    OccupiedAfterUpdate(A.leases, MAX_LEASES, s, Some(l));
    forall id ensures Agrees(B, id) && (Registered(B, id) <==> Registered(A, id)) {
      GrantKeepsAgreement(A, s, l, B, id);
    }
  }

  /** The lease in slot `s` stops being active and its capacity leaves the allocated part, as `d` says. */
  ghost predicate Ends(A: Books, s: int, o: Option<Lease>, d: Domain, B: Books)
    requires Balanced(A)
  {
    && 0 <= s < MAX_LEASES && A.leases[s].Some? && A.leases[s].value.state.Active?
    && (o.Some? ==> o.value == A.leases[s].value.(state := o.value.state) && !o.value.state.Active?)
    && var l := A.leases[s].value;
       var k := DomainOf(A, l.resource);
       && k < A.domainCount && d.id == A.domains[k].id && Healthy(d)
       && (forall i :: 0 <= i < DIMS ==> d.alloc.dims[i] + l.amount.dims[i] == A.domains[k].alloc.dims[i])
       && B.leases == A.leases[s := o] && A.count > 0 && B.count == (if o.Some? then A.count else A.count - 1)
       && B.domains == A.domains[k := d] && B.domainCount == A.domainCount && |B.quotas| == MAX_QUOTAS
  }

  lemma EndKeepsAgreement(A: Books, s: int, o: Option<Lease>, d: Domain, B: Books, id: DistributedId)
    requires Balanced(A) && Ends(A, s, o, d, B)
    ensures Shape(B) && Agrees(B, id) && (Registered(B, id) <==> Registered(A, id))
  {
    var l := A.leases[s].value;
    var k := DomainOf(A, l.resource);
    FindIgnoresContents(A.domains, A.domainCount, id, k, d);
    assert Agrees(A, id);
    forall i | 0 <= i < DIMS
      ensures SumWhere(B.leases, ActiveOn(id), i, MAX_LEASES) + (if id == l.resource then l.amount.dims[i] else 0)
           == SumWhere(A.leases, ActiveOn(id), i, MAX_LEASES)
    {
      SumAfterUpdate(A.leases, ActiveOn(id), i, MAX_LEASES, s, o);
    }
  }

  lemma EndKeepsBalance(A: Books, s: int, o: Option<Lease>, d: Domain, B: Books)
    requires Balanced(A) && Ends(A, s, o, d, B)
    ensures Balanced(B)
  {
    hide Agrees, Conserved, FindDomain, SumWhere;
    OccupiedAfterUpdate(A.leases, MAX_LEASES, s, o);
    forall id ensures Agrees(B, id) && (Registered(B, id) <==> Registered(A, id)) {
      EndKeepsAgreement(A, s, o, d, B, id);
    }
  }

  lemma OccupiedSlotIsCounted(A: Books, s: int)
    requires Balanced(A) && 0 <= s < MAX_LEASES && A.leases[s].Some?
    ensures A.count > 0
  {
    OccupiedAfterUpdate(A.leases, MAX_LEASES, s, None);
  }

  /** A domain changes without touching what is allocated. */
  lemma DomainChangeKeepsBalance(A: Books, k: int, d: Domain, B: Books)
    requires Balanced(A) && 0 <= k < A.domainCount && d.id == A.domains[k].id && Healthy(d)
    requires d.alloc.dims == A.domains[k].alloc.dims && B == A.(domains := A.domains[k := d])
    ensures Balanced(B)
  {
    forall id ensures Agrees(B, id) && (Registered(B, id) <==> Registered(A, id)) {
      FindIgnoresContents(A.domains, A.domainCount, id, k, d);
      assert Agrees(A, id);
    }
  }

  /** A lease changes in a way accounting does not see. */
  lemma LeaseChangeKeepsBalance(A: Books, s: int, l: Lease, B: Books)
    requires Balanced(A) && 0 <= s < MAX_LEASES && A.leases[s].Some?
    requires l == A.leases[s].value.(generation := l.generation, expires := l.expires)
    requires B == A.(leases := A.leases[s := Some(l)])
    ensures Balanced(B) && (QuotasAgree(A) ==> QuotasAgree(B))
  {
    OccupiedAfterUpdate(A.leases, MAX_LEASES, s, Some(l));
    forall id ensures Agrees(B, id) && (Registered(B, id) <==> Registered(A, id)) {
      assert Agrees(A, id);
      forall i | 0 <= i < DIMS
        ensures SumWhere(B.leases, ActiveOn(id), i, MAX_LEASES) == SumWhere(A.leases, ActiveOn(id), i, MAX_LEASES)
      {
        SumAfterUpdate(A.leases, ActiveOn(id), i, MAX_LEASES, s, Some(l));
      }
    }
    if QuotasAgree(A) {
      forall e: nat, k: nat ensures QuotaAgrees(B, e, k) {
        assert QuotaAgrees(A, e, k);
        forall i | 0 <= i < DIMS
          ensures SumWhere(B.leases, HeldBy(e), i, MAX_LEASES) == SumWhere(A.leases, HeldBy(e), i, MAX_LEASES)
        {
          SumAfterUpdate(A.leases, HeldBy(e), i, MAX_LEASES, s, Some(l));
        }
      }
    }
  }

  /** All active leases of one resource end at once, and its whole domain becomes unavailable. */
  ghost predicate LosesProvider(A: Books, id: DistributedId, B: Books)
    requires Shape(A)
  {
    && Shape(B) && B.count == A.count && B.domainCount == A.domainCount && B.quotas == A.quotas
    && (forall s :: 0 <= s < MAX_LEASES ==> B.leases[s] == AfterProviderLoss(A.leases[s], id))
    && (if Registered(A, id) then
          B.domains == A.domains[DomainOf(A, id) := AllLost(A.domains[DomainOf(A, id)])]
        else B.domains == A.domains)
  }

  function AfterProviderLoss(o: Option<Lease>, id: DistributedId): Option<Lease> {
    if o.Some? && o.value.resource == id && o.value.state.Active? then Some(o.value.(state := ProviderLost)) else o
  }

  lemma ProviderLossKeepsAgreement(A: Books, id: DistributedId, B: Books, other: DistributedId)
    requires Balanced(A) && LosesProvider(A, id, B)
    ensures Agrees(B, other) && (Registered(B, other) <==> Registered(A, other))
  {
    var k := DomainOf(A, id);
    if Registered(A, id) { FindIgnoresContents(A.domains, A.domainCount, other, k, B.domains[k]); }
    assert Agrees(A, other);
    forall i | 0 <= i < DIMS
      ensures SumWhere(B.leases, ActiveOn(other), i, MAX_LEASES) ==
              if other == id then 0 else SumWhere(A.leases, ActiveOn(other), i, MAX_LEASES)
    {
      if other == id {
        SumOfNothing(B.leases, ActiveOn(other), i, MAX_LEASES);
      } else {
        SumUnchanged(A.leases, B.leases, ActiveOn(other), i, MAX_LEASES);
      }
    }
  }

  lemma ProviderLossKeepsBalance(A: Books, id: DistributedId, B: Books)
    requires Balanced(A) && LosesProvider(A, id, B)
    ensures Balanced(B)
  {
    hide Agrees, Conserved, FindDomain, SumWhere;
    if Registered(A, id) {
      assert Healthy(A.domains[DomainOf(A, id)]);
      TransfersConserve(A.domains[DomainOf(A, id)], EMPTY);
    }
    OccupiedUnchanged(A.leases, B.leases, MAX_LEASES);
    forall other ensures Agrees(B, other) && (Registered(B, other) <==> Registered(A, other)) {
      ProviderLossKeepsAgreement(A, id, B, other);
    }
  }

  lemma ProviderLossKeepsQuotas(A: Books, id: DistributedId, B: Books)
    requires QuotasAgree(A) && LosesProvider(A, id, B)
    ensures QuotasAgree(B)
  {
    forall e: nat, j: nat ensures QuotaAgrees(B, e, j) {
      assert QuotaAgrees(A, e, j);
      forall i | 0 <= i < DIMS
        ensures SumWhere(B.leases, HeldBy(e), i, MAX_LEASES) == SumWhere(A.leases, HeldBy(e), i, MAX_LEASES)
      {
        SumUnchanged(A.leases, B.leases, HeldBy(e), i, MAX_LEASES);
      }
    }
  }

  // ---------------------------------------------------------------- quotas

  lemma QuotaSlotStays(Q: seq<Quota>, k: nat, q: Quota, e: nat, j: nat)
    requires k < |Q| && q.entity == Q[k].entity && q.active == Q[k].active
    ensures IsQuotaOf(Q[k := q], e, j) <==> IsQuotaOf(Q, e, j)
  {
    var R := Q[k := q];
    assert forall i :: 0 <= i < |Q| ==> R[i].active == Q[i].active && R[i].entity == Q[i].entity;
  }

  lemma QuotaIsUnique(Q: seq<Quota>, e: nat, j: nat, k: nat)
    requires IsQuotaOf(Q, e, j) && IsQuotaOf(Q, e, k)
    ensures j == k
  {
  }

  /** Charging the holder of a new lease keeps the quotas in agreement. */
  lemma GrantKeepsQuotas(A: Books, s: int, l: Lease, k: nat, B: Books)
    requires QuotasAgree(A) && Shape(B) && 0 <= s < MAX_LEASES && A.leases[s].None? && B.leases == A.leases[s := Some(l)]
    requires IsQuotaOf(A.quotas, l.holder, k)
    requires k < MAX_QUOTAS ==>
      Fits(A.quotas[k].used, l.amount) && B.quotas == A.quotas[k := A.quotas[k].(used := Plus(A.quotas[k].used, l.amount))]
    requires k == MAX_QUOTAS ==> B.quotas == A.quotas
    ensures QuotasAgree(B)
  {
    forall e: nat, j: nat ensures QuotaAgrees(B, e, j) {
      assert QuotaAgrees(A, e, j);
      if k < MAX_QUOTAS { QuotaSlotStays(A.quotas, k, B.quotas[k], e, j); }
      if IsQuotaOf(B.quotas, e, j) && j < MAX_QUOTAS {
        if e == l.holder { QuotaIsUnique(A.quotas, e, j, k); }
        forall i | 0 <= i < DIMS
          ensures B.quotas[j].used.dims[i] == SumWhere(B.leases, HeldBy(e), i, MAX_LEASES)
        {
          SumAfterUpdate(A.leases, HeldBy(e), i, MAX_LEASES, s, Some(l));
        }
      }
    }
  }

  /** Taking a lease out of the table and refunding its holder keeps the quotas in agreement. */
  lemma ReturnKeepsQuotas(A: Books, s: int, k: nat, B: Books)
    requires QuotasAgree(A) && Shape(B) && 0 <= s < MAX_LEASES && A.leases[s].Some? && B.leases == A.leases[s := None]
    requires IsQuotaOf(A.quotas, A.leases[s].value.holder, k)
    requires k < MAX_QUOTAS && Below(A.leases[s].value.amount, A.quotas[k].used) ==>
      B.quotas == A.quotas[k := A.quotas[k].(used := Minus(A.quotas[k].used, A.leases[s].value.amount))]
    requires k == MAX_QUOTAS ==> B.quotas == A.quotas
    ensures QuotasAgree(B)
  {
    var l := A.leases[s].value;
    if k < MAX_QUOTAS {
      assert QuotaAgrees(A, l.holder, k);
      forall i | 0 <= i < DIMS ensures l.amount.dims[i] <= A.quotas[k].used.dims[i] {
        ShareIsPartOfSum(A.leases, HeldBy(l.holder), i, MAX_LEASES, s);
      }
    }
    forall e: nat, j: nat ensures QuotaAgrees(B, e, j) {
      assert QuotaAgrees(A, e, j);
      if k < MAX_QUOTAS { QuotaSlotStays(A.quotas, k, B.quotas[k], e, j); }
      if IsQuotaOf(B.quotas, e, j) && j < MAX_QUOTAS {
        if e == l.holder { QuotaIsUnique(A.quotas, e, j, k); }
        forall i | 0 <= i < DIMS
          ensures B.quotas[j].used.dims[i] == SumWhere(B.leases, HeldBy(e), i, MAX_LEASES)
        {
          SumAfterUpdate(A.leases, HeldBy(e), i, MAX_LEASES, s, None);
        }
      }
    }
  }

  /** A lease that only changes state still counts against its holder. */
  lemma StateChangeKeepsQuotas(A: Books, s: int, st: LeaseState, B: Books)
    requires QuotasAgree(A) && Shape(B) && 0 <= s < MAX_LEASES && A.leases[s].Some? && B.quotas == A.quotas
    requires B.leases == A.leases[s := Some(A.leases[s].value.(state := st))]
    ensures QuotasAgree(B)
  {
    forall e: nat, j: nat ensures QuotaAgrees(B, e, j) {
      assert QuotaAgrees(A, e, j);
      forall i | 0 <= i < DIMS
        ensures SumWhere(B.leases, HeldBy(e), i, MAX_LEASES) == SumWhere(A.leases, HeldBy(e), i, MAX_LEASES)
      {
        SumAfterUpdate(A.leases, HeldBy(e), i, MAX_LEASES, s, B.leases[s]);
      }
    }
  }

  // ---------------------------------------------------------------- coupling over time

  /** Every registered domain's allocation meets the constraints. */
  ghost predicate Coupled(B: Books, m: seq<Row>)
    requires Shape(B) && ValidMatrix(m)
  {
    forall k :: 0 <= k < B.domainCount ==> Satisfies(m, B.domains[k].alloc)
  }

  /** Physical capacities small enough to be read as signed numbers. */
  ghost predicate SignedCapacities(B: Books)
    requires Shape(B)
  {
    forall k :: 0 <= k < B.domainCount ==> Signed(B.domains[k].phys)
  }

  lemma AllocatedIsSigned(d: Domain)
    requires Conserved(d) && Signed(d.phys)
    ensures Signed(d.alloc)
  {
    forall i | 0 <= i < DIMS ensures d.alloc.dims[i] < TWO_63 {
      assert Parts(d, i) == d.phys.dims[i];
    }
  }

  /** Admission under a monotone matrix keeps the exact constraint, not just the saturated one. */
  lemma AdmissionKeepsCoupling(d: Domain, v: Vector, m: seq<Row>)
    requires Conserved(d) && Below(v, d.avail) && Signed(d.phys) && ValidMatrix(m) && Monotone(m)
    requires Passes(m, Admitted(d, v).alloc)
    ensures Satisfies(m, Admitted(d, v).alloc)
  {
    TransfersConserve(d, v);
    AllocatedIsSigned(Admitted(d, v));
    FeasibilityIsExact(m, Admitted(d, v).alloc);
  }

  // ---------------------------------------------------------------- undoing

  /** Adding an amount and taking it away again restores every dimension. */
  lemma PlusThenMinus(a: Vector, v: Vector)
    requires Fits(a, v)
    ensures Below(v, Plus(a, v)) && Minus(Plus(a, v), v).dims == a.dims
  {
  }

  lemma AdmitThenRelease(d: Domain, v: Vector)
    requires Conserved(d) && Below(v, d.avail)
    ensures Conserved(Admitted(d, v)) && Below(v, Admitted(d, v).alloc)
    ensures SameDomain(d, GivenBack(Admitted(d, v), v))
  {
  }

  /** Whether an entity's quota, if it has one, covers an amount. */
  ghost predicate QuotaCovers(Q: seq<Quota>, e: nat, v: Vector) {
    forall k: nat :: IsQuotaOf(Q, e, k) && k < |Q| ==> Fits(Q[k].used, v) && Below(Plus(Q[k].used, v), Q[k].max)
  }

  /** The quota table after a charge against the entity's quota `k`, or unchanged if it has none. */
  ghost predicate Charged(Q: seq<Quota>, e: nat, v: Vector, k: nat, R: seq<Quota>) {
    && IsQuotaOf(Q, e, k)
    && (k < |Q| ==> Fits(Q[k].used, v) && R == Q[k := Q[k].(used := Plus(Q[k].used, v))])
    && (k == |Q| ==> R == Q)
  }

  /** The quota table after a refund, which an entity without a quota, or with less in use, does not get. */
  ghost predicate Refunded(Q: seq<Quota>, e: nat, v: Vector, k: nat, R: seq<Quota>) {
    && IsQuotaOf(Q, e, k)
    && R == if k < |Q| && Below(v, Q[k].used) then Q[k := Q[k].(used := Minus(Q[k].used, v))] else Q
  }

  /** A charge followed by a refund of the same amount changes no amount. */
  lemma ChargeThenRefund(Q: seq<Quota>, e: nat, v: Vector, k: nat, R: seq<Quota>, j: nat, S: seq<Quota>)
    requires Charged(Q, e, v, k, R) && IsQuotaOf(R, e, j)
    requires j < |R| && Below(v, R[j].used) ==> S == R[j := R[j].(used := Minus(R[j].used, v))]
    requires j == |R| ==> S == R
    ensures |S| == |Q| && forall i :: 0 <= i < |Q| ==> SameQuota(Q[i], S[i])
  {
    if k < |Q| {
      QuotaSlotStays(Q, k, R[k], e, j);
      QuotaIsUnique(Q, e, j, k);
      PlusThenMinus(Q[k].used, v);
    } else {
      QuotaIsUnique(Q, e, j, k);
    }
  }

  /** Equal amounts mean equal balance. */
  lemma SameAmountsSameBalance(A: Books, B: Books)
    requires Balanced(A) && SameAmounts(A, B)
    ensures Balanced(B)
  {
    forall id ensures FindDomain(B.domains, B.domainCount, id) == FindDomain(A.domains, A.domainCount, id) {
      FindSameIds(A.domains, B.domains, A.domainCount, id);
    }
    forall k | 0 <= k < B.domainCount ensures Healthy(B.domains[k]) {
      assert SameDomain(A.domains[k], B.domains[k]) && Healthy(A.domains[k]);
      assert forall i :: 0 <= i < DIMS ==> Parts(B.domains[k], i) == Parts(A.domains[k], i);
    }
    forall id ensures Agrees(B, id) {
      assert Agrees(A, id);
      assert Registered(A, id) ==> SameDomain(A.domains[DomainOf(A, id)], B.domains[DomainOf(A, id)]);
    }
  }

  lemma FindSameIds(D: seq<Domain>, E: seq<Domain>, n: nat, id: DistributedId)
    requires n <= |D| == |E| && forall k :: 0 <= k < |D| ==> D[k].id == E[k].id
    ensures FindDomain(D, n, id) == FindDomain(E, n, id)
  {
  }

  lemma SameAmountsSameQuotas(A: Books, B: Books)
    requires QuotasAgree(A) && SameAmounts(A, B)
    ensures QuotasAgree(B)
  {
    forall e: nat, k: nat ensures QuotaAgrees(B, e, k) {
      assert QuotaAgrees(A, e, k);
      assert forall i :: 0 <= i < MAX_QUOTAS ==> SameQuota(A.quotas[i], B.quotas[i]);
      assert IsQuotaOf(B.quotas, e, k) ==> IsQuotaOf(A.quotas, e, k);
    }
  }
}
