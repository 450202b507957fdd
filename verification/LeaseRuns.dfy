/**
 Runs of a node's lease engine and accounting manager: any sequence of requests.
 */
module LeaseRuns {
  import opened Common
  import opened Capacity
  import opened Coupling
  import opened Accounting
  import opened LeaseBooks
  import opened LeaseEngine

  datatype Request =
    | Register(id: DistributedId, phys: Vector)
    | SetQuota(entity: nat, max: Vector)
    | Lend(lease: DistributedId, resource: DistributedId, entity: nat, channel: nat, amount: Vector, duration: nat,
           now: nat, coverage: bool)
    | Return(lease: DistributedId, generation: nat)
    | Renew(lease: DistributedId, generation: nat, extra: nat, now: nat)
    | Reattest(lease: DistributedId, now: nat, policyMax: nat)
    | LoseTimeAuthority
    | LoseProvider(id: DistributedId)
    | ClosePeer(channel: nat)
    | Confirm(id: DistributedId, amount: Vector)
    | Reserve(id: DistributedId, amount: Vector)

  // ---------------------------------------------------------------- registering

  lemma {:induction false} FindInLongerTable(D: seq<Domain>, n: nat, d: Domain, id: DistributedId)
    requires n < |D|
    ensures FindDomain(D[n := d], n, id) == FindDomain(D, n, id)
    ensures FindDomain(D[n := d], n + 1, id) ==
      if FindDomain(D, n, id) < n then FindDomain(D, n, id) else if d.id == id then n else n + 1
  {
    FindInPrefix(D, n, n, d, id);
  }

  lemma {:induction false} FindInPrefix(D: seq<Domain>, n: nat, m: nat, d: Domain, id: DistributedId)
    requires n <= m < |D|
    ensures FindDomain(D[m := d], n, id) == FindDomain(D, n, id)
  {
    if n > 0 {
      FindInPrefix(D, n - 1, m, d, id);
    }
  }

  function NewDomain(id: DistributedId, phys: Vector): Domain {
    Domain(id, phys, phys, EMPTY, EMPTY, EMPTY, false)
  }

  /** A newly registered resource starts with nothing allocated, and no active lease can name it yet. */
  lemma RegisterKeepsBalance(A: Books, id: DistributedId, phys: Vector, B: Books)
    requires Balanced(A) && A.domainCount < MAX_DOMAINS
    requires B == A.(domains := A.domains[A.domainCount := NewDomain(id, phys)], domainCount := A.domainCount + 1)
    ensures Balanced(B)
  {
    var d := NewDomain(id, phys);
    assert forall i :: 0 <= i < DIMS ==> Parts(d, i) == phys.dims[i];
    forall other ensures Agrees(B, other) && (Registered(A, other) ==> Registered(B, other)) {
      FindInLongerTable(A.domains, A.domainCount, d, other);
      assert Agrees(A, other);
      if other == id && !Registered(A, id) {
        forall i | 0 <= i < DIMS ensures SumWhere(B.leases, ActiveOn(id), i, MAX_LEASES) == 0 {
          SumOfNothing(B.leases, ActiveOn(id), i, MAX_LEASES);
        }
      }
    }
  }

  // ---------------------------------------------------------------- coupling

  /** Matrices that nothing allocated satisfies, and that shrinking never breaks. */
  ghost predicate Sane(m: seq<Row>) {
    ValidMatrix(m) && Monotone(m) && forall k :: 0 <= k < |m| ==> m[k].limit >= 0
  }

  lemma {:induction false} DotOfNothing(r: Row, v: Vector, n: nat)
    requires ValidRow(r) && n <= DIMS && v.dims == ZERO_DIMS
    ensures Dot(r, v, n) == 0
  {
    if n > 0 {
      DotOfNothing(r, v, n - 1);
    }
  }

  ghost predicate CoupledAndSigned(B: Books, m: seq<Row>)
    requires Shape(B) && ValidMatrix(m)
  {
    Coupled(B, m) && SignedCapacities(B)
  }

  /** A node may run without a coupling matrix. */
  predicate Usable(c: Option<seq<Row>>) {
    c.Some? ==> ValidMatrix(c.value)
  }

  ghost predicate Sensible(c: Option<seq<Row>>) {
    c.Some? ==> Sane(c.value)
  }

  /** Every allocation meets the exact constraints, if there are any. */
  ghost predicate Within(B: Books, c: Option<seq<Row>>)
    requires Shape(B) && Usable(c)
  {
    c.Some? ==> CoupledAndSigned(B, c.value)
  }

  /** No registered allocation grew and no physical capacity changed. */
  ghost predicate Shrinks(A: Books, B: Books)
    requires Shape(A) && Shape(B)
  {
    && B.domainCount == A.domainCount
    && forall k :: 0 <= k < A.domainCount ==>
         B.domains[k].phys == A.domains[k].phys && Below(B.domains[k].alloc, A.domains[k].alloc)
  }

  lemma ShrinkingStaysCoupled(A: Books, B: Books, m: seq<Row>)
    requires Shape(A) && Shape(B) && Sane(m) && CoupledAndSigned(A, m) && Shrinks(A, B)
    ensures CoupledAndSigned(B, m)
  {
    forall k | 0 <= k < B.domainCount ensures Satisfies(m, B.domains[k].alloc) {
      SatisfiesIsDownwardClosed(m, B.domains[k].alloc, A.domains[k].alloc);
    }
  }

  lemma RegisteringStaysCoupled(A: Books, id: DistributedId, phys: Vector, B: Books, m: seq<Row>)
    requires Shape(A) && Sane(m) && CoupledAndSigned(A, m) && A.domainCount < MAX_DOMAINS && Signed(phys)
    requires B == A.(domains := A.domains[A.domainCount := NewDomain(id, phys)], domainCount := A.domainCount + 1)
    ensures CoupledAndSigned(B, m)
  {
    forall k | 0 <= k < |m| ensures Dot(m[k], EMPTY, DIMS) <= m[k].limit {
      DotOfNothing(m[k], EMPTY, DIMS);
    }
  }

  lemma GrantStaysCoupled(A: Books, s: int, l: Lease, B: Books, m: seq<Row>)
    requires Balanced(A) && Shape(B) && Sane(m) && CoupledAndSigned(A, m) && Grants(A, s, l, B)
    requires Conserved(A.domains[DomainOf(A, l.resource)])
    requires Passes(m, Admitted(A.domains[DomainOf(A, l.resource)], l.amount).alloc)
    ensures CoupledAndSigned(B, m)
  {
    AdmissionKeepsCoupling(A.domains[DomainOf(A, l.resource)], l.amount, m);
  }

  // ---------------------------------------------------------------- quotas

  ghost predicate HasQuota(B: Books, entity: nat) {
    exists k: nat :: k < |B.quotas| && IsQuotaOf(B.quotas, entity, k)
  }

  ghost predicate HoldsNoAmount(B: Books, entity: nat)
    requires Shape(B)
  {
    forall i :: 0 <= i < DIMS ==> SumWhere(B.leases, HeldBy(entity), i, MAX_LEASES) == 0
  }

  /** Every quota entry is taken, none of them by this entity. */
  ghost predicate NoQuotaLeft(B: Books, entity: nat) {
    forall k :: 0 <= k < |B.quotas| ==> B.quotas[k].active && B.quotas[k].entity != entity
  }

  /** A request that is charged: it passes the checks before the resource is looked up, and has something to charge. */
  ghost predicate Charges(B: Books, q: Request)
    requires Shape(B) && q.Lend?
  {
    && q.coverage && q.now + q.duration <= U64_MAX && QuotaCovers(B.quotas, q.entity, q.amount)
    && HasQuota(B, q.entity) && q.amount.dims != ZERO_DIMS
  }

  /**
   Requests that keep quotas in agreement: no charge for an unknown resource, and no first quota for someone
   who already holds something.
   */
  ghost predicate QuotaSafe(B: Books, q: Request)
    requires Shape(B)
  {
    && (q.Lend? ==> Registered(B, q.resource) || !Charges(B, q))
    && (q.SetQuota? ==> HasQuota(B, q.entity) || HoldsNoAmount(B, q.entity) || NoQuotaLeft(B, q.entity))
  }

  lemma SetQuotaKeepsQuotas(A: Books, entity: nat, max: Vector, k: nat, B: Books)
    requires QuotasAgree(A) && Shape(B) && B == A.(quotas := B.quotas)
    requires QuotaSet(A.quotas, entity, max, k, B.quotas) && (HasQuota(A, entity) || HoldsNoAmount(A, entity))
    ensures QuotasAgree(B)
  {
    forall e: nat, j: nat ensures QuotaAgrees(B, e, j) {
      assert QuotaAgrees(A, e, j);
      if IsQuotaOf(B.quotas, e, j) && j < MAX_QUOTAS {
        if IsQuotaOf(A.quotas, entity, k) {
          QuotaSlotStays(A.quotas, k, B.quotas[k], e, j);
        } else if e == entity {
          NewQuotaIsFound(A, entity, max, k, B, j);
        } else {
          assert forall i :: 0 <= i < j ==> A.quotas[i] == B.quotas[i] || i == k;
          assert IsQuotaOf(A.quotas, e, j);
        }
      }
    }
  }

  /** A first quota starts with nothing in use, which is right exactly for someone who holds nothing. */
  lemma SetQuotaAgreesExactly(A: Books, entity: nat, max: Vector, k: nat, B: Books)
    requires QuotasAgree(A) && Shape(B) && B == A.(quotas := B.quotas) && QuotaSet(A.quotas, entity, max, k, B.quotas)
    ensures QuotasAgree(B) <==> HasQuota(A, entity) || HoldsNoAmount(A, entity)
  {
    if HasQuota(A, entity) || HoldsNoAmount(A, entity) {
      SetQuotaKeepsQuotas(A, entity, max, k, B);
    } else {
      assert !IsQuotaOf(A.quotas, entity, k);
      assert IsQuotaOf(B.quotas, entity, k);
      assert !QuotaAgrees(B, entity, k);
    }
  }

  /** A charge without a lease breaks the agreement exactly when there is a quota and something to charge. */
  lemma ChargeAgreesExactly(A: Books, entity: nat, v: Vector, k: nat, B: Books)
    requires QuotasAgree(A) && Shape(B) && B == A.(quotas := B.quotas) && Charged(A.quotas, entity, v, k, B.quotas)
    ensures QuotasAgree(B) <==> !HasQuota(A, entity) || v.dims == ZERO_DIMS
  {
    if k == MAX_QUOTAS {
      assert B == A && !HasQuota(A, entity);
    } else {
      assert HasQuota(A, entity) && IsQuotaOf(B.quotas, entity, k);
      if v.dims == ZERO_DIMS {
        assert Plus(A.quotas[k].used, v).dims == A.quotas[k].used.dims;
        SameAmountsSameQuotas(A, B);
      } else {
        var i :| 0 <= i < DIMS && v.dims[i] != 0;
        assert QuotaAgrees(A, entity, k);
        assert B.quotas[k].used.dims[i] != A.quotas[k].used.dims[i];
        assert !QuotaAgrees(B, entity, k);
      }
    }
  }

  lemma QuotaWasLeft(A: Books, entity: nat, max: Vector, k: nat, B: Books)
    requires Shape(A) && QuotaSet(A.quotas, entity, max, k, B.quotas)
    ensures !NoQuotaLeft(A, entity)
  {
  }

  lemma QuotaTableIsFull(A: Books, entity: nat)
    requires Shape(A) && forall i :: 0 <= i < MAX_QUOTAS ==> A.quotas[i].active && A.quotas[i].entity != entity
    ensures NoQuotaLeft(A, entity)
  {
  }

  lemma NewQuotaIsFound(A: Books, entity: nat, max: Vector, k: nat, B: Books, j: nat)
    requires Shape(A) && Shape(B) && QuotaSet(A.quotas, entity, max, k, B.quotas) && !IsQuotaOf(A.quotas, entity, k)
    requires IsQuotaOf(B.quotas, entity, j) && j < MAX_QUOTAS
    ensures j == k && !HasQuota(A, entity)
  {
  }

  lemma QuotasSeeOnlyLeases(A: Books, B: Books)
    requires QuotasAgree(A) && Shape(B) && B.leases == A.leases && B.quotas == A.quotas
    ensures QuotasAgree(B)
  {
    forall e: nat, k: nat ensures QuotaAgrees(B, e, k) { assert QuotaAgrees(A, e, k); }
  }

  // ---------------------------------------------------------------- serving

  /** What a run under a fixed matrix asks of a request: registered capacities can be read as signed numbers. */
  ghost predicate Tame(q: Request) {
    q.Register? ==> Signed(q.phys)
  }

  predicate Booking(q: Request) {
    q.Register? || q.SetQuota? || q.Confirm? || q.Reserve?
  }

  /** Serves a request about a domain or a quota. */
  method ServeBooks(e: Engine, a: AccountingManager, q: Request, c: Option<seq<Row>>)
    requires e.Valid(a) && Usable(c) && Booking(q)
    modifies e, e.leases, a, a.domains, a.quotas
    ensures e.Valid(a)
    ensures Sensible(c) && Tame(q) && old(Within(e.View(a), c)) ==> Within(e.View(a), c)
    ensures old(QuotasAgree(e.View(a))) ==> (QuotasAgree(e.View(a)) <==> old(QuotaSafe(e.View(a), q)))
  {
    hide Balanced, Agrees, Conserved, FindDomain, SumWhere, Occupied, CoupledAndSigned, Coupled, SignedCapacities, Sane;
    hide QuotasAgree, QuotaSet, IsQuotaOf, HoldsNoAmount, NoQuotaLeft, HasQuota, QuotaCovers;
    hide Grants, Ends, LosesProvider, SameAmounts, OnlyQuarantined;
    ghost var A := e.View(a);
    BalancedDomains(A);
    ghost var m := if c.Some? then c.value else [];
    ghost var coupled := c.Some? && Sane(m) && Tame(q) && CoupledAndSigned(A, m);
    ghost var quotas := QuotasAgree(A);
    match q
    case Register(id, phys) =>
      var r := a.Register(id, phys);
      if r.Ok? {
        RegisterKeepsBalance(A, id, phys, e.View(a));
        if coupled { RegisteringStaysCoupled(A, id, phys, e.View(a), m); }
      }
      if quotas { QuotasSeeOnlyLeases(A, e.View(a)); }
    case SetQuota(entity, max) =>
      var r := a.SetQuota(entity, max);
      BalanceIgnoresQuotas(A, e.View(a));
      if quotas {
        if r.Ok? {
          ghost var k: nat :| QuotaSet(A.quotas, entity, max, k, a.quotas[..]);
          SetQuotaAgreesExactly(A, entity, max, k, e.View(a));
          QuotaWasLeft(A, entity, max, k, e.View(a));
        } else {
          QuotaTableIsFull(A, entity);
        }
      }
      if coupled { SameDomainsStayCoupled(A, e.View(a), m); }
    case Confirm(id, amount) =>
      var r := e.ConfirmDriverRelease(a, id, amount);
      if quotas { QuotasSeeOnlyLeases(A, e.View(a)); }
      if coupled { ConfirmShrinks(A, e.View(a), DomainOf(A, id), amount, r.Ok?); ShrinkingStaysCoupled(A, e.View(a), m); }
    case Reserve(id, amount) =>
      SetAside(e, a, id, amount, c);
  }

  /** Sets capacity of a resource aside, if it is registered. */
  method SetAside(e: Engine, a: AccountingManager, id: DistributedId, amount: Vector, c: Option<seq<Row>>)
    requires e.Valid(a) && Usable(c)
    modifies a.domains
    ensures e.Valid(a)
    ensures Sensible(c) && old(Within(e.View(a), c)) ==> Within(e.View(a), c)
    ensures old(QuotasAgree(e.View(a))) ==> QuotasAgree(e.View(a))
  {
    hide Balanced, Agrees, Conserved, FindDomain, SumWhere, Occupied, CoupledAndSigned, Coupled, SignedCapacities, Sane;
    hide QuotasAgree;
    ghost var A := e.View(a);
    BalancedDomains(A);
    var d := a.Find(id);
    if d < a.domainCount {
      TransfersConserve(A.domains[d], amount);
      var r := a.Reserve(d, amount);
      if QuotasAgree(A) { QuotasSeeOnlyLeases(A, e.View(a)); }
      if r.Ok? { DomainChangeKeepsBalance(A, d, Reserved(A.domains[d], amount), e.View(a)); }
      if c.Some? && Sane(c.value) && CoupledAndSigned(A, c.value) {
        ReserveShrinks(A, e.View(a), d, amount, r.Ok?);
        ShrinkingStaysCoupled(A, e.View(a), c.value);
      }
    }
  }

  /** Serves a request about leases, with the node's coupling matrix, if it has one, at every admission. */
  method ServeLeases(e: Engine, a: AccountingManager, q: Request, c: Option<seq<Row>>)
    requires e.Valid(a) && Usable(c) && !Booking(q)
    modifies e, e.leases, a, a.domains, a.quotas
    ensures e.Valid(a)
    ensures Sensible(c) && Tame(q) && old(Within(e.View(a), c)) ==> Within(e.View(a), c)
    ensures old(QuotasAgree(e.View(a))) ==> (QuotasAgree(e.View(a)) <==> old(QuotaSafe(e.View(a), q)))
  {
    hide Balanced, Agrees, Conserved, FindDomain, SumWhere, Occupied, CoupledAndSigned, Coupled, SignedCapacities, Sane;
    hide QuotasAgree, QuotaSet, IsQuotaOf, HoldsNoAmount, NoQuotaLeft, HasQuota, QuotaCovers;
    hide Grants, Ends, LosesProvider, SameAmounts, OnlyQuarantined;
    ghost var A := e.View(a);
    BalancedDomains(A);
    ghost var m := if c.Some? then c.value else [];
    ghost var coupled := c.Some? && Sane(m) && Tame(q) && CoupledAndSigned(A, m);
    ghost var quotas := QuotasAgree(A);
    match q
    case Lend(lease, resource, entity, channel, amount, duration, now, coverage) =>
      var r, s := e.Request(a, lease, resource, entity, channel, amount, duration, now, coverage, c);
      if quotas && !Registered(A, resource) && coverage && now + duration <= U64_MAX && QuotaCovers(A.quotas, entity, amount) {
        ghost var k: nat :| Charged(A.quotas, entity, amount, k, a.quotas[..]);
        ChargeAgreesExactly(A, entity, amount, k, e.View(a));
      }
      if coupled {
        if r.Ok? {
          GrantStaysCoupled(A, s, r.value, e.View(a), m);
        } else if Registered(A, resource) {
          SameAmountsShrink(A, e.View(a));
          ShrinkingStaysCoupled(A, e.View(a), m);
        } else {
          SameDomainsStayCoupled(A, e.View(a), m);
        }
      }
    case Return(lease, generation) =>
      var r, s := e.Return(a, lease, generation);
      if coupled && r.Ok? {
        var l := A.leases[s].value;
        EndShrinks(A, s, None, GivenBack(A.domains[DomainOf(A, l.resource)], l.amount), e.View(a));
        ShrinkingStaysCoupled(A, e.View(a), m);
      }
    case Renew(lease, generation, extra, now) =>
      var r, s := e.Renew(a, lease, generation, extra, now);
      if coupled { SameDomainsStayCoupled(A, e.View(a), m); }
    case Reattest(lease, now, policyMax) =>
      var r, s := e.Reattest(a, lease, now, policyMax);
      if coupled { SameDomainsStayCoupled(A, e.View(a), m); }
    case LoseTimeAuthority =>
      e.LoseTimeAuthority(a);
      if coupled { QuarantineShrinks(A, e.View(a)); ShrinkingStaysCoupled(A, e.View(a), m); }
    case ClosePeer(channel) =>
      e.ClosePeer(a, channel);
      if coupled { QuarantineShrinks(A, e.View(a)); ShrinkingStaysCoupled(A, e.View(a), m); }
    case LoseProvider(id) =>
      e.LoseProvider(a, id);
      if coupled { ProviderLossShrinks(A, id, e.View(a)); ShrinkingStaysCoupled(A, e.View(a), m); }
  }

  method Serve(e: Engine, a: AccountingManager, q: Request, c: Option<seq<Row>>)
    requires e.Valid(a) && Usable(c)
    modifies e, e.leases, a, a.domains, a.quotas
    ensures e.Valid(a)
    ensures Sensible(c) && Tame(q) && old(Within(e.View(a), c)) ==> Within(e.View(a), c)
    ensures old(QuotasAgree(e.View(a))) ==> (QuotasAgree(e.View(a)) <==> old(QuotaSafe(e.View(a), q)))
  {
    hide Balanced, Agrees, Conserved, FindDomain, SumWhere, Occupied, CoupledAndSigned, Coupled, SignedCapacities, Sane;
    hide QuotasAgree, QuotaSet, IsQuotaOf, HoldsNoAmount, NoQuotaLeft, HasQuota, QuotaCovers;
    hide Grants, Ends, LosesProvider, SameAmounts, OnlyQuarantined, QuotaSafe, Tame, Sensible, Within;
    if Booking(q) {
      ServeBooks(e, a, q, c);
    } else {
      ServeLeases(e, a, q, c);
    }
  }

  lemma BalancedDomains(B: Books)
    requires Balanced(B)
    ensures Shape(B) && forall k :: 0 <= k < B.domainCount ==> Conserved(B.domains[k]) && !B.domains[k].locked
  {
  }

  lemma SameDomainsStayCoupled(A: Books, B: Books, m: seq<Row>)
    requires Shape(A) && Shape(B) && ValidMatrix(m) && CoupledAndSigned(A, m)
    requires B.domains == A.domains && B.domainCount == A.domainCount
    ensures CoupledAndSigned(B, m)
  {
  }

  lemma SameAmountsShrink(A: Books, B: Books)
    requires SameAmounts(A, B)
    ensures Shrinks(A, B)
  {
  }

  lemma EndShrinks(A: Books, s: int, o: Option<Lease>, d: Domain, B: Books)
    requires Balanced(A) && Shape(B) && Ends(A, s, o, d, B)
    requires d.phys == A.domains[DomainOf(A, A.leases[s].value.resource)].phys
    ensures Shrinks(A, B)
  {
  }

  lemma QuarantineShrinks(A: Books, B: Books)
    requires Shape(A) && Shape(B) && OnlyQuarantined(A.domains, B.domains) && B.domainCount == A.domainCount
    ensures Shrinks(A, B)
  {
  }

  lemma ProviderLossShrinks(A: Books, id: DistributedId, B: Books)
    requires Shape(A) && LosesProvider(A, id, B)
    ensures Shrinks(A, B)
  {
  }

  lemma ConfirmShrinks(A: Books, B: Books, d: nat, v: Vector, done: bool)
    requires Shape(A) && Shape(B) && B.domainCount == A.domainCount && d <= A.domainCount
    requires done ==>
      && d < A.domainCount && Conserved(A.domains[d]) && Below(v, A.domains[d].unavail)
      && B.domains == A.domains[d := Confirmed(A.domains[d], v)]
    requires !done ==> B.domains == A.domains
    ensures Shrinks(A, B)
  {
  }

  lemma ReserveShrinks(A: Books, B: Books, d: nat, v: Vector, done: bool)
    requires Shape(A) && Shape(B) && B.domainCount == A.domainCount && d < A.domainCount && Conserved(A.domains[d])
    requires done ==> Below(v, A.domains[d].avail) && B.domains == A.domains[d := Reserved(A.domains[d], v)]
    requires !done ==> B.domains == A.domains
    ensures Shrinks(A, B)
  {
  }

  /**
   Every run keeps the books balanced, with or without a coupling matrix, and under a sane matrix every
   allocation meets the exact constraint throughout. Quotas agree with the leases until the first request that
   is not quota-safe, and no longer.
   */
  method Run(requests: seq<Request>, c: Option<seq<Row>>) returns (e: Engine, a: AccountingManager, ghost books: seq<Books>)
    requires Usable(c)
    ensures e.Valid(a) && |books| == |requests| + 1 && books[|requests|] == e.View(a)
    ensures forall i :: 0 <= i < |books| ==> Shape(books[i]) && Balanced(books[i])
    ensures Sensible(c) && (forall i :: 0 <= i < |requests| ==> Tame(requests[i])) ==>
      forall i :: 0 <= i < |books| ==> Within(books[i], c)
    ensures QuotasAgree(books[0])
    ensures forall i {:trigger requests[i]} :: 0 <= i < |requests| && QuotasAgree(books[i]) ==>
      (QuotasAgree(books[i + 1]) <==> QuotaSafe(books[i], requests[i]))
    ensures (forall i :: 0 <= i < |requests| ==> QuotaSafe(books[i], requests[i])) ==> QuotasAgree(e.View(a))
  {
    hide Balanced, Sensible, Tame, Within, QuotasAgree, QuotaSafe;
    a := new AccountingManager();
    e := new Engine(a);
    BalancedDomains(e.View(a));
    FirstBooks(e.View(a), c);
    books := [e.View(a)];
    ghost var tame := Sensible(c) && forall i :: 0 <= i < |requests| ==> Tame(requests[i]);
    for i := 0 to |requests|
      invariant e.Valid(a) && fresh(e) && fresh(e.leases) && fresh(a) && fresh(a.domains) && fresh(a.quotas)
      invariant |books| == i + 1 && books[i] == e.View(a) && QuotasAgree(books[0])
      invariant forall j :: 0 <= j < |books| ==> Shape(books[j]) && Balanced(books[j])
      invariant tame ==> forall j :: 0 <= j < |books| ==> Within(books[j], c)
      invariant forall j {:trigger requests[j]} :: 0 <= j < i && QuotasAgree(books[j]) ==>
        (QuotasAgree(books[j + 1]) <==> QuotaSafe(books[j], requests[j]))
      invariant (forall j :: 0 <= j < i ==> QuotaSafe(books[j], requests[j])) ==> QuotasAgree(books[i])
    {
      BalancedDomains(e.View(a));
      Serve(e, a, requests[i], c);
      BalancedDomains(e.View(a));
      books := books + [e.View(a)];
    }
  }

  lemma FirstBooks(B: Books, c: Option<seq<Row>>)
    requires Balanced(B) && Usable(c) && B.domainCount == 0
    requires forall k :: 0 <= k < MAX_QUOTAS ==> !B.quotas[k].active
    ensures QuotasAgree(B) && Within(B, c)
  {
  }

  // ---------------------------------------------------------------- the quota leak

  /** An engine without leases in which entity 7 has a quota of five. */
  method WithQuota() returns (e: Engine, a: AccountingManager, ghost k: nat)
    ensures e.Valid(a) && fresh(e) && fresh(e.leases) && fresh(a) && fresh(a.domains) && fresh(a.quotas)
    ensures a.domainCount == 0 && (forall s :: 0 <= s < MAX_LEASES ==> e.leases[s].None?) && QuotasAgree(e.View(a))
    ensures k < MAX_QUOTAS && IsQuotaOf(a.quotas[..], 7, k) && a.quotas[k].used.dims == ZERO_DIMS
    ensures HasQuota(e.View(a), 7) && QuotaCovers(a.quotas[..], 7, FIVE)
  {
    hide Balanced, SumWhere, QuotasAgree, QuotaSet, HasQuota, HoldsNoAmount, QuotaCovers, Agrees, Occupied;
    a := new AccountingManager();
    e := new Engine(a);
    ghost var A := e.View(a);
    FirstBooks(A, None);
    NothingHeld(A, 7);
    assert !a.quotas[0].active;
    var _ := a.SetQuota(7, FIVE);
    ghost var B := e.View(a);
    BalanceIgnoresQuotas(A, B);
    k :| QuotaSet(A.quotas, 7, FIVE, k, B.quotas);
    SetQuotaKeepsQuotas(A, 7, FIVE, k, B);
    OnlyQuota(A, 7, FIVE, k, B);
  }

  const FIVE: Vector := RawVector([5, 0, 0, 0, 0, 0, 0, 0], 1)

  /** A refused request on an unknown resource leaves the quota charged although no lease exists. */
  method UnknownResourceLeaksQuota() returns (e: Engine, a: AccountingManager)
    ensures e.Valid(a) && (forall s :: 0 <= s < MAX_LEASES ==> e.leases[s].None?)
    ensures exists k :: 0 <= k < MAX_QUOTAS && a.quotas[k].active && a.quotas[k].used.dims[0] == 5
    ensures !QuotasAgree(e.View(a))
  {
    hide Balanced, SumWhere, QuotasAgree, Charged, HasQuota, QuotaCovers, IsQuotaOf, Grants, SameAmounts, Below, Passes;
    ghost var k;
    e, a, k := WithQuota();
    ghost var B := e.View(a);
    var id := DistributedId(1, 1);
    var r, s := e.Request(a, id, id, 7, 0, FIVE, 0, 0, true, None);
    ghost var j: nat :| Charged(B.quotas, 7, FIVE, j, a.quotas[..]);
    ChargeAgreesExactly(B, 7, FIVE, j, e.View(a));
    ChargedOnce(B, FIVE, k, j, e.View(a));
  }

  /** An engine in which entity 7, without a quota, holds a lease of five. */
  method WithLease() returns (e: Engine, a: AccountingManager, ghost s: nat)
    ensures e.Valid(a) && fresh(e) && fresh(e.leases) && fresh(a) && fresh(a.domains) && fresh(a.quotas)
    ensures QuotasAgree(e.View(a)) && forall k :: 0 <= k < MAX_QUOTAS ==> !a.quotas[k].active
    ensures s < MAX_LEASES && e.leases[s].Some? && e.leases[s].value.holder == 7 && e.leases[s].value.amount == FIVE
  {
    hide Balanced, SumWhere, QuotasAgree, QuotaCovers, Agrees, Occupied, Conserved, Plus, Fits, SameAmounts, Admitted;
    a := new AccountingManager();
    e := new Engine(a);
    ghost var A := e.View(a);
    FirstBooks(A, None);
    var id := DistributedId(1, 1);
    var _ := a.Register(id, FIVE);
    ghost var B := e.View(a);
    RegisterKeepsBalance(A, id, FIVE, B);
    QuotasSeeOnlyLeases(A, B);
    NoQuotaCovers(B.quotas, 7, FIVE);
    assert e.leases[0].None? && B.domains[0].avail == FIVE && FindDomain(B.domains, 1, id) == 0;
    var r;
    r, s := e.Request(a, id, id, 7, 0, FIVE, 0, 0, true, None);
    ghost var k: nat :| Charged(B.quotas, 7, FIVE, k, a.quotas[..]);
    assert forall i :: 0 <= i < MAX_QUOTAS ==> !a.quotas[..][i].active;
  }

  lemma NoQuotaCovers(Q: seq<Quota>, entity: nat, v: Vector)
    requires forall k :: 0 <= k < |Q| ==> !Q[k].active
    ensures QuotaCovers(Q, entity, v)
  {
  }

  /** A first quota for an entity that already holds a lease starts at zero and so disagrees with the leases. */
  method LateQuotaDisagrees() returns (e: Engine, a: AccountingManager)
    ensures e.Valid(a) && !QuotasAgree(e.View(a))
  {
    hide Balanced, SumWhere, QuotasAgree, QuotaSet, IsQuotaOf, Agrees, Occupied;
    ghost var s;
    e, a, s := WithLease();
    ghost var A := e.View(a);
    assert !a.quotas[0].active;
    var _ := a.SetQuota(7, FIVE);
    ghost var B := e.View(a);
    BalanceIgnoresQuotas(A, B);
    ghost var k: nat :| QuotaSet(A.quotas, 7, FIVE, k, B.quotas);
    SomethingHeld(A, 7, s);
    SetQuotaAgreesExactly(A, 7, FIVE, k, B);
  }

  lemma SomethingHeld(B: Books, entity: nat, s: nat)
    requires Shape(B) && s < MAX_LEASES && B.leases[s].Some? && B.leases[s].value.holder == entity
    requires B.leases[s].value.amount.dims[0] > 0 && forall k :: 0 <= k < MAX_QUOTAS ==> !B.quotas[k].active
    ensures !HoldsNoAmount(B, entity) && !HasQuota(B, entity)
  {
    ShareIsPartOfSum(B.leases, HeldBy(entity), 0, MAX_LEASES, s);
  }

  lemma NothingHeld(B: Books, entity: nat)
    requires Shape(B) && forall s :: 0 <= s < MAX_LEASES ==> B.leases[s].None?
    ensures HoldsNoAmount(B, entity)
  {
    forall i | 0 <= i < DIMS ensures SumWhere(B.leases, HeldBy(entity), i, MAX_LEASES) == 0 {
      SumOfNothing(B.leases, HeldBy(entity), i, MAX_LEASES);
    }
  }

  lemma OnlyQuota(A: Books, entity: nat, max: Vector, k: nat, B: Books)
    requires Shape(A) && Shape(B) && QuotaSet(A.quotas, entity, max, k, B.quotas)
    requires forall i :: 0 <= i < MAX_QUOTAS ==> !A.quotas[i].active
    ensures k < MAX_QUOTAS && IsQuotaOf(B.quotas, entity, k) && B.quotas[k].used.dims == ZERO_DIMS && HasQuota(B, entity)
    ensures QuotaCovers(B.quotas, entity, max)
  {
  }

  lemma ChargedOnce(B: Books, v: Vector, k: nat, j: nat, C: Books)
    requires Shape(B) && IsQuotaOf(B.quotas, 7, k) && k < MAX_QUOTAS && B.quotas[k].used.dims == ZERO_DIMS
    requires Charged(B.quotas, 7, v, j, C.quotas)
    ensures |C.quotas| == MAX_QUOTAS && C.quotas[k].active && C.quotas[k].used.dims[0] == v.dims[0]
  {
    QuotaIsUnique(B.quotas, 7, k, j);
  }
}
