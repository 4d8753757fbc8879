/** The API contract suite: its round-robin case pools and a run over the catalogue. */
module Contracts {
  datatype Case = Case(variant: nat, route: nat)

  const CHECKPOINT := 100

  // ---------------------------------------------------------------------------------------
  // Pools

  /** Variant-first ordering: the i-th case of a pool over `routes` routes. */
  function CaseAt(routes: nat, i: nat): Case
    requires routes > 0
  {
    Case(i / routes, i % routes)
  }

  method MakePool(variants: nat, routes: nat) returns (pool: seq<Case>)
    ensures |pool| == variants * routes
    ensures routes > 0 ==> forall i | 0 <= i < |pool| :: pool[i] == CaseAt(routes, i)
  {
    pool := [];
    for variant := 0 to variants
      invariant |pool| == variant * routes
      invariant routes > 0 ==> forall i | 0 <= i < |pool| :: pool[i] == CaseAt(routes, i)
    {
      for route := 0 to routes
        invariant |pool| == variant * routes + route
        invariant routes > 0 ==> forall i | 0 <= i < |pool| :: pool[i] == CaseAt(routes, i)
      {
        Position(routes, variant, route);
        pool := pool + [Case(variant, route)];
      }
      assert variant * routes + routes == (variant + 1) * routes;
    }
  }

  lemma Position(routes: nat, variant: nat, route: nat)
    requires route < routes
    ensures CaseAt(routes, variant * routes + route) == Case(variant, route)
  {
    var n := variant * routes + route;
    Quotient(n, routes, variant, route);
  }

  lemma {:induction false} Above(q: nat, q': nat, d: nat)
    requires q' < q
    ensures q * d >= q' * d + d
  {
    Successor(q - 1, d);
    if q' < q - 1 { Above(q - 1, q', d); }
  }

  /** A quotient with a remainder below the divisor is unique. */
  lemma Unique(d: nat, q: nat, r: nat, q': nat, r': nat)
    requires r < d && r' < d && q * d + r == q' * d + r'
    ensures q == q' && r == r'
  {
    if q' < q { Above(q, q', d); } else if q < q' { Above(q', q, d); }
  }

  lemma Division(n: nat, d: nat)
    requires d > 0
    ensures n == (n / d) * d + n % d && n % d < d
  {
  }

  lemma Quotient(n: nat, d: nat, q: nat, r: nat)
    requires r < d && n == q * d + r
    ensures n / d == q && n % d == r
  {
    Division(n, d);
    Unique(d, q, r, n / d, n % d);
  }

  /** How many of the first n cases visit a route. */
  function Visits(routes: nat, n: nat, route: nat): nat
    requires routes > 0
  {
    if n == 0 then 0
    else Visits(routes, n - 1, route) + if CaseAt(routes, n - 1).route == route then 1 else 0
  }

  lemma NextVisit(n: nat, d: nat)
    requires n > 0 && d > 0
    ensures n % d == if (n - 1) % d == d - 1 then 0 else (n - 1) % d + 1
    ensures n / d == (n - 1) / d + if (n - 1) % d == d - 1 then 1 else 0
  {
    var q, r := (n - 1) / d, (n - 1) % d;
    Division(n - 1, d);
    if r == d - 1 {
      Successor(q, d);
      Quotient(n, d, q + 1, 0);
    } else {
      Quotient(n, d, q, r + 1);
    }
  }

  lemma {:induction false} VisitsExact(routes: nat, n: nat, route: nat)
    requires route < routes
    ensures Visits(routes, n, route) == n / routes + if route < n % routes then 1 else 0
  {
    if n == 0 {
      Quotient(0, routes, 0, 0);
    } else {
      VisitsExact(routes, n - 1, route);
      NextVisit(n, routes);
    }
  }

  /** However a pool is cut, each route is covered the floor or the ceiling of n / routes times. */
  lemma CoverageEven(routes: nat, n: nat, route: nat)
    requires route < routes
    ensures n / routes <= Visits(routes, n, route) <= (n + routes - 1) / routes
  {
    VisitsExact(routes, n, route);
    Between(n, routes, route);
  }

  lemma Between(n: nat, d: nat, r: nat)
    requires r < d
    ensures n / d + (if r < n % d then 1 else 0) <= (n + d - 1) / d
  {
    Ceiling(n, d, n / d, n % d);
  }

  lemma Ceiling(n: nat, d: nat, q: nat, r: nat)
    requires r < d && q == n / d && r == n % d
    ensures (n + d - 1) / d == q + if r > 0 then 1 else 0
  {
    Division(n, d);
    if r > 0 {
      Successor(q, d);
      Quotient(n + d - 1, d, q + 1, r - 1);
    } else {
      Quotient(n + d - 1, d, q, d - 1);
    }
  }

  lemma Successor(q: nat, d: nat)
    ensures (q + 1) * d == q * d + d
  {
  }

  // ---------------------------------------------------------------------------------------
  // A run

  /** What the appliance does during a run: whether the preflight controls hold, whether case i meets
      its expectation, the configuration read at the checkpoint after i cases, and its health then. */
  datatype Appliance = Appliance(
    preflight: bool, initial: string, passes: nat -> bool, stateAfter: nat -> string, healthy: nat -> bool,
    atEnd: string)

  datatype Summary = Summary(planned: nat, passed: nat, failed: nat, notRun: nat, error: bool)

  predicate IsCheckpoint(i: nat, total: nat) {
    i % 100 == 0 || i == total
  }

  predicate CheckpointHolds(a: Appliance, i: nat) {
    a.stateAfter(i) == a.initial && a.healthy(i)
  }

  predicate CheckpointsHold(a: Appliance, total: nat) {
    forall i | 1 <= i <= total :: IsCheckpoint(i, total) ==> CheckpointHolds(a, i)
  }

  predicate AllPass(a: Appliance, n: nat) {
    forall i | 0 <= i < n :: a.passes(i)
  }

  /** `execute` over `planned` cases, `total` being the number the suite insists on. */
  method Execute(a: Appliance, planned: nat, total: nat) returns (exit: nat, results: seq<bool>, summary: Summary)
    ensures |results| <= planned
    ensures forall i | 0 <= i < |results| :: results[i] == a.passes(i)
    ensures forall i | 0 <= i < |results| - 1 :: results[i]
    ensures summary.planned == planned == summary.passed + summary.failed + summary.notRun
    ensures summary.failed <= 1 && (summary.failed == 1 <==> results != [] && !results[|results| - 1])
    ensures summary.passed + summary.failed == |results|
    ensures |results| == planned || summary.error
    ensures summary.error <==>
      !(a.preflight && AllPass(a, planned) && CheckpointsHold(a, planned) && a.atEnd == a.initial)
    ensures exit <= 1
    ensures exit == 0 <==>
      a.preflight && planned == total && AllPass(a, planned) && CheckpointsHold(a, planned) && a.atEnd == a.initial
  {
    results := [];
    var error := !a.preflight;
    var index := 0;
    while index < planned && !error
      invariant |results| == index <= planned
      invariant forall i | 0 <= i < index :: results[i] == a.passes(i)
      invariant forall i | 0 <= i < index - 1 :: results[i]
      invariant !error ==> a.preflight && AllPass(a, index)
      invariant !error ==> forall i | 1 <= i <= index :: IsCheckpoint(i, planned) ==> CheckpointHolds(a, i)
      invariant error ==>
        !a.preflight || !AllPass(a, planned) || !CheckpointsHold(a, planned)
    {
      var ok := a.passes(index);
      results := results + [ok];
      index := index + 1;
      if !ok {
        error := true;
      } else if index % CHECKPOINT == 0 || index == planned {
        if a.stateAfter(index) != a.initial || !a.healthy(index) {
          assert IsCheckpoint(index, planned);
          error := true;
        }
      }
    }
    if !error && a.atEnd != a.initial { error := true; }
    var passed, failed := Count(results);
    summary := Summary(planned, passed, failed, planned - |results|, error);
    exit := if !error && summary.passed == total && summary.failed == 0 && summary.notRun == 0 then 0 else 1;
  }

  /** Passes and failures of results in which only the last may fail. */
  method Count(results: seq<bool>) returns (passed: nat, failed: nat)
    requires forall i | 0 <= i < |results| - 1 :: results[i]
    ensures passed + failed == |results|
    ensures failed == if results != [] && !results[|results| - 1] then 1 else 0
  {
    passed, failed := 0, 0;
    for i := 0 to |results|
      invariant passed + failed == i
      invariant failed == if i > 0 && !results[i - 1] then 1 else 0
    {
      if results[i] { passed := passed + 1; } else { failed := failed + 1; }
    }
  }
}
