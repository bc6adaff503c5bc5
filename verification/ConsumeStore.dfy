/** The in-memory consume registry: uses keyed by one length-prefixed string. */
module ConsumeStore {
  import opened Prelude
  import opened GuardProtocol
  import SpendLimiter

  datatype Outcome = Ran(settledAt: string) | DidNotRun(settledAt: string, error: string)

  datatype UseClaim = UseClaim(use: Use, digest: string, outcome: Option<Outcome>)

  datatype ClaimResult = Won(used: nat) | Duplicate(existing: UseClaim) | Exhausted(used: nat)

  function KeyOf(use: Use): string {
    SpendLimiter.ScopeKey(use.mandateId, use.intentId)
  }

  lemma KeyIsInjective(a: Use, b: Use)
    ensures KeyOf(a) == KeyOf(b) <==> a == b
  {
    SpendLimiter.ScopeKeyIsInjective(a.mandateId, a.intentId, b.mandateId, b.intentId);
  }

  // ---------- The registry, by use ----------

  function Under(registry: map<Use, UseClaim>, mandateId: string): set<Use> {
    set u | u in registry && u.mandateId == mandateId
  }

  function ClaimAnswer(registry: map<Use, UseClaim>, claim: UseClaim, maxUses: nat): ClaimResult {
    if claim.use in registry then Duplicate(registry[claim.use])
    else
      var used := |Under(registry, claim.use.mandateId)|;
      if used >= maxUses then Exhausted(used) else Won(used + 1)
  }

  function AfterClaim(registry: map<Use, UseClaim>, claim: UseClaim, maxUses: nat): map<Use, UseClaim> {
    if ClaimAnswer(registry, claim, maxUses).Won? then registry[claim.use := claim.(outcome := None)] else registry
  }

  /** First write wins; settling what was never claimed does nothing. */
  function AfterSettle(registry: map<Use, UseClaim>, use: Use, outcome: Outcome): map<Use, UseClaim> {
    if use in registry && registry[use].outcome.None? then registry[use := registry[use].(outcome := Some(outcome))] else registry
  }

  /** Once settled, a use keeps that outcome; once claimed, it keeps its digest and stays claimed. */
  predicate KeepsPromises(before: map<Use, UseClaim>, after: map<Use, UseClaim>) {
    forall u :: u in before ==>
      u in after && after[u].digest == before[u].digest && (before[u].outcome.Some? ==> after[u] == before[u])
  }

  datatype RegistryOp = DoClaim(claim: UseClaim, maxUses: nat) | DoSettle(use: Use, outcome: Outcome)

  function AfterOp(registry: map<Use, UseClaim>, op: RegistryOp): map<Use, UseClaim> {
    match op
    case DoClaim(claim, maxUses) => AfterClaim(registry, claim, maxUses)
    case DoSettle(use, outcome) => AfterSettle(registry, use, outcome)
  }

  function RegistryAfter(registry: map<Use, UseClaim>, ops: seq<RegistryOp>): map<Use, UseClaim> {
    if ops == [] then registry
    else AfterOp(RegistryAfter(registry, ops[..|ops| - 1]), ops[|ops| - 1])
  }

  lemma {:induction false} RegistryKeepsPromises(registry: map<Use, UseClaim>, ops: seq<RegistryOp>)
    ensures KeepsPromises(registry, RegistryAfter(registry, ops))
  {
    if ops != [] {
      RegistryKeepsPromises(registry, ops[..|ops| - 1]);
    }
  }

  /** How many uses of this mandate are claimed. */
  function ClaimsOf(registry: map<Use, UseClaim>, mandateId: string): nat {
    |set u | u in registry && u.mandateId == mandateId|
  }

  /** A claim is won exactly when its use is new and its mandate has one left; then it is there,
      unsettled, and counted; otherwise nothing changes, and a use claimed before is shown. */
  lemma ClaimWonIff(registry: map<Use, UseClaim>, claim: UseClaim, maxUses: nat)
    ensures var answer, after := ClaimAnswer(registry, claim, maxUses), AfterClaim(registry, claim, maxUses);
      && (answer.Won? <==> claim.use !in registry && ClaimsOf(registry, claim.use.mandateId) < maxUses)
      && (answer.Won? ==> after == registry[claim.use := UseClaim(claim.use, claim.digest, None)]
                          && answer.used == ClaimsOf(registry, claim.use.mandateId) + 1 == ClaimsOf(after, claim.use.mandateId))
      && (!answer.Won? ==> after == registry)
      && (answer.Duplicate? <==> claim.use in registry) && (answer.Duplicate? ==> answer.existing == registry[claim.use])
      && (answer.Exhausted? ==> answer.used == ClaimsOf(registry, claim.use.mandateId) >= maxUses)
  {
    assert ClaimsOf(registry, claim.use.mandateId) == |Under(registry, claim.use.mandateId)|;
    var after := registry[claim.use := UseClaim(claim.use, claim.digest, None)];
    if claim.use !in registry {
      assert (set u | u in after && u.mandateId == claim.use.mandateId)
        == (set u | u in registry && u.mandateId == claim.use.mandateId) + {claim.use};
    }
  }

  /** The first outcome reported for a claimed use stands, whatever is asked afterwards. */
  lemma FirstSettleStands(registry: map<Use, UseClaim>, use: Use, outcome: Outcome, more: seq<RegistryOp>)
    requires use in registry && registry[use].outcome.None?
    ensures var after := RegistryAfter(registry, [DoSettle(use, outcome)] + more);
      use in after && after[use].outcome == Some(outcome) && after[use].digest == registry[use].digest
  {
    hide AfterOp, RegistryAfter;
    SettledNow(registry, use, outcome);
    RegistryConcat(registry, [DoSettle(use, outcome)], more);
    RegistryKeepsPromises(RegistryAfter(registry, [DoSettle(use, outcome)]), more);
  }

  lemma SettledNow(registry: map<Use, UseClaim>, use: Use, outcome: Outcome)
    requires use in registry && registry[use].outcome.None?
    ensures var after := RegistryAfter(registry, [DoSettle(use, outcome)]);
      use in after && after[use].outcome == Some(outcome) && after[use].digest == registry[use].digest
  {
    var ops := [DoSettle(use, outcome)];
    assert ops[..0] == [] && RegistryAfter(registry, []) == registry;
    assert RegistryAfter(registry, ops) == AfterOp(RegistryAfter(registry, ops[..0]), ops[0]);
  }

  lemma {:induction false} RegistryConcat(registry: map<Use, UseClaim>, a: seq<RegistryOp>, b: seq<RegistryOp>)
    ensures RegistryAfter(registry, a + b) == RegistryAfter(RegistryAfter(registry, a), b)
  {
    hide AfterOp;
    if b == [] {
      assert a + b == a;
    } else {
      assert (a + b)[..|a + b| - 1] == a + b[..|b| - 1];
      RegistryConcat(registry, a, b[..|b| - 1]);
    }
  }

  // ---------- The store ----------

  ghost predicate Stores(claims: map<string, UseClaim>, registry: map<Use, UseClaim>) {
    && (forall k :: k in claims ==> KeyOf(claims[k].use) == k && claims[k].use in registry)
    && (forall u :: u in registry ==> StoredUnder(claims, registry, u))
  }

  predicate StoredUnder(claims: map<string, UseClaim>, registry: map<Use, UseClaim>, u: Use)
    requires u in registry
  {
    registry[u].use == u && KeyOf(u) in claims && claims[KeyOf(u)] == registry[u]
  }

  lemma StoresLookup(claims: map<string, UseClaim>, registry: map<Use, UseClaim>, u: Use)
    requires Stores(claims, registry)
    ensures u in registry <==> KeyOf(u) in claims
    ensures u in registry ==> claims[KeyOf(u)] == registry[u] && registry[u].use == u
  {
    hide KeyOf;
    if KeyOf(u) in claims {
      KeyIsInjective(claims[KeyOf(u)].use, u);
    }
  }

  lemma StoresUpdate(claims: map<string, UseClaim>, registry: map<Use, UseClaim>, claim: UseClaim)
    requires Stores(claims, registry)
    ensures Stores(claims[KeyOf(claim.use) := claim], registry[claim.use := claim])
  {
    hide KeyOf;
    var registry' := registry[claim.use := claim];
    forall u | u in registry'
      ensures StoredUnder(claims[KeyOf(claim.use) := claim], registry', u)
    {
      KeyIsInjective(u, claim.use);
      if u != claim.use {
        assert StoredUnder(claims, registry, u);
      }
    }
  }

  /** The uses of a mandate already counted. */
  function Counted(registry: map<Use, UseClaim>, mandateId: string, todo: set<string>): set<Use> {
    set u | u in registry && u.mandateId == mandateId && KeyOf(u) !in todo
  }

  lemma CountNext(claims: map<string, UseClaim>, registry: map<Use, UseClaim>, mandateId: string, todo: set<string>, k: string)
    requires Stores(claims, registry) && k in claims && k in todo
    ensures |Counted(registry, mandateId, todo - {k})|
      == |Counted(registry, mandateId, todo)| + if claims[k].use.mandateId == mandateId then 1 else 0
  {
    hide KeyOf;
    var u := claims[k].use;
    forall v
      ensures KeyOf(v) == k <==> v == u
    {
      KeyIsInjective(v, u);
    }
    var before := Counted(registry, mandateId, todo);
    assert Counted(registry, mandateId, todo - {k}) == if u.mandateId == mandateId then before + {u} else before;
  }

  class MemoryConsumeStore {
    var claims: map<string, UseClaim>
    ghost var registry: map<Use, UseClaim>

    ghost predicate Valid()
      reads this
    {
      Stores(claims, registry)
    }

    constructor ()
      ensures Valid() && registry == map[]
    {
      claims, registry := map[], map[];
    }

    method CountClaims(mandateId: string) returns (n: nat)
      requires Valid()
      ensures n == |Under(registry, mandateId)|
    {
      hide KeyOf;
      n := 0;
      var todo := claims.Keys;
      assert Counted(registry, mandateId, todo) == {} by {
        forall u | u in registry
          ensures KeyOf(u) in todo
        {
          assert StoredUnder(claims, registry, u);
        }
      }
      while todo != {}
        invariant todo <= claims.Keys && n == |Counted(registry, mandateId, todo)|
        decreases todo
      {
        var k :| k in todo;
        CountNext(claims, registry, mandateId, todo, k);
        if claims[k].use.mandateId == mandateId {
          n := n + 1;
        }
        todo := todo - {k};
      }
      assert Counted(registry, mandateId, {}) == Under(registry, mandateId);
    }

    method Claim(claim: UseClaim, maxUses: nat) returns (result: ClaimResult)
      requires Valid()
      modifies this
      ensures Valid()
      ensures result == ClaimAnswer(old(registry), claim, maxUses)
      ensures registry == AfterClaim(old(registry), claim, maxUses)
    {
      hide Stores, KeyOf, Under;
      var k := KeyOf(claim.use);
      StoresLookup(claims, registry, claim.use);
      if k in claims {
        return Duplicate(claims[k]);
      }
      var used := CountClaims(claim.use.mandateId);
      if used >= maxUses {
        return Exhausted(used);
      }
      var pending := claim.(outcome := None);
      StoresUpdate(claims, registry, pending);
      claims := claims[k := pending];
      registry := registry[claim.use := pending];
      result := Won(used + 1);
    }

    method Settle(use: Use, outcome: Outcome)
      requires Valid()
      modifies this
      ensures Valid() && registry == AfterSettle(old(registry), use, outcome)
    {
      hide Stores, KeyOf;
      var k := KeyOf(use);
      StoresLookup(claims, registry, use);
      if k !in claims || claims[k].outcome.Some? {
        return;
      }
      var settled := claims[k].(outcome := Some(outcome));
      StoresUpdate(claims, registry, settled);
      claims := claims[k := settled];
      registry := registry[use := settled];
    }

    method Get(use: Use) returns (claim: Option<UseClaim>)
      requires Valid()
      ensures claim == if use in registry then Some(registry[use]) else None
    {
      hide Stores, KeyOf;
      StoresLookup(claims, registry, use);
      claim := if KeyOf(use) in claims then Some(claims[KeyOf(use)]) else None;
    }
  }

  // ---------- The protocol's claim step is this store's claim ----------

  /** The protocol's registry, seen through the store: same uses, same digests. */
  ghost predicate Abstracts(registry: map<Use, UseClaim>, claims: map<Use, Claim>) {
    && registry.Keys == claims.Keys
    && forall u :: u in registry ==> registry[u].digest == claims[u].digest
  }

  lemma SameCount(registry: map<Use, UseClaim>, claims: map<Use, Claim>, mandateId: string)
    requires Abstracts(registry, claims)
    ensures Under(registry, mandateId) == UsesOf(claims, mandateId)
  {
  }

  function Asked(a: Attempt): UseClaim
    requires a.mandate.Some?
  {
    UseClaim(UseOf(a), a.digest, None)
  }

  /** What the store does in a claim step: a call that threw before it took effect did nothing. */
  function StoreAfter(registry: map<Use, UseClaim>, a: Attempt, fault: Fault): map<Use, UseClaim>
    requires a.mandate.Some?
  {
    if fault.Before? then registry else AfterClaim(registry, Asked(a), a.mandate.value.maxUses)
  }

  lemma ClaimAnswersAlike(registry: map<Use, UseClaim>, claims: map<Use, Claim>, a: Attempt)
    requires a.mandate.Some? && Abstracts(registry, claims)
    ensures match ClaimAnswer(registry, Asked(a), a.mandate.value.maxUses)
      case Won(_) => UseOf(a) !in claims && |UsesOf(claims, a.mandate.value.id)| < a.mandate.value.maxUses
      case Duplicate(existing) => UseOf(a) in claims && claims[UseOf(a)].digest == existing.digest
      case Exhausted(_) => UseOf(a) !in claims && |UsesOf(claims, a.mandate.value.id)| >= a.mandate.value.maxUses
  {
    hide Under, UsesOf;
    SameCount(registry, claims, a.mandate.value.id);
  }

  lemma StoreFollows(registry: map<Use, UseClaim>, claims: map<Use, Claim>, a: Attempt, i: nat)
    requires a.mandate.Some? && Abstracts(registry, claims)
    ensures Abstracts(AfterClaim(registry, Asked(a), a.mandate.value.maxUses),
      if ClaimAnswer(registry, Asked(a), a.mandate.value.maxUses).Won? then claims[UseOf(a) := Claim(a.digest, i)] else claims)
  {
    hide ClaimAnswer;
  }

  /** The protocol's claim step is the store's claim: it takes the branch the store's answer
      says, ends in a denial if the call threw, and leaves the registry the store would. */
  lemma ClaimStepFollowsStore(s: World, i: nat, registry: map<Use, UseClaim>, fault: Fault)
    requires At(s, i, Claiming) && s.attempts[i].mandate.Some? && Abstracts(registry, s.claims)
    ensures var a := s.attempts[i];
      StepClaim(s, i, fault).attempts[i].pc ==
        if !fault.Fine? then Done(Denied)
        else match ClaimAnswer(registry, Asked(a), a.mandate.value.maxUses)
          case Won(_) => Recording
          case Duplicate(existing) => Releasing(if existing.digest == a.digest then ReplayedAnswer else Denied)
          case Exhausted(_) => Releasing(Denied)
    ensures Abstracts(StoreAfter(registry, s.attempts[i], fault), StepClaim(s, i, fault).claims)
  {
    hide ClaimAnswer, AfterClaim, UsesOf, Abstracts;
    ClaimAnswersAlike(registry, s.claims, s.attempts[i]);
    StoreFollows(registry, s.claims, s.attempts[i], i);
  }

  lemma OtherStepsKeepClaims(s: World, action: Action)
    requires !action.ClaimUse?
    ensures Step(s, action).claims == s.claims
  {
    hide UsesOf, Holds, UseOf, AfterPrior;
    if action.LookUp? && At(s, action.i, LookingUp) && s.attempts[action.i].mandate.Some? {
      LookUpKeepsClaims(s, action.i, action.known, action.fault);
      hide StepLookUp;
    }
  }

  lemma LookUpKeepsClaims(s: World, i: nat, known: bool, fault: Fault)
    requires At(s, i, LookingUp) && s.attempts[i].mandate.Some?
    ensures StepLookUp(s, i, known, fault).claims == s.claims
  {
  }

  lemma OneMoreOp(ops: seq<RegistryOp>, op: RegistryOp)
    ensures RegistryAfter(map[], ops + [op]) == AfterOp(RegistryAfter(map[], ops), op)
  {
    assert (ops + [op])[..|ops|] == ops;
  }

  /** Over any schedule the protocol's registry is what some sequence of this store's claims,
      made in the order of the claim steps, would have built. */
  lemma {:induction false} RunFollowsStore(actions: seq<Action>) returns (ops: seq<RegistryOp>)
    ensures Abstracts(RegistryAfter(map[], ops), Run(actions).claims)
    ensures forall k :: 0 <= k < |ops| ==> ops[k].DoClaim?
  {
    ops := [];
    if actions != [] {
      hide AfterClaim, StepClaim, Step, RegistryAfter, Abstracts;
      var s, action := Run(actions[..|actions| - 1]), actions[|actions| - 1];
      ops := RunFollowsStore(actions[..|actions| - 1]);
      if action.ClaimUse? && At(s, action.i, Claiming) && s.attempts[action.i].mandate.Some? {
        var a, registry := s.attempts[action.i], RegistryAfter(map[], ops);
        ClaimStepFollowsStore(s, action.i, registry, action.fault);
        StepIsClaim(s, action);
        if !action.fault.Before? {
          OneMoreOp(ops, DoClaim(Asked(a), a.mandate.value.maxUses));
          ops := ops + [DoClaim(Asked(a), a.mandate.value.maxUses)];
        }
      } else {
        IdleStepKeepsClaims(s, action);
      }
    }
  }

  lemma StepIsClaim(s: World, action: Action)
    requires action.ClaimUse? && At(s, action.i, Claiming) && s.attempts[action.i].mandate.Some?
    ensures Step(s, action) == StepClaim(s, action.i, action.fault)
  {
    hide StepClaim;
  }

  lemma IdleStepKeepsClaims(s: World, action: Action)
    requires !(action.ClaimUse? && At(s, action.i, Claiming) && s.attempts[action.i].mandate.Some?)
    ensures Step(s, action).claims == s.claims
  {
    hide StepClaim;
    if !action.ClaimUse? {
      OtherStepsKeepClaims(s, action);
    }
  }
}
