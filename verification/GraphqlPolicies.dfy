/**
  GraphQL policies and the schema contracts they rest on. A policy is edited in LEARN, reviewed in DETECT
  and may then enforce; any change to it or to its contract sends it back to LEARN.
 */
module GraphqlPolicies {
  import opened Common

  type Id = nat
  type Endpoint = nat

  datatype Mode = Learn | Detect | Enforce

  /** Everything an edit sets, but for the contract. */
  datatype Settings = Settings(maxDepth: nat, maxComplexity: nat, allowIntrospection: bool, allowMutation: bool,
                               allowSubscription: bool, requirePersisted: bool, allowed: set<string>, denied: set<string>,
                               blockStatus: nat)

  datatype Policy = Policy(id: Id, endpoint: Endpoint, operation: string, contract: Option<Id>, mode: Mode,
                           settings: Settings, reason: string)

  datatype Contract = Contract(id: Id, endpoint: Endpoint, digest: string)

  type Policies = map<Id, Policy>
  type Contracts = map<Id, Contract>

  const MAX_POLICIES := 1024
  const MAX_CONTRACTS := 128
  const CONTRACT_CHANGED := "schema contract changed; revalidation required"

  predicate MayBecome(from: Mode, to: Mode) {
    from == to || match from
      case Learn => to == Detect
      case Detect => to == Learn || to == Enforce
      case Enforce => to == Detect || to == Learn
  }

  // ------------------------------------------------------------ the fallback of an endpoint

  function Rank(m: Mode): nat {
    match m case Enforce => 3 case Detect => 2 case Learn => 1
  }

  predicate Better(a: Policy, b: Policy) {
    if Rank(a.mode) != Rank(b.mode) then Rank(a.mode) > Rank(b.mode)
    else if a.operation == "" && b.operation != "" then true
    else if a.operation != "" && b.operation == "" then false
    else a.id < b.id
  }

  ghost predicate IsBest(p: Policy, policies: Policies, e: Endpoint) {
    && p.id in policies && policies[p.id] == p && p.endpoint == e
    && forall i :: i in policies && policies[i].endpoint == e && i != p.id ==> Better(p, policies[i])
  }

  /** Of two policies with different ids exactly one is better, so the best is unique. */
  lemma BetterIsTotal(a: Policy, b: Policy)
    requires a.id != b.id
    ensures Better(a, b) <==> !Better(b, a)
  {
  }

  lemma BetterIsTransitive(a: Policy, b: Policy, c: Policy)
    requires Better(a, b) && Better(b, c)
    ensures Better(a, c)
  {
  }

  /**
    f is the policy an endpoint falls back to: it enforces if any of the endpoint does, else detects if any does;
    of those in its mode it is one for the whole endpoint if there is one, and then the one with the least id.
   */
  ghost predicate FallsBackTo(f: Policy, policies: Policies, e: Endpoint) {
    && f.id in policies && policies[f.id] == f && f.endpoint == e
    && forall i :: i in policies && policies[i].endpoint == e ==>
         var p := policies[i];
         && (p.mode == Enforce ==> f.mode == Enforce)
         && (p.mode == Detect ==> f.mode != Learn)
         && (p.mode == f.mode && p.operation == "" ==> f.operation == "")
         && (p.mode == f.mode && (p.operation == "" <==> f.operation == "") ==> f.id <= i)
  }

  lemma BestExactly(f: Policy, policies: Policies, e: Endpoint)
    requires Keyed(policies)
    ensures IsBest(f, policies, e) <==> FallsBackTo(f, policies, e)
  {
    if IsBest(f, policies, e) {
      forall i | i in policies && policies[i].endpoint == e && i != f.id ensures Better(f, policies[i]) && policies[i].id == i {
      }
    }
    if FallsBackTo(f, policies, e) {
      forall i | i in policies && policies[i].endpoint == e && i != f.id ensures Better(f, policies[i]) {
        assert policies[i].id == i;
      }
    }
  }

  // ------------------------------------------------------------ runtime snapshots

  datatype Snapshot = Snapshot(policies: Policies, contracts: Contracts, fallback: map<Endpoint, Policy>)

  predicate Keyed(policies: Policies) { forall i :: i in policies ==> policies[i].id == i }

  /** The snapshot is what a rebuild from the store gives. */
  ghost predicate Mirrors(snap: Snapshot, policies: Policies, contracts: Contracts) {
    && snap.policies == policies && snap.contracts == contracts
    && (forall e :: e in snap.fallback <==> exists i :: i in policies && policies[i].endpoint == e)
    && (forall e :: e in snap.fallback ==> IsBest(snap.fallback[e], policies, e))
  }

  lemma AllFallBack(snap: Snapshot, policies: Policies, contracts: Contracts)
    requires Keyed(policies) && Mirrors(snap, policies, contracts)
    ensures forall e :: e in snap.fallback ==> FallsBackTo(snap.fallback[e], policies, e)
  {
    hide IsBest, FallsBackTo;
    forall e | e in snap.fallback ensures FallsBackTo(snap.fallback[e], policies, e) {
      BestExactly(snap.fallback[e], policies, e);
    }
  }

  /** Whatever order a rebuild visits the policies in, it comes to the same snapshot. */
  lemma RebuildIsUnique(a: Snapshot, b: Snapshot, policies: Policies, contracts: Contracts)
    requires Mirrors(a, policies, contracts) && Mirrors(b, policies, contracts)
    ensures a == b
  {
    forall e | e in a.fallback ensures e in b.fallback && a.fallback[e] == b.fallback[e] {
      var p, q := a.fallback[e], b.fallback[e];
      if p.id != q.id {
        assert Better(p, policies[q.id]) && Better(q, policies[p.id]);
        BetterIsTotal(p, q);
        assert false;
      }
    }
    assert a.fallback.Keys == b.fallback.Keys;
  }

  // ------------------------------------------------------------ how a policy came to its mode

  /** What was set at the last edit, the digest its contract had then, and every mode since. */
  datatype Review = Review(settings: Settings, contract: Option<Id>, digest: Option<string>, trail: seq<Mode>)

  ghost predicate LegalTrail(trail: seq<Mode>) {
    && trail != [] && trail[0] == Learn
    && forall i :: 0 < i < |trail| ==> MayBecome(trail[i - 1], trail[i])
  }

  function Digest(contracts: Contracts, c: Option<Id>): Option<string> {
    if c.Some? && c.value in contracts then Some(contracts[c.value].digest) else None
  }

  /** The policy is as reviewed, its contract too, and its mode was reached by a legal trail. */
  ghost predicate Reviewed(p: Policy, r: Review, contracts: Contracts) {
    && p.settings == r.settings && p.contract == r.contract && Digest(contracts, p.contract) == r.digest
    && LegalTrail(r.trail) && r.trail[|r.trail| - 1] == p.mode
    && (p.mode == Enforce ==> p.reason != "")
  }

  /** The contract named exists and belongs to the same endpoint. */
  predicate RefOk(p: Policy, contracts: Contracts) {
    p.contract.Some? ==> p.contract.value in contracts && contracts[p.contract.value].endpoint == p.endpoint
  }

  /** Enforcing means: since the last change to the policy or its contract it was in LEARN, then in DETECT, then enforced. */
  lemma {:induction false} EnforcedAfterReview(trail: seq<Mode>)
    requires LegalTrail(trail) && Enforce in trail
    ensures PassedReview(trail)
    decreases |trail|
  {
    var n := |trail| - 1;
    var before := trail[..n];
    if Enforce in before {
      EnforcedAfterReview(before);
      var i :| 0 < i < |before| - 1 && FirstEnforceAfter(before, i);
      assert before[..i + 1] == trail[..i + 1];
      assert FirstEnforceAfter(trail, i);
    } else {
      assert trail == before + [trail[n]];
      assert n > 0 && MayBecome(trail[n - 1], trail[n]);
      assert trail[n - 1] in before;
      assert FirstEnforceAfter(trail, n - 1);
    }
  }

  // ------------------------------------------------------------ what every change keeps

  type Reviews = map<Id, Review>

  /** Every policy is as reviewed and names a contract of its own endpoint, if any. */
  ghost predicate Sound(policies: Policies, contracts: Contracts, reviews: Reviews) {
    && |policies| <= MAX_POLICIES && |contracts| <= MAX_CONTRACTS
    && Keyed(policies) && reviews.Keys == policies.Keys
    && (forall i :: i in policies ==> RefOk(policies[i], contracts) && Reviewed(policies[i], reviews[i], contracts))
  }

  function NewReview(p: Policy, contracts: Contracts): Review {
    Review(p.settings, p.contract, Digest(contracts, p.contract), [Learn])
  }

  lemma EditIsSound(policies: Policies, contracts: Contracts, reviews: Reviews, p: Policy)
    requires Sound(policies, contracts, reviews)
    requires p.mode == Learn && RefOk(p, contracts) && (p.id in policies || |policies| < MAX_POLICIES)
    ensures Sound(policies[p.id := p], contracts, reviews[p.id := NewReview(p, contracts)])
  {
    assert LegalTrail([Learn]);
  }

  lemma ModeIsSound(policies: Policies, contracts: Contracts, reviews: Reviews, id: Id, mode: Mode, reason: string)
    requires Sound(policies, contracts, reviews) && id in policies && id in reviews
    requires MayBecome(policies[id].mode, mode) && (mode == Enforce ==> reason != "")
    ensures Sound(policies[id := policies[id].(mode := mode, reason := reason)], contracts,
                  reviews[id := reviews[id].(trail := reviews[id].trail + [mode])])
  {
    var trail := reviews[id].trail + [mode];
    assert LegalTrail(trail) by {
      forall i | 0 < i < |trail| ensures MayBecome(trail[i - 1], trail[i]) {
        assert Reviewed(policies[id], reviews[id], contracts);
      }
    }
    hide LegalTrail, MayBecome;
  }

  lemma DeletionIsSound(policies: Policies, contracts: Contracts, reviews: Reviews, id: Id)
    requires Sound(policies, contracts, reviews)
    ensures Sound(policies - {id}, contracts, reviews - {id})
  {
    Shrinks(policies.Keys, id);
    assert (policies - {id}).Keys == policies.Keys - {id};
    assert |policies| == |policies.Keys| && |policies - {id}| == |(policies - {id}).Keys|;
  }

  lemma ContractDeletionIsSound(policies: Policies, contracts: Contracts, reviews: Reviews, id: Id)
    requires Sound(policies, contracts, reviews)
    requires forall i :: i in policies ==> policies[i].contract != Some(id)
    ensures Sound(policies, contracts - {id}, reviews)
  {
    Shrinks(contracts.Keys, id);
    assert (contracts - {id}).Keys == contracts.Keys - {id};
    assert |contracts| == |contracts.Keys| && |contracts - {id}| == |(contracts - {id}).Keys|;
  }

  /** A policy after its contract has changed. */
  function Relearned(p: Policy, id: Id): Policy {
    if p.contract == Some(id) then p.(mode := Learn, reason := CONTRACT_CHANGED) else p
  }

  function ReviewedAgain(r: Review, id: Id, digest: string): Review {
    if r.contract == Some(id) then r.(digest := Some(digest), trail := [Learn]) else r
  }

  function AllReviewedAgain(reviews: Reviews, id: Id, digest: string): Reviews {
    map i | i in reviews :: ReviewedAgain(reviews[i], id, digest)
  }

  /** The second store is the first with every policy on this contract back in LEARN. */
  ghost predicate AllRelearned(before: Policies, was: Reviews, policies: Policies, reviews: Reviews, id: Id, digest: string) {
    && policies.Keys == before.Keys && reviews.Keys == was.Keys
    && (forall i :: i in before ==> policies[i] == Relearned(before[i], id))
    && (forall i :: i in was ==> reviews[i] == ReviewedAgain(was[i], id, digest))
  }

  lemma NewContractIsSound(before: Policies, was: Reviews, policies: Policies, reviews: Reviews, contracts: Contracts, c: Contract)
    requires Sound(before, contracts, was)
    requires c.id in contracts ==> contracts[c.id].endpoint == c.endpoint
    requires c.id in contracts || |contracts| < MAX_CONTRACTS
    requires if c.id in contracts && contracts[c.id].digest != c.digest
             then AllRelearned(before, was, policies, reviews, c.id, c.digest)
             else policies == before && reviews == was
    ensures Sound(policies, contracts[c.id := c], reviews)
  {
    assert |policies| == |policies.Keys| && |before| == |before.Keys|;
    forall i | i in policies
      ensures policies[i].id == i && RefOk(policies[i], contracts[c.id := c])
      ensures i in reviews && Reviewed(policies[i], reviews[i], contracts[c.id := c])
    {
      OnePolicyStaysReviewed(before[i], was[i], contracts, c);
    }
  }

  lemma OnePolicyStaysReviewed(p: Policy, r: Review, contracts: Contracts, c: Contract)
    requires RefOk(p, contracts) && Reviewed(p, r, contracts)
    requires c.id in contracts ==> contracts[c.id].endpoint == c.endpoint
    ensures var changed := c.id in contracts && contracts[c.id].digest != c.digest;
      var p', r' := if changed then Relearned(p, c.id) else p, if changed then ReviewedAgain(r, c.id, c.digest) else r;
      RefOk(p', contracts[c.id := c]) && Reviewed(p', r', contracts[c.id := c]) && p'.id == p.id
  {
    assert LegalTrail([Learn]);
  }

  lemma SoundIsKeyed(policies: Policies, contracts: Contracts, reviews: Reviews)
    requires Sound(policies, contracts, reviews)
    ensures Keyed(policies) && reviews.Keys == policies.Keys
  {
  }

  lemma Shrinks(ids: set<Id>, id: Id)
    ensures |ids - {id}| <= |ids|
  {
    assert ids == (ids - {id}) + (ids * {id});
  }

  // ------------------------------------------------------------ the store

  class PolicyStore {
    var policies: Policies
    var contracts: Contracts
    var runtime: Snapshot
    ghost var reviews: Reviews

    ghost predicate Valid() reads this {
      Sound(policies, contracts, reviews) && Mirrors(runtime, policies, contracts)
    }

    constructor ()
      ensures Valid() && policies == map[] && contracts == map[]
    {
      policies, contracts, runtime, reviews := map[], map[], Snapshot(map[], map[], map[]), map[];
    }

    method RebuildRuntime()
      requires Keyed(policies)
      modifies this`runtime
      ensures Mirrors(runtime, policies, contracts)
      ensures forall e :: e in runtime.fallback ==> FallsBackTo(runtime.fallback[e], policies, e)
    {
      hide Better, FallsBackTo;
      var fallback: map<Endpoint, Policy> := map[];
      var left := policies.Keys;
      while left != {}
        invariant left <= policies.Keys
        invariant forall e :: e in fallback ==> BestSeen(fallback[e], e, left)
        invariant forall i :: i in policies && i !in left ==> policies[i].endpoint in fallback
        decreases |left|
      {
        var i :| i in left;
        left := left - {i};
        var p := policies[i];
        if p.endpoint !in fallback || Better(p, fallback[p.endpoint]) {
          if p.endpoint in fallback { Overtakes(p, fallback[p.endpoint], left); }
          fallback := fallback[p.endpoint := p];
        } else {
          BetterIsTotal(p, fallback[p.endpoint]);
        }
      }
      runtime := Snapshot(policies, contracts, fallback);
      AllFallBack(runtime, policies, contracts);
    }

    /** The best of the policies already visited. */
    ghost predicate BestSeen(p: Policy, e: Endpoint, left: set<Id>) reads this {
      && p.id in policies && p.id !in left && policies[p.id] == p && p.endpoint == e
      && forall i :: i in policies && i !in left && policies[i].endpoint == e && i != p.id ==> Better(p, policies[i])
    }

    lemma Overtakes(p: Policy, old_: Policy, left: set<Id>)
      requires p.id in policies && policies[p.id] == p && p.id !in left
      requires BestSeen(old_, p.endpoint, left + {p.id}) && Better(p, old_)
      ensures BestSeen(p, p.endpoint, left)
    {
      forall i | i in policies && i !in left && policies[i].endpoint == p.endpoint && i != p.id
        ensures Better(p, policies[i])
      {
        if i != old_.id {
          BetterIsTransitive(p, old_, policies[i]);
        }
      }
    }

    /** An edit, whatever it changes, takes the policy back to LEARN and starts a new review. */
    method UpsertPolicy(id: Id, endpoint: Endpoint, operation: string, contract: Option<Id>, settings: Settings, reason: string)
      returns (ok: bool)
      requires Valid()
      requires id in policies ==> policies[id].endpoint == endpoint && policies[id].operation == operation
      modifies this
      ensures Valid() && contracts == old(contracts)
      ensures ok <==> (contract.Some? ==> contract.value in contracts && contracts[contract.value].endpoint == endpoint)
                      && (id in old(policies) || |old(policies)| < MAX_POLICIES)
      ensures !ok ==> policies == old(policies) && reviews == old(reviews)
      ensures ok ==> policies == old(policies)[id := Policy(id, endpoint, operation, contract, Learn, settings, reason)]
      ensures ok ==> reviews == old(reviews)[id := Review(settings, contract, Digest(contracts, contract), [Learn])]
    {
      hide Sound, Mirrors;
      if contract.Some? && (contract.value !in contracts || contracts[contract.value].endpoint != endpoint) { return false; }
      if id !in policies && |policies| >= MAX_POLICIES { return false; }
      var p := Policy(id, endpoint, operation, contract, Learn, settings, reason);
      EditIsSound(policies, contracts, reviews, p);
      policies, reviews := policies[id := p], reviews[id := NewReview(p, contracts)];
      SoundIsKeyed(policies, contracts, reviews);
      RebuildRuntime();
      return true;
    }

    method SetMode(id: Id, mode: Mode, reason: string) returns (ok: bool)
      requires Valid()
      modifies this
      ensures Valid() && contracts == old(contracts)
      ensures ok <==> id in old(policies) && !(old(policies)[id].mode == Learn && mode == Enforce) && (mode == Enforce ==> reason != "")
      ensures !ok ==> policies == old(policies) && reviews == old(reviews)
      ensures ok ==> policies == old(policies)[id := old(policies)[id].(mode := mode, reason := reason)]
      ensures ok ==> reviews == old(reviews)[id := old(reviews)[id].(trail := old(reviews)[id].trail + [mode])]
    {
      hide Sound, Mirrors;
      if id !in policies || !MayBecome(policies[id].mode, mode) { return false; }
      if mode == Enforce && reason == "" { return false; }
      SoundIsKeyed(policies, contracts, reviews);
      ModeIsSound(policies, contracts, reviews, id, mode, reason);
      ghost var review := reviews[id];
      policies := policies[id := policies[id].(mode := mode, reason := reason)];
      reviews := reviews[id := review.(trail := review.trail + [mode])];
      SoundIsKeyed(policies, contracts, reviews);
      RebuildRuntime();
      return true;
    }

    method DeletePolicy(id: Id) returns (ok: bool)
      requires Valid()
      modifies this
      ensures Valid() && contracts == old(contracts)
      ensures ok <==> id in old(policies)
      ensures policies == old(policies) - {id} && reviews == old(reviews) - {id}
    {
      hide Sound, Mirrors;
      ok := id in policies;
      DeletionIsSound(policies, contracts, reviews, id);
      policies, reviews := policies - {id}, reviews - {id};
      SoundIsKeyed(policies, contracts, reviews);
      RebuildRuntime();
    }

    /** The policies that rest on a contract whose digest changes go back to LEARN. */
    method UpsertContract(id: Id, endpoint: Endpoint, digest: string) returns (ok: bool)
      requires Valid()
      requires id in contracts ==> contracts[id].endpoint == endpoint
      modifies this
      ensures Valid()
      ensures ok <==> id in old(contracts) || |old(contracts)| < MAX_CONTRACTS
      ensures !ok ==> contracts == old(contracts) && policies == old(policies) && reviews == old(reviews)
      ensures ok ==> contracts == old(contracts)[id := Contract(id, endpoint, digest)]
      ensures ok && (id !in old(contracts) || old(contracts)[id].digest == digest)
              ==> policies == old(policies) && reviews == old(reviews)
      ensures ok && id in old(contracts) && old(contracts)[id].digest != digest
              ==> AllRelearned(old(policies), old(reviews), policies, reviews, id, digest)
      ensures policies.Keys == old(policies).Keys
      ensures forall i :: i in policies ==>
        var p, was := policies[i], old(policies)[i];
        if id in old(contracts) && old(contracts)[id].digest != digest && was.contract == Some(id)
        then p.mode == Learn && p.reason != "" && p == was.(mode := p.mode, reason := p.reason)
        else p == was
    {
      if id !in contracts && |contracts| >= MAX_CONTRACTS { return false; }
      ghost var before, was := policies, reviews;
      if id in contracts && contracts[id].digest != digest { Relearn(id, digest); }
      NewContractIsSound(before, was, policies, reviews, contracts, Contract(id, endpoint, digest));
      hide Sound, Mirrors, AllRelearned;
      contracts := contracts[id := Contract(id, endpoint, digest)];
      SoundIsKeyed(policies, contracts, reviews);
      RebuildRuntime();
      return true;
    }

    method Relearn(id: Id, ghost digest: string)
      requires Sound(policies, contracts, reviews)
      modifies this`policies, this`reviews
      ensures AllRelearned(old(policies), old(reviews), policies, reviews, id, digest)
    {
      RelearnPolicies(id);
      reviews := AllReviewedAgain(reviews, id, digest);
    }

    method RelearnPolicies(id: Id)
      modifies this`policies
      ensures policies.Keys == old(policies).Keys
      ensures forall i :: i in policies ==> policies[i] == Relearned(old(policies)[i], id)
    {
      ghost var before := policies;
      var left := policies.Keys;
      while left != {}
        invariant left <= before.Keys && policies.Keys == before.Keys
        invariant forall i :: i in before ==> policies[i] == if i in left then before[i] else Relearned(before[i], id)
        decreases |left|
      {
        var i :| i in left;
        left := left - {i};
        if policies[i].contract == Some(id) {
          policies := policies[i := policies[i].(mode := Learn, reason := CONTRACT_CHANGED)];
        }
      }
    }

    /** A contract that a policy names stays. */
    method DeleteContract(id: Id) returns (ok: bool)
      requires Valid()
      modifies this
      ensures Valid() && policies == old(policies) && reviews == old(reviews)
      ensures ok <==> id in old(contracts) && forall i :: i in policies ==> policies[i].contract != Some(id)
      ensures contracts == if ok then old(contracts) - {id} else old(contracts)
    {
      hide Sound, Mirrors;
      if id !in contracts { return false; }
      var left := policies.Keys;
      while left != {}
        invariant left <= policies.Keys
        invariant forall i :: i in policies && i !in left ==> policies[i].contract != Some(id)
        decreases |left|
      {
        var i :| i in left;
        if policies[i].contract == Some(id) { return false; }
        left := left - {i};
      }
      ContractDeletionIsSound(policies, contracts, reviews, id);
      contracts := contracts - {id};
      SoundIsKeyed(policies, contracts, reviews);
      RebuildRuntime();
      return true;
    }

    /** The policy in force for an operation: its own, or the one for the whole endpoint. */
    method RuntimePolicy(named: Id, unnamed: Id, operation: string) returns (p: Option<Policy>)
      requires Valid()
      ensures p == if operation != "" && named in policies then Some(policies[named])
                   else if unnamed in policies then Some(policies[unnamed]) else None
    {
      if operation != "" && named in runtime.policies { return Some(runtime.policies[named]); }
      return if unnamed in runtime.policies then Some(runtime.policies[unnamed]) else None;
    }

    /** A policy that enforces in the runtime stands as it was reviewed, with a reason and an unchanged contract. */
    lemma RuntimeEnforcesReviewedOnly(id: Id)
      requires Valid() && id in runtime.policies && runtime.policies[id].mode == Enforce
      ensures id in reviews && AsReviewed(runtime.policies[id], reviews[id], runtime.contracts)
      ensures PassedReview(reviews[id].trail)
    {
      var trail := reviews[id].trail;
      assert trail[|trail| - 1] in trail;
      EnforcedAfterReview(trail);
    }
  }

  /** Settings, contract and the contract's digest are those of the last edit, and there is a reason. */
  predicate AsReviewed(p: Policy, r: Review, contracts: Contracts) {
    && p.settings == r.settings && p.contract == r.contract && p.reason != ""
    && Digest(contracts, p.contract) == r.digest && RefOk(p, contracts)
  }

  ghost predicate FirstEnforceAfter(trail: seq<Mode>, i: nat)
    requires i < |trail| - 1
  {
    trail[i] == Detect && trail[i + 1] == Enforce && Enforce !in trail[..i + 1]
  }

  /** LEARN first, and the first ENFORCE right after a DETECT. */
  ghost predicate PassedReview(trail: seq<Mode>) {
    && trail != [] && trail[0] == Learn
    && exists i :: 0 < i < |trail| - 1 && FirstEnforceAfter(trail, i)
  }
}
