/** The stores of relations and candidates, and the worker's step from an observation to both. */
module BolaStore {
  import opened Common
  import opened BolaEvidence

  /** Every candidate is justified by the observations merged so far. */
  ghost predicate CandidatesJustified(cands: Candidates, log: Log) {
    forall k :: k in cands ==> Justified(k, cands[k], log)
  }

  lemma AllJustifiedLater(cands: Candidates, log: Log, o: Observation)
    requires CandidatesJustified(cands, log)
    ensures CandidatesJustified(cands, log + [o])
  {
    forall k | k in cands ensures Justified(k, cands[k], log + [o]) {
      JustifiedLater(k, cands[k], log, o);
    }
  }

  lemma AllSupportedLater(relations: Relations, log: Log, o: Observation, r: Relation)
    requires Supported(relations, log) && SupportedOne(KeyOf(o), r, log + [o])
    ensures Supported(relations[KeyOf(o) := r], log + [o])
  {
    hide SupportedOne;
    forall k | k in relations && k != KeyOf(o) ensures SupportedOne(k, relations[k], log + [o]) {
      SupportGrows(k, relations[k], log, o);
    }
  }

  lemma FewerSupported(relations: Relations, some: Relations, log: Log)
    requires Supported(relations, log)
    requires forall k :: k in some ==> k in relations && some[k] == relations[k]
    ensures Supported(some, log)
  {
    hide SupportedOne;
  }

  // ------------------------------------------------------------ what one observation makes of the tables

  predicate Standing(c: Candidate, at: int) { c.lastSeen + CANDIDATE_TTL > at }

  function LiveOnly(relations: Relations, at: int): Relations { map k | k in relations && Live(relations[k], at) :: relations[k] }

  function StandingOnly(cands: Candidates, at: int): Candidates { map k | k in cands && Standing(cands[k], at) :: cands[k] }

  /** A key that is there keeps its place; a new one needs room in all, for its identity and at its object. */
  predicate RoomForRelation(keys: set<RelKey>, k: RelKey) {
    k in keys || (|keys| < MAX_RELATIONS && |OfIdentity(keys, k.identity)| < MAX_RELATIONS_PER_IDENTITY
                  && |OfObject(keys, k.locator, k.object_)| < MAX_RELATIONS_PER_OBJECT)
  }

  predicate RoomForCandidate(keys: set<CandKey>, k: CandKey) {
    k in keys || (|keys| < MAX_CANDIDATES && |CandsOfIdentity(keys, k.identity)| < MAX_CANDIDATES_PER_IDENTITY
                  && |CandsOfObject(keys, k.locator, k.object_)| < MAX_CANDIDATES_PER_OBJECT)
  }

  /** The relations after an observation: stale ones gone, its own counted if there is room. */
  function Merged(relations: Relations, o: Observation): Relations {
    var live, k := LiveOnly(relations, o.at), KeyOf(o);
    if !RoomForRelation(live.Keys, k) then live
    else live[k := if k in live then live[k].(count := live[k].count + 1, lastSeen := o.at) else Relation(o.tenant, 1, o.at)]
  }

  /** The candidates after one kind has been judged. */
  function Judged(cands: Candidates, kind: Kind, c: Context, o: Observation): Candidates {
    if !Fires(kind, c, o) then cands
    else
      var standing, k := StandingOnly(cands, o.at), CandOf(kind, o);
      if !RoomForCandidate(standing.Keys, k) then standing
      else standing[k := Candidate(IsHigh(kind, c), (if k in standing then standing[k].evidence else 0) + 1, o.at)]
  }

  function AllJudged(cands: Candidates, c: Context, o: Observation): Candidates {
    Judged(Judged(Judged(cands, IdentityDivergence, c, o), TenantDivergence, c, o), Enumeration, c, o)
  }

  /** The log after an observation: with it, if there was room to count it. */
  function Logged(relations: Relations, log: Log, o: Observation): Log {
    if RoomForRelation(LiveOnly(relations, o.at).Keys, KeyOf(o)) then log + [o] else log
  }

  lemma MergedSupported(relations: Relations, log: Log, o: Observation)
    requires Supported(relations, log)
    ensures Supported(Merged(relations, o), Logged(relations, log, o))
  {
    var live, k := LiveOnly(relations, o.at), KeyOf(o);
    FewerSupported(relations, live, log);
    if RoomForRelation(live.Keys, k) {
      if k in live {
        OneMoreSight(live[k], log, o);
      } else {
        FirstSight(log, o);
      }
      AllSupportedLater(live, log, o, Merged(relations, o)[k]);
    }
  }

  lemma MergedAt(relations: Relations, o: Observation, k: RelKey)
    requires k in Merged(relations, o)
    ensures k in LiveOnly(relations, o.at) ==> k in relations
    ensures k == KeyOf(o) ==> RoomForRelation(LiveOnly(relations, o.at).Keys, k)
    ensures k != KeyOf(o) ==> k in LiveOnly(relations, o.at)
    ensures Merged(relations, o)[k] ==
            if k != KeyOf(o) then relations[k]
            else if k in LiveOnly(relations, o.at) then relations[k].(count := relations[k].count + 1, lastSeen := o.at)
            else Relation(o.tenant, 1, o.at)
  {
    hide RoomForRelation;
    if k in LiveOnly(relations, o.at) {
      InHasRoom(LiveOnly(relations, o.at).Keys, k);
    }
  }

  lemma InHasRoom(keys: set<RelKey>, k: RelKey)
    requires k in keys
    ensures RoomForRelation(keys, k)
  {
  }

  /**
    After an observation has been merged, a relation stands for observations under one tenant exactly when it
    is new, or did before and was not merged into under another tenant.
   */
  lemma OneTenantAfterMerge(relations: Relations, log: Log, o: Observation, k: RelKey)
    requires Supported(relations, log) && k in Merged(relations, o)
    ensures Supported(Merged(relations, o), Logged(relations, log, o))
    ensures OneTenant(k, Merged(relations, o)[k], Logged(relations, log, o))
            <==> k !in LiveOnly(relations, o.at)
                 || (OneTenant(k, relations[k], log) && (k == KeyOf(o) ==> o.tenant == relations[k].tenant))
  {
    MergedSupported(relations, log, o);
    MergedAt(relations, o, k);
    var was := if k in LiveOnly(relations, o.at) then Some(relations[k]) else None;
    assert was.Some? ==> SupportedOne(k, was.value, log);
    hide Merged, LiveOnly, RoomForRelation, KeyOf, OneTenant, SupportedOne, Supported;
    OneTenantCases(k, was, Merged(relations, o)[k], log, Logged(relations, log, o), o);
  }

  lemma OneTenantCases(k: RelKey, was: Option<Relation>, next: Relation, log: Log, log': Log, o: Observation)
    requires was.Some? ==> SupportedOne(k, was.value, log)
    requires k != KeyOf(o) ==> was == Some(next) && log' in {log, log + [o]}
    requires k == KeyOf(o) ==> log' == log + [o]
                               && next == if was.Some? then was.value.(count := was.value.count + 1, lastSeen := o.at) else Relation(o.tenant, 1, o.at)
    ensures SupportedOne(k, next, log')
    ensures OneTenant(k, next, log') <==> was.None? || (OneTenant(k, was.value, log) && (k == KeyOf(o) ==> o.tenant == was.value.tenant))
  {
    hide OneTenant, SupportedOne;
    if k != KeyOf(o) {
      OneTenantElsewhere(k, next, log, o);
    } else if was.Some? {
      OneTenantExactly(was.value, log, o);
    } else {
      OneTenantAtFirst(log, o);
    }
  }

  // ------------------------------------------------------------ evidence does give a candidate

  const DAY := 24 * 60 * 60

  /** A relation at the object observed, seen within thirty days. */
  predicate StandsAt(relations: Relations, k: RelKey, o: Observation) {
    k in relations && k.locator == o.locator && k.object_ == o.object_ && o.at < relations[k].lastSeen + 30 * DAY
  }

  /** The identity is known at the object. */
  ghost predicate KnownThere(relations: Relations, o: Observation) {
    exists k :: StandsAt(relations, k, o) && k.identity == o.identity
  }

  /** Another identity was seen at the object twice. */
  ghost predicate SeenTwiceByAnother(relations: Relations, o: Observation) {
    exists k :: StandsAt(relations, k, o) && k.identity != o.identity && relations[k].count >= 2
  }

  /** The object was seen twice under a known tenant that is not this one. */
  ghost predicate SeenTwiceElsewhere(relations: Relations, o: Observation) {
    exists k :: StandsAt(relations, k, o) && relations[k].tenant !in {"", o.tenant} && relations[k].count >= 2
  }

  /** The objects under the locator at which the identity was seen within ten minutes. */
  function ObjectsJustSeen(relations: Relations, o: Observation): set<string> {
    set k | k in relations && k.identity == o.identity && k.locator == o.locator
            && o.at < relations[k].lastSeen + 30 * DAY && o.at < relations[k].lastSeen + 600 :: k.object_
  }

  lemma CountsAddUp(c: Context, relations: Relations, o: Observation, k: RelKey)
    requires IsContext(c, relations, o) && k in Around(relations, o)
    ensures c.observations >= relations[k].count
  {
    OneMorePair(relations, {}, k);
    assert Pairs(relations, {}) == {} && {} + {k} == {k};
    Fewer(Pairs(relations, {k}), Pairs(relations, Around(relations, o)));
  }

  /** What makes each kind of candidate, told by the relations alone. */
  lemma FiresExactly(c: Context, relations: Relations, o: Observation)
    requires IsContext(c, relations, o)
    ensures Fires(IdentityDivergence, c, o) <==> !KnownThere(relations, o) && SeenTwiceByAnother(relations, o)
    ensures Fires(TenantDivergence, c, o) <==> o.tenant != "" && !KnownThere(relations, o) && SeenTwiceElsewhere(relations, o)
    ensures Fires(Enumeration, c, o) <==> !KnownThere(relations, o) && |ObjectsJustSeen(relations, o)| >= 19
  {
    forall k ensures StandsAt(relations, k, o) <==> k in Around(relations, o) {
    }
    forall k | k in Around(relations, o) ensures c.observations >= relations[k].count && (k.identity == o.identity <==> k == KeyOf(o)) {
      CountsAddUp(c, relations, o, k);
    }
    assert c.recent == ObjectsJustSeen(relations, o);
  }

  /** The sights of the object that the relations count. */
  function SightsThere(relations: Relations, o: Observation): set<(RelKey, nat)> {
    set k, n | k in relations && StandsAt(relations, k, o) && 0 <= n < relations[k].count :: (k, n)
  }

  /** When a candidate is of high confidence. */
  ghost predicate Convincing(kind: Kind, relations: Relations, o: Observation) {
    match kind
    case IdentityDivergence =>
      exists k :: StandsAt(relations, k, o) && relations[k].count >= 5 && forall j :: StandsAt(relations, j, o) ==> j.identity == k.identity
    case TenantDivergence =>
      && |SightsThere(relations, o)| >= 5
      && exists t :: OnlyTenant(relations, o, t)
    case Enumeration => |ObjectsJustSeen(relations, o)| >= 39
  }

  /** The only tenant known at the object. */
  ghost predicate OnlyTenant(relations: Relations, o: Observation, t: string) {
    && t != "" && (exists k :: StandsAt(relations, k, o) && relations[k].tenant == t)
    && forall j :: StandsAt(relations, j, o) ==> relations[j].tenant in {"", t}
  }

  lemma ConvincingExactly(kind: Kind, c: Context, relations: Relations, o: Observation)
    requires IsContext(c, relations, o) && Fires(kind, c, o)
    ensures IsHigh(kind, c) <==> Convincing(kind, relations, o)
  {
    forall k ensures StandsAt(relations, k, o) <==> k in Around(relations, o) {
    }
    match kind
    case IdentityDivergence => IdentityConvinces(c, relations, o);
    case TenantDivergence => TenantConvinces(c, relations, o);
    case Enumeration => assert c.recent == ObjectsJustSeen(relations, o);
  }

  lemma IdentityConvinces(c: Context, relations: Relations, o: Observation)
    requires IsContext(c, relations, o) && Fires(IdentityDivergence, c, o)
    requires forall k :: StandsAt(relations, k, o) <==> k in Around(relations, o)
    ensures HighIdentity(c) <==> Convincing(IdentityDivergence, relations, o)
  {
    if HighIdentity(c) {
      var k :| k in Around(relations, o) && k.identity != o.identity && relations[k].count >= MIN_OBSERVATIONS;
      SoleIdentity(c, relations, o, k);
      forall j | j in Around(relations, o) ensures j.identity == k.identity {
        OneMember(c.identities, j.identity, k.identity);
      }
    }
    if k :| StandsAt(relations, k, o) && relations[k].count >= 5 && forall j :: StandsAt(relations, j, o) ==> j.identity == k.identity {
      CountsAddUp(c, relations, o, k);
      assert c.identities == {k.identity};
    }
  }

  lemma TenantConvinces(c: Context, relations: Relations, o: Observation)
    requires IsContext(c, relations, o)
    requires forall k :: StandsAt(relations, k, o) <==> k in Around(relations, o)
    ensures HighTenant(c) <==> Convincing(TenantDivergence, relations, o)
  {
    assert SightsThere(relations, o) == Pairs(relations, Around(relations, o));
    if |c.tenants| == 1 {
      var t :| t in c.tenants;
      assert t != "" && exists k :: k in Around(relations, o) && relations[k].tenant == t;
      forall j | StandsAt(relations, j, o) ensures relations[j].tenant in {"", t} {
        if relations[j].tenant != "" {
          OneMember(c.tenants, relations[j].tenant, t);
        }
      }
      assert OnlyTenant(relations, o, t);
    }
    if t :| OnlyTenant(relations, o, t) {
      assert c.tenants == {t};
    }
  }

  /** The candidates seen within seven days. */
  function Current(cands: Candidates, at: int): set<CandKey> { set k | k in cands && at < cands[k].lastSeen + 7 * DAY }

  function SameIdentity(keys: set<CandKey>, k: CandKey): set<CandKey> { set j | j in keys && j.identity == k.identity }

  function SameObject(keys: set<CandKey>, k: CandKey): set<CandKey> {
    set j | j in keys && j.locator == k.locator && j.object_ == k.object_
  }

  /** The table of current candidates has a place for this one, and for so many more. */
  predicate HasPlace(cands: Candidates, k: CandKey, at: int, more: nat) {
    var current := Current(cands, at);
    k in current
    || (|current| + more < 4096 && |SameIdentity(current, k)| + more < 256 && |SameObject(current, k)| + more < 128)
  }

  /** The candidate is there, seen now, with the confidence its evidence has. */
  ghost predicate Recorded(cands: Candidates, kind: Kind, relations: Relations, o: Observation) {
    var k := CandKey(kind, o.identity, o.locator, o.object_, o.tenant);
    k in cands && cands[k].lastSeen == o.at && (cands[k].high <==> Convincing(kind, relations, o))
  }

  /** Of the current candidates only this one may be added or changed. */
  ghost predicate TouchesOnly(cands: Candidates, after: Candidates, k: CandKey, at: int) {
    && (forall j :: j in Current(cands, at) && j != k ==> j in after && after[j] == cands[j])
    && (forall j :: j in after && j != k ==> j in cands && after[j] == cands[j])
  }

  lemma PlacesAgree(cands: Candidates, k: CandKey, at: int)
    ensures StandingOnly(cands, at).Keys == Current(cands, at)
    ensures RoomForCandidate(StandingOnly(cands, at).Keys, k) <==> HasPlace(cands, k, at, 0)
  {
    var current := Current(cands, at);
    assert StandingOnly(cands, at).Keys == current;
    assert CandsOfIdentity(current, k.identity) == SameIdentity(current, k);
    assert CandsOfObject(current, k.locator, k.object_) == SameObject(current, k);
  }

  lemma JudgedExactly(cands: Candidates, kind: Kind, c: Context, relations: Relations, o: Observation)
    requires IsContext(c, relations, o)
    ensures var after := Judged(cands, kind, c, o);
      && (Fires(kind, c, o) && HasPlace(cands, CandOf(kind, o), o.at, 0) ==> Recorded(after, kind, relations, o))
      && (!Fires(kind, c, o) ==> after == cands)
      && TouchesOnly(cands, after, CandOf(kind, o), o.at)
  {
    if Fires(kind, c, o) {
      ConvincingExactly(kind, c, relations, o);
      PlacesAgree(cands, CandOf(kind, o), o.at);
      hide Fires, Convincing, IsHigh, IsContext, RoomForCandidate, HasPlace;
    }
  }

  lemma StaysRecorded(cands: Candidates, after: Candidates, j: CandKey, kind: Kind, relations: Relations, o: Observation)
    requires Recorded(cands, kind, relations, o) && TouchesOnly(cands, after, j, o.at) && j != CandOf(kind, o)
    ensures Recorded(after, kind, relations, o)
  {
    assert CandOf(kind, o) in Current(cands, o.at);
    hide Convincing;
  }

  lemma AtMostOneMore(some: set<CandKey>, all: set<CandKey>, k: CandKey)
    requires some <= all + {k}
    ensures |some| <= |all| + 1
  {
    Fewer(some, all + {k});
  }

  lemma PlacesLeft(cands: Candidates, after: Candidates, k: CandKey, j: CandKey, at: int, more: nat)
    requires TouchesOnly(cands, after, j, at) && HasPlace(cands, k, at, more + 1) && k != j
    ensures HasPlace(after, k, at, more)
  {
    var a, b := Current(cands, at), Current(after, at);
    assert b <= a + {j} && (k in a ==> k in b);
    hide Current, TouchesOnly;
    AtMostOneMore(b, a, j);
    AtMostOneMore(SameIdentity(b, k), SameIdentity(a, k), j);
    AtMostOneMore(SameObject(b, k), SameObject(a, k), j);
  }

  /** Whoever is new at an object that another identity was seen at twice, and so on for each kind, becomes a candidate. */
  ghost predicate GivesCandidates(cands: Candidates, after: Candidates, relations: Relations, o: Observation) {
    KnownThere(relations, o)
    || (&& (SeenTwiceByAnother(relations, o) && HasPlace(cands, CandOf(IdentityDivergence, o), o.at, 0)
            ==> Recorded(after, IdentityDivergence, relations, o))
        && (o.tenant != "" && SeenTwiceElsewhere(relations, o) && HasPlace(cands, CandOf(TenantDivergence, o), o.at, 1)
            ==> Recorded(after, TenantDivergence, relations, o))
        && (|ObjectsJustSeen(relations, o)| >= 19 && HasPlace(cands, CandOf(Enumeration, o), o.at, 2)
            ==> Recorded(after, Enumeration, relations, o)))
  }

  lemma EvidenceGivesCandidates(cands: Candidates, c: Context, relations: Relations, o: Observation)
    requires IsContext(c, relations, o)
    ensures GivesCandidates(cands, AllJudged(cands, c, o), relations, o)
  {
    var k1, k2, k3 := CandOf(IdentityDivergence, o), CandOf(TenantDivergence, o), CandOf(Enumeration, o);
    assert k1 != k2 && k1 != k3 && k2 != k3;
    var one := Judged(cands, IdentityDivergence, c, o);
    var two := Judged(one, TenantDivergence, c, o);
    hide Judged, Fires, IsContext, KnownThere, SeenTwiceByAnother, SeenTwiceElsewhere, ObjectsJustSeen, HasPlace, Recorded,
      TouchesOnly, CandOf;
    FiresExactly(c, relations, o);
    JudgedExactly(cands, IdentityDivergence, c, relations, o);
    JudgedExactly(one, TenantDivergence, c, relations, o);
    JudgedExactly(two, Enumeration, c, relations, o);
    var after := AllJudged(cands, c, o);
    if Recorded(one, IdentityDivergence, relations, o) {
      StaysRecorded(one, two, k2, IdentityDivergence, relations, o);
      StaysRecorded(two, after, k3, IdentityDivergence, relations, o);
    }
    if Recorded(two, TenantDivergence, relations, o) { StaysRecorded(two, after, k3, TenantDivergence, relations, o); }
    if HasPlace(cands, k2, o.at, 1) { PlacesLeft(cands, one, k2, k1, o.at, 0); }
    if HasPlace(cands, k3, o.at, 2) {
      PlacesLeft(cands, one, k3, k1, o.at, 1);
      PlacesLeft(one, two, k3, k2, o.at, 0);
    }
  }

  // ------------------------------------------------------------ sights are counted

  /** The table of relations seen within thirty days has a place for this one. */
  function LiveKeys(relations: Relations, at: int): set<RelKey> { set k | k in relations && at < relations[k].lastSeen + 30 * DAY }

  predicate HasPlaceToCount(relations: Relations, o: Observation) {
    var live := LiveKeys(relations, o.at);
    KeyOf(o) in live
    || (|live| < 8192 && |set j | j in live && j.identity == o.identity| < 512
        && |set j | j in live && j.locator == o.locator && j.object_ == o.object_| < 256)
  }

  /** An observation is counted, if there is a place; every other live relation stays as it was, and no other is left. */
  lemma SightsAreCounted(relations: Relations, o: Observation)
    ensures var after, live, k := Merged(relations, o), LiveKeys(relations, o.at), RelKey(o.identity, o.locator, o.object_);
      && after.Keys == (if HasPlaceToCount(relations, o) then live + {k} else live)
      && (forall j :: j in live && j != k ==> after[j] == relations[j])
      && (k in after ==> after[k].lastSeen == o.at
                         && (k in live ==> after[k].count == relations[k].count + 1 && after[k].tenant == relations[k].tenant)
                         && (k !in live ==> after[k].count == 1 && after[k].tenant == o.tenant))
  {
    var live, k := LiveKeys(relations, o.at), KeyOf(o);
    assert LiveOnly(relations, o.at).Keys == live;
    assert OfIdentity(live, o.identity) == set j | j in live && j.identity == o.identity;
    assert OfObject(live, o.locator, o.object_) == set j | j in live && j.locator == o.locator && j.object_ == o.object_;
  }

  class EvidenceStore {
    var relations: Relations
    var candidates: Candidates
    ghost var log: Log

    /** Every table is within its caps, every relation rests on the log, and every candidate is justified by it. */
    ghost predicate Valid() reads this {
      && RelationsCapped(relations.Keys) && CandidatesCapped(candidates.Keys)
      && Supported(relations, log) && CandidatesJustified(candidates, log)
    }

    constructor ()
      ensures Valid() && relations == map[] && candidates == map[] && log == []
    {
      relations, candidates, log := map[], map[], [];
      new;
      NothingCapped();
    }

    lemma NothingCapped()
      ensures RelationsCapped({}) && CandidatesCapped({})
    {
      assert forall i :: OfIdentity({}, i) == {};
      assert forall l, o :: OfObject({}, l, o) == {};
      assert forall i :: CandsOfIdentity({}, i) == {};
      assert forall l, o :: CandsOfObject({}, l, o) == {};
    }

    /** The relations around an observation, gathered in whatever order they come. */
    method FindContext(o: Observation) returns (c: Context)
      ensures IsContext(c, relations, o)
    {
      hide ContextOf, Around, RecentKeys, Extended, Live;
      c := Context(false, false, false, {}, {}, 0, {});
      NoContext(relations, o);
      var left := relations.Keys;
      while left != {}
        invariant left <= relations.Keys && Within(relations, o)
        invariant ContextOf(c, relations, o, Around(relations, o) - left, RecentKeys(relations, o) - left)
        decreases |left|
      {
        var k :| k in left;
        ContextStep(c, relations, o, left, k);
        left := left - {k};
        if Live(relations[k], o.at) { c := Extended(c, relations, o, k); }
      }
      assert Around(relations, o) - left == Around(relations, o) && RecentKeys(relations, o) - left == RecentKeys(relations, o);
    }

    /** What one observation adds: candidates judged by the relations before it, then its own relation. */
    method Process(o: Observation)
      requires Valid()
      modifies this
      ensures Valid()
      ensures exists c :: IsContext(c, old(relations), o) && candidates == AllJudged(old(candidates), c, o)
      ensures GivesCandidates(old(candidates), candidates, old(relations), o)
      ensures relations == Merged(old(relations), o)
      ensures log == Logged(old(relations), old(log), o)
    {
      hide RelationsCapped, CandidatesCapped, Supported, CandidatesJustified, IsContext, Fires, LiveOnly, StandingOnly,
        RoomForRelation, RoomForCandidate, Merged, KeyOf, CandOf, IsHigh, GivesCandidates;
      var c := FindContext(o);
      EvidenceGivesCandidates(candidates, c, relations, o);
      if Fires(IdentityDivergence, c, o) { Record(IdentityDivergence, c, o); }
      if Fires(TenantDivergence, c, o) { Record(TenantDivergence, c, o); }
      if Fires(Enumeration, c, o) { Record(Enumeration, c, o); }
      Merge(o);
    }

    method Record(kind: Kind, c: Context, o: Observation)
      requires Valid() && IsContext(c, relations, o) && Fires(kind, c, o)
      modifies this`candidates
      ensures Valid() && candidates == Judged(old(candidates), kind, c, o)
    {
      hide RelationsCapped, CandidatesCapped, Supported, Justified, IsContext, Fires, IsHigh, Standing;
      PruneCandidates(o.at);
      var k := CandOf(kind, o);
      if k !in candidates {
        if |candidates| >= MAX_CANDIDATES { return; }
        if |CandsOfIdentity(candidates.Keys, o.identity)| >= MAX_CANDIDATES_PER_IDENTITY { return; }
        if |CandsOfObject(candidates.Keys, o.locator, o.object_)| >= MAX_CANDIDATES_PER_OBJECT { return; }
      }
      var row := Candidate(IsHigh(kind, c), (if k in candidates then candidates[k].evidence else 0) + 1, o.at);
      FiredIsJustified(kind, c, relations, log, o, row.evidence);
      assert |candidates| == |candidates.Keys|;
      NewCandidateCapped(candidates.Keys, k);
      assert candidates[k := row].Keys == candidates.Keys + {k};
      candidates := candidates[k := row];
    }

    /** Counts the observation towards its relation, unless there is no room for a new one. */
    method Merge(o: Observation)
      requires Valid()
      modifies this`relations, this`log
      ensures Valid() && relations == Merged(old(relations), o)
      ensures log == Logged(old(relations), old(log), o)
    {
      hide RelationsCapped, CandidatesCapped, Supported, Justified, CandidatesJustified, Live;
      PruneRelations(o.at);
      var k := KeyOf(o);
      var row;
      if k in relations {
        row := relations[k].(count := relations[k].count + 1, lastSeen := o.at);
        StoredIsSupported(k);
        OneMoreSight(relations[k], log, o);
      } else {
        if |relations| >= MAX_RELATIONS { return; }
        if |OfIdentity(relations.Keys, o.identity)| >= MAX_RELATIONS_PER_IDENTITY { return; }
        if |OfObject(relations.Keys, o.locator, o.object_)| >= MAX_RELATIONS_PER_OBJECT { return; }
        row := Relation(o.tenant, 1, o.at);
        FirstSight(log, o);
      }
      assert |relations| == |relations.Keys|;
      NewRelationCapped(relations.Keys, k);
      assert relations[k := row].Keys == relations.Keys + {k};
      AllSupportedLater(relations, log, o, row);
      AllJustifiedLater(candidates, log, o);
      relations, log := relations[k := row], log + [o];
    }

    lemma StoredIsSupported(k: RelKey)
      requires Supported(relations, log) && k in relations
      ensures SupportedOne(k, relations[k], log)
    {
    }

    method PruneRelations(now: int)
      requires Valid()
      modifies this`relations
      ensures Valid() && relations == LiveOnly(old(relations), now)
    {
      hide RelationsCapped, CandidatesCapped, Supported, CandidatesJustified;
      ghost var before := relations;
      var left := relations.Keys;
      while left != {}
        invariant left <= relations.Keys <= before.Keys
        invariant forall k :: k in relations ==> relations[k] == before[k]
        invariant forall k :: k in before && k !in left ==> (k in relations <==> Live(before[k], now))
        decreases |left|
      {
        var k :| k in left;
        left := left - {k};
        if !Live(relations[k], now) { relations := relations - {k}; }
      }
      FewerRelationsCapped(before.Keys, relations.Keys);
      FewerSupported(before, relations, log);
    }

    method PruneCandidates(now: int)
      requires CandidatesCapped(candidates.Keys) && CandidatesJustified(candidates, log)
      modifies this`candidates
      ensures CandidatesCapped(candidates.Keys) && CandidatesJustified(candidates, log)
      ensures candidates == StandingOnly(old(candidates), now)
    {
      hide Justified;
      ghost var before := candidates;
      var left := candidates.Keys;
      while left != {}
        invariant left <= candidates.Keys <= before.Keys
        invariant forall k :: k in candidates ==> candidates[k] == before[k]
        invariant forall k :: k in before && k !in left ==> (k in candidates <==> Standing(before[k], now))
        decreases |left|
      {
        var k :| k in left;
        left := left - {k};
        if !Standing(candidates[k], now) { candidates := candidates - {k}; }
      }
      FewerCandidatesCapped(before.Keys, candidates.Keys);
    }
  }

  /** The context with one more live relation looked at. */
  function Extended(c: Context, relations: Relations, o: Observation, k: RelKey): Context
    requires k in relations
  {
    var r := relations[k];
    var seen := if k.identity == o.identity && k.locator == o.locator && r.lastSeen > o.at - WINDOW
                then c.(recent := c.recent + {k.object_}) else c;
    if !AtObject(k, o) then seen
    else seen.(identities := c.identities + {k.identity},
               tenants := if r.tenant != "" then c.tenants + {r.tenant} else c.tenants,
               observations := c.observations + r.count,
               current := c.current || k.identity == o.identity,
               foreign := c.foreign || (k.identity != o.identity && r.count >= MIN_OBSERVATIONS),
               foreignTenant := c.foreignTenant || ForeignTenant(r, o))
  }

  predicate Within(relations: Relations, o: Observation) { Around(relations, o) <= relations.Keys }

  lemma NoContext(relations: Relations, o: Observation)
    ensures Within(relations, o)
    ensures ContextOf(Context(false, false, false, {}, {}, 0, {}), relations, o,
                      Around(relations, o) - relations.Keys, RecentKeys(relations, o) - relations.Keys)
  {
    assert Around(relations, o) - relations.Keys == {} && RecentKeys(relations, o) - relations.Keys == {};
    assert Pairs(relations, {}) == {};
  }

  lemma ContextStep(c: Context, relations: Relations, o: Observation, left: set<RelKey>, k: RelKey)
    requires left <= relations.Keys && k in left && Within(relations, o)
    requires ContextOf(c, relations, o, Around(relations, o) - left, RecentKeys(relations, o) - left)
    ensures ContextOf(if Live(relations[k], o.at) then Extended(c, relations, o, k) else c, relations, o,
                      Around(relations, o) - (left - {k}), RecentKeys(relations, o) - (left - {k}))
  {
    var around, recent := Around(relations, o) - left, RecentKeys(relations, o) - left;
    assert Around(relations, o) - (left - {k}) == if Live(relations[k], o.at) && AtObject(k, o) then around + {k} else around;
    assert RecentKeys(relations, o) - (left - {k}) == if k in RecentKeys(relations, o) then recent + {k} else recent;
    hide ContextOf;
    if Live(relations[k], o.at) {
      ContextGrows(c, relations, o, around, recent, k);
    }
  }

  lemma ContextGrows(c: Context, relations: Relations, o: Observation, around: set<RelKey>, recent: set<RelKey>, k: RelKey)
    requires around <= relations.Keys && ContextOf(c, relations, o, around, recent)
    requires k in relations && k !in around && Live(relations[k], o.at)
    ensures ContextOf(Extended(c, relations, o, k), relations, o,
                      if AtObject(k, o) then around + {k} else around,
                      if k in RecentKeys(relations, o) then recent + {k} else recent)
  {
    if AtObject(k, o) {
      OneMorePair(relations, around, k);
      hide Pairs;
      assert k.identity == o.identity <==> k == KeyOf(o);
      AroundGrows(c, relations, o, around, k);
    }
    RecentGrows(recent, k);
  }

  lemma AroundGrows(c: Context, relations: Relations, o: Observation, around: set<RelKey>, k: RelKey)
    requires around <= relations.Keys && k in relations
    ensures (set j | j in around + {k} :: j.identity) == (set j | j in around :: j.identity) + {k.identity}
    ensures (set j | j in around + {k} && relations[j].tenant != "" :: relations[j].tenant)
            == (set j | j in around && relations[j].tenant != "" :: relations[j].tenant)
               + (if relations[k].tenant != "" then {relations[k].tenant} else {})
  {
    assert k in around + {k};
  }

  lemma RecentGrows(recent: set<RelKey>, k: RelKey)
    ensures (set j | j in recent + {k} :: j.object_) == (set j | j in recent :: j.object_) + {k.object_}
  {
    assert k in recent + {k};
  }
}
