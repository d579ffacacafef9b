/**
  Evidence of broken object-level authorisation: who was seen at which object, and the candidates drawn
  from that. Every candidate can be traced back to observations that were really made, and every table
  stays within its caps.
 */
module BolaEvidence {
  import opened Common

  const RELATION_TTL := 2592000
  const CANDIDATE_TTL := 604800
  const WINDOW := 600
  const MIN_OBSERVATIONS := 2
  const MIN_OBJECTS := 20
  const MAX_RELATIONS := 8192
  const MAX_RELATIONS_PER_IDENTITY := 512
  const MAX_RELATIONS_PER_OBJECT := 256
  const MAX_CANDIDATES := 4096
  const MAX_CANDIDATES_PER_IDENTITY := 256
  const MAX_CANDIDATES_PER_OBJECT := 128

  /** A verified identity seen at an object under a locator; the tenant may be unknown. Times are in seconds. */
  datatype Observation = Observation(identity: string, tenant: string, locator: string, object_: string, at: int)

  datatype RelKey = RelKey(identity: string, locator: string, object_: string)

  /** The tenant is that of the observation that made the relation. */
  datatype Relation = Relation(tenant: string, count: nat, lastSeen: int)

  datatype Kind = IdentityDivergence | TenantDivergence | Enumeration

  datatype CandKey = CandKey(kind: Kind, identity: string, locator: string, object_: string, tenant: string)

  datatype Candidate = Candidate(high: bool, evidence: nat, lastSeen: int)

  type Relations = map<RelKey, Relation>
  type Candidates = map<CandKey, Candidate>
  type Log = seq<Observation>

  function KeyOf(o: Observation): RelKey { RelKey(o.identity, o.locator, o.object_) }

  predicate Live(r: Relation, at: int) { r.lastSeen + RELATION_TTL > at }

  predicate AtObject(k: RelKey, o: Observation) { k.locator == o.locator && k.object_ == o.object_ }

  // ------------------------------------------------------------ the context of an observation

  datatype Context = Context(current: bool, foreign: bool, foreignTenant: bool, identities: set<string>, tenants: set<string>,
                             observations: nat, recent: set<string>)

  /** The live relations of the object observed. */
  function Around(relations: Relations, o: Observation): set<RelKey> {
    set k | k in relations && Live(relations[k], o.at) && AtObject(k, o)
  }

  /** The identity's live relations under the locator, seen within the window. */
  function RecentKeys(relations: Relations, o: Observation): set<RelKey> {
    set k | k in relations && Live(relations[k], o.at) && k.identity == o.identity && k.locator == o.locator
            && relations[k].lastSeen > o.at - WINDOW
  }

  predicate ForeignTenant(r: Relation, o: Observation) {
    o.tenant != "" && r.tenant != "" && r.tenant != o.tenant && r.count >= MIN_OBSERVATIONS
  }

  /** The sum of the counts of some relations, as a number of pairs. */
  function Pairs(relations: Relations, keys: set<RelKey>): set<(RelKey, nat)>
    requires keys <= relations.Keys
  {
    set k, n | k in keys && 0 <= n < relations[k].count :: (k, n)
  }

  ghost predicate IsContext(c: Context, relations: Relations, o: Observation) {
    ContextOf(c, relations, o, Around(relations, o), RecentKeys(relations, o))
  }

  /** The context as far as these relations have been looked at. */
  ghost predicate ContextOf(c: Context, relations: Relations, o: Observation, around: set<RelKey>, recent: set<RelKey>)
    requires around <= relations.Keys
  {
    && (c.current <==> KeyOf(o) in around)
    && (c.foreign <==> exists k :: k in around && k.identity != o.identity && relations[k].count >= MIN_OBSERVATIONS)
    && (c.foreignTenant <==> exists k :: k in around && ForeignTenant(relations[k], o))
    && c.identities == (set k | k in around :: k.identity)
    && c.tenants == (set k | k in around && relations[k].tenant != "" :: relations[k].tenant)
    && c.observations == |Pairs(relations, around)|
    && c.recent == (set k | k in recent :: k.object_)
  }

  lemma OneMorePair(relations: Relations, keys: set<RelKey>, k: RelKey)
    requires keys <= relations.Keys && k in relations && k !in keys
    ensures |Pairs(relations, keys + {k})| == |Pairs(relations, keys)| + relations[k].count
  {
    var mine := PairsOf(k, relations[k].count);
    CountPairs(k, relations[k].count);
    assert Pairs(relations, keys + {k}) == Pairs(relations, keys) + mine;
    assert Pairs(relations, keys) !! mine;
  }

  // ------------------------------------------------------------ what the relations rest on

  /** The observations of a key, in order. */
  function Sights(log: Log, k: RelKey): seq<Observation> {
    if log == [] then []
    else Sights(log[..|log| - 1], k) + (if KeyOf(log[|log| - 1]) == k then [log[|log| - 1]] else [])
  }

  function Seen(log: Log, k: RelKey): nat { |Sights(log, k)| }

  /** The last n observations of a key. */
  function LastSights(log: Log, k: RelKey, n: nat): seq<Observation>
    requires n <= Seen(log, k)
  {
    Sights(log, k)[Seen(log, k) - n..]
  }

  /** Every relation comes from observations in the log. */
  ghost predicate Supported(relations: Relations, log: Log) {
    forall k :: k in relations ==> SupportedOne(k, relations[k], log)
  }

  /** A relation counts the last observations of its key: its tenant is that of the first of them, its last sight that of the last. */
  ghost predicate SupportedOne(k: RelKey, r: Relation, log: Log) {
    && 1 <= r.count <= Seen(log, k)
    && var counted := LastSights(log, k, r.count);
       r.tenant == counted[0].tenant && r.lastSeen == counted[r.count - 1].at
  }

  lemma SightsGrow(log: Log, o: Observation, k: RelKey)
    ensures Sights(log + [o], k) == Sights(log, k) + (if KeyOf(o) == k then [o] else [])
  {
    assert (log + [o])[..|log|] == log;
  }

  lemma {:induction false} SightIsLogged(log: Log, k: RelKey, j: nat) returns (i: nat)
    requires j < Seen(log, k)
    ensures i < |log| && log[i] == Sights(log, k)[j] && KeyOf(log[i]) == k
  {
    var n := |log| - 1;
    if j < |Sights(log[..n], k)| {
      i := SightIsLogged(log[..n], k, j);
    } else {
      i := n;
    }
  }

  lemma SupportGrows(k: RelKey, r: Relation, log: Log, o: Observation)
    requires SupportedOne(k, r, log) && k != KeyOf(o)
    ensures SupportedOne(k, r, log + [o])
  {
    SightsGrow(log, o, k);
  }

  lemma OneMoreSight(r: Relation, log: Log, o: Observation)
    requires SupportedOne(KeyOf(o), r, log)
    ensures SupportedOne(KeyOf(o), r.(count := r.count + 1, lastSeen := o.at), log + [o])
  {
    SightsGrow(log, o, KeyOf(o));
  }

  lemma FirstSight(log: Log, o: Observation)
    ensures SupportedOne(KeyOf(o), Relation(o.tenant, 1, o.at), log + [o])
  {
    SightsGrow(log, o, KeyOf(o));
  }

  /** Every observation that the relation counts was under the relation's tenant. */
  ghost predicate OneTenant(k: RelKey, r: Relation, log: Log)
    requires SupportedOne(k, r, log)
  {
    forall i :: 0 <= i < r.count ==> LastSights(log, k, r.count)[i].tenant == r.tenant
  }

  // ------------------------------------------------------------ what a candidate rests on

  /** The objects the identity was seen at under the locator since a time. */
  function Objects(log: Log, identity: string, locator: string, since: int): set<string> {
    set i | 0 <= i < |log| && log[i].identity == identity && log[i].locator == locator && log[i].at > since :: log[i].object_
  }

  /** Another identity was seen at the object that many times. */
  ghost predicate SeenByAnother(log: Log, c: CandKey, times: nat) {
    exists j :: j != c.identity && Seen(log, RelKey(j, c.locator, c.object_)) >= times
  }

  /** Another identity was seen there at least twice, once under a known tenant that is not this one. */
  ghost predicate SeenUnderAnotherTenant(log: Log, c: CandKey) {
    exists j, i :: j != c.identity && Seen(log, RelKey(j, c.locator, c.object_)) >= 2
                   && 0 <= i < |log| && KeyOf(log[i]) == RelKey(j, c.locator, c.object_) && log[i].tenant !in {"", c.tenant}
  }

  ghost predicate Justified(key: CandKey, c: Candidate, log: Log) {
    match key.kind
    case IdentityDivergence => SeenByAnother(log, key, if c.high then 5 else 2)
    case TenantDivergence => key.tenant != "" && SeenUnderAnotherTenant(log, key)
    case Enumeration =>
      |Objects(log, key.identity, key.locator, c.lastSeen - WINDOW) + {key.object_}| >= if c.high then 2 * MIN_OBJECTS else MIN_OBJECTS
  }

  lemma {:induction false} SeenGrows(log: Log, n: nat, k: RelKey)
    requires n <= |log|
    ensures Seen(log[..n], k) <= Seen(log, k)
    decreases |log| - n
  {
    if n == |log| {
      assert log[..n] == log;
    } else {
      assert log[..n + 1][..n] == log[..n];
      SeenGrows(log, n + 1, k);
    }
  }

  lemma JustifiedLater(key: CandKey, c: Candidate, log: Log, o: Observation)
    requires Justified(key, c, log)
    ensures Justified(key, c, log + [o])
  {
    var more := log + [o];
    assert more[..|log|] == log;
    forall k ensures Seen(log, k) <= Seen(more, k) {
      SeenGrows(more, |log|, k);
    }
    match key.kind
    case IdentityDivergence =>
    case TenantDivergence =>
      var j, i :| j != key.identity && Seen(log, RelKey(j, key.locator, key.object_)) >= 2
        && 0 <= i < |log| && KeyOf(log[i]) == RelKey(j, key.locator, key.object_) && log[i].tenant !in {"", key.tenant};
      assert more[i] == log[i];
    case Enumeration =>
      var a, b := Objects(log, key.identity, key.locator, c.lastSeen - WINDOW), Objects(more, key.identity, key.locator, c.lastSeen - WINDOW);
      forall x | x in a ensures x in b {
        var i :| 0 <= i < |log| && log[i].identity == key.identity && log[i].locator == key.locator && log[i].at > c.lastSeen - WINDOW && log[i].object_ == x;
        assert more[i] == log[i];
      }
      Fewer(a + {key.object_}, b + {key.object_});
  }

  function CandOf(kind: Kind, o: Observation): CandKey { CandKey(kind, o.identity, o.locator, o.object_, o.tenant) }

  function HighIdentity(c: Context): bool { c.observations >= 5 && |c.identities| == 1 }

  function HighTenant(c: Context): bool { |c.tenants| == 1 && c.observations >= 5 }

  function HighEnumeration(c: Context): bool { |c.recent| >= 2 * MIN_OBJECTS - 1 }

  /** When a candidate of a kind is recorded. */
  predicate Fires(kind: Kind, c: Context, o: Observation) {
    match kind
    case IdentityDivergence => !c.current && c.foreign && c.observations >= MIN_OBSERVATIONS
    case TenantDivergence => o.tenant != "" && !c.current && c.foreignTenant && c.observations >= MIN_OBSERVATIONS
    case Enumeration => !c.current && |c.recent| >= MIN_OBJECTS - 1
  }

  function IsHigh(kind: Kind, c: Context): bool {
    match kind case IdentityDivergence => HighIdentity(c) case TenantDivergence => HighTenant(c) case Enumeration => HighEnumeration(c)
  }

  lemma IdentityIsJustified(c: Context, relations: Relations, log: Log, o: Observation, evidence: nat)
    requires IsContext(c, relations, o) && Supported(relations, log) && Fires(IdentityDivergence, c, o)
    ensures Justified(CandOf(IdentityDivergence, o), Candidate(HighIdentity(c), evidence, o.at), log)
  {
    hide SupportedOne;
    var k :| k in Around(relations, o) && k.identity != o.identity && relations[k].count >= MIN_OBSERVATIONS;
    assert k == RelKey(k.identity, o.locator, o.object_);
    CountedByAnother(k, relations[k], log, CandOf(IdentityDivergence, o));
    if HighIdentity(c) {
      SoleIdentity(c, relations, o, k);
    }
  }

  /** With one identity around, all the observations around are that identity's. */
  lemma SoleIdentity(c: Context, relations: Relations, o: Observation, k: RelKey)
    requires IsContext(c, relations, o) && |c.identities| == 1 && k in Around(relations, o)
    ensures relations[k].count == c.observations
  {
    var around := Around(relations, o);
    forall j | j in around ensures j == k {
      OneMember(c.identities, j.identity, k.identity);
    }
    assert {} + {k} == around;
    OneMorePair(relations, {}, k);
    assert Pairs(relations, {}) == {};
  }

  lemma CountedByAnother(k: RelKey, r: Relation, log: Log, c: CandKey)
    requires SupportedOne(k, r, log) && k == RelKey(k.identity, c.locator, c.object_) && k.identity != c.identity
    ensures r.count >= 2 ==> SeenByAnother(log, c, 2)
    ensures r.count >= 5 ==> SeenByAnother(log, c, 5)
  {
  }

  lemma OneMember(s: set<string>, a: string, b: string)
    requires |s| == 1 && a in s && b in s
    ensures a == b
  {
    assert |s - {a}| == 0;
  }

  /** A relation's observations stay under one tenant exactly as long as each one counted brings that very tenant. */
  lemma OneTenantExactly(r: Relation, log: Log, o: Observation)
    requires SupportedOne(KeyOf(o), r, log)
    ensures var next := r.(count := r.count + 1, lastSeen := o.at);
      && SupportedOne(KeyOf(o), next, log + [o])
      && (OneTenant(KeyOf(o), next, log + [o]) <==> OneTenant(KeyOf(o), r, log) && o.tenant == r.tenant)
  {
    var next := r.(count := r.count + 1, lastSeen := o.at);
    SightsGrow(log, o, KeyOf(o));
    OneMoreSight(r, log, o);
    var was, now := LastSights(log, KeyOf(o), r.count), LastSights(log + [o], KeyOf(o), next.count);
    assert now == was + [o];
    if OneTenant(KeyOf(o), next, log + [o]) {
      assert now[r.count] == o;
      assert forall i :: 0 <= i < r.count ==> was[i] == now[i];
    }
  }

  lemma OneTenantElsewhere(k: RelKey, r: Relation, log: Log, o: Observation)
    requires SupportedOne(k, r, log) && k != KeyOf(o)
    ensures SupportedOne(k, r, log + [o]) && (OneTenant(k, r, log + [o]) <==> OneTenant(k, r, log))
  {
    SightsGrow(log, o, k);
    assert Sights(log + [o], k) == Sights(log, k);
    assert LastSights(log + [o], k, r.count) == LastSights(log, k, r.count);
  }

  lemma OneTenantAtFirst(log: Log, o: Observation)
    ensures SupportedOne(KeyOf(o), Relation(o.tenant, 1, o.at), log + [o]) && OneTenant(KeyOf(o), Relation(o.tenant, 1, o.at), log + [o])
  {
    SightsGrow(log, o, KeyOf(o));
  }

  lemma TenantIsJustified(c: Context, relations: Relations, log: Log, o: Observation, evidence: nat)
    requires IsContext(c, relations, o) && Supported(relations, log) && Fires(TenantDivergence, c, o)
    ensures Justified(CandOf(TenantDivergence, o), Candidate(HighTenant(c), evidence, o.at), log)
  {
    var k :| k in Around(relations, o) && ForeignTenant(relations[k], o);
    assert SupportedOne(k, relations[k], log);
    assert k == RelKey(k.identity, o.locator, o.object_);
    assert k.identity != o.identity;
    var i := SightIsLogged(log, k, Seen(log, k) - relations[k].count);
    assert log[i].tenant !in {"", o.tenant};
  }

  lemma EnumerationIsJustified(c: Context, relations: Relations, log: Log, o: Observation, evidence: nat)
    requires IsContext(c, relations, o) && Supported(relations, log) && Fires(Enumeration, c, o)
    ensures Justified(CandOf(Enumeration, o), Candidate(HighEnumeration(c), evidence, o.at), log)
  {
    hide ContextOf, SupportedOne;
    var objects := Objects(log, o.identity, o.locator, o.at - WINDOW);
    RecentWereSeen(c, relations, log, o);
    NotYetRecent(c, relations, o);
    hide Objects, IsContext, Supported, KeyOf, Around, RecentKeys, SeenByAnother, SeenUnderAnotherTenant;
    Fewer(c.recent + {o.object_}, objects + {o.object_});
  }

  lemma RecentWereSeen(c: Context, relations: Relations, log: Log, o: Observation)
    requires IsContext(c, relations, o) && Supported(relations, log)
    ensures c.recent <= Objects(log, o.identity, o.locator, o.at - WINDOW)
  {
    forall x | x in c.recent ensures x in Objects(log, o.identity, o.locator, o.at - WINDOW) {
      var k :| k in RecentKeys(relations, o) && k.object_ == x;
      SeenRecently(k, relations[k], log, o);
    }
  }

  lemma SeenRecently(k: RelKey, r: Relation, log: Log, o: Observation)
    requires SupportedOne(k, r, log) && k.identity == o.identity && k.locator == o.locator && r.lastSeen > o.at - WINDOW
    ensures k.object_ in Objects(log, o.identity, o.locator, o.at - WINDOW)
  {
    var i := SightIsLogged(log, k, Seen(log, k) - 1);
    assert log[i].identity == k.identity && log[i].object_ == k.object_;
  }

  lemma NotYetRecent(c: Context, relations: Relations, o: Observation)
    requires IsContext(c, relations, o) && !c.current
    ensures o.object_ !in c.recent
  {
    forall k | k in RecentKeys(relations, o) ensures k.object_ != o.object_ {
      assert k.object_ == o.object_ ==> k == KeyOf(o);
    }
  }

  lemma FiredIsJustified(kind: Kind, c: Context, relations: Relations, log: Log, o: Observation, evidence: nat)
    requires IsContext(c, relations, o) && Supported(relations, log) && Fires(kind, c, o)
    ensures Justified(CandOf(kind, o), Candidate(IsHigh(kind, c), evidence, o.at), log)
  {
    match kind
    case IdentityDivergence => IdentityIsJustified(c, relations, log, o, evidence);
    case TenantDivergence => TenantIsJustified(c, relations, log, o, evidence);
    case Enumeration => EnumerationIsJustified(c, relations, log, o, evidence);
  }

  /**
    One of the observations that make a tenant divergence may have been under the very tenant it is held
    against: the relation then does not stay under one tenant.
   */
  lemma TenantOfLaterSightsIsForgotten()
    ensures var a := Observation("alice", "T1", "loc", "obj", 0);
      var b := a.(tenant := "T2", at := 1);
      var r := Relation("T1", 2, 1);
      SupportedOne(KeyOf(a), r, [a, b]) && !OneTenant(KeyOf(a), r, [a, b]) && ForeignTenant(r, Observation("bob", "T2", "loc", "obj", 2))
  {
    var a := Observation("alice", "T1", "loc", "obj", 0);
    var b := a.(tenant := "T2", at := 1);
    FirstSight([], a);
    OneTenantExactly(Relation("T1", 1, 0), [] + [a], b);
    assert [] + [a] + [b] == [a, b];
  }

  // ------------------------------------------------------------ caps

  function OfIdentity(keys: set<RelKey>, identity: string): set<RelKey> { set k | k in keys && k.identity == identity }

  function OfObject(keys: set<RelKey>, locator: string, object_: string): set<RelKey> {
    set k | k in keys && k.locator == locator && k.object_ == object_
  }

  ghost predicate RelationsCapped(keys: set<RelKey>) {
    && |keys| <= MAX_RELATIONS
    && (forall i :: |OfIdentity(keys, i)| <= MAX_RELATIONS_PER_IDENTITY)
    && (forall l, o :: |OfObject(keys, l, o)| <= MAX_RELATIONS_PER_OBJECT)
  }

  function CandsOfIdentity(keys: set<CandKey>, identity: string): set<CandKey> { set k | k in keys && k.identity == identity }

  function CandsOfObject(keys: set<CandKey>, locator: string, object_: string): set<CandKey> {
    set k | k in keys && k.locator == locator && k.object_ == object_
  }

  ghost predicate CandidatesCapped(keys: set<CandKey>) {
    && |keys| <= MAX_CANDIDATES
    && (forall i :: |CandsOfIdentity(keys, i)| <= MAX_CANDIDATES_PER_IDENTITY)
    && (forall l, o :: |CandsOfObject(keys, l, o)| <= MAX_CANDIDATES_PER_OBJECT)
  }

  lemma FewerRelationsCapped(all: set<RelKey>, some: set<RelKey>)
    requires RelationsCapped(all) && some <= all
    ensures RelationsCapped(some)
  {
    Fewer(some, all);
    forall i ensures |OfIdentity(some, i)| <= MAX_RELATIONS_PER_IDENTITY {
      Fewer(OfIdentity(some, i), OfIdentity(all, i));
    }
    forall l, o ensures |OfObject(some, l, o)| <= MAX_RELATIONS_PER_OBJECT {
      Fewer(OfObject(some, l, o), OfObject(all, l, o));
    }
  }

  lemma FewerCandidatesCapped(all: set<CandKey>, some: set<CandKey>)
    requires CandidatesCapped(all) && some <= all
    ensures CandidatesCapped(some)
  {
    Fewer(some, all);
    forall i ensures |CandsOfIdentity(some, i)| <= MAX_CANDIDATES_PER_IDENTITY {
      Fewer(CandsOfIdentity(some, i), CandsOfIdentity(all, i));
    }
    forall l, o ensures |CandsOfObject(some, l, o)| <= MAX_CANDIDATES_PER_OBJECT {
      Fewer(CandsOfObject(some, l, o), CandsOfObject(all, l, o));
    }
  }

  lemma NewRelationCapped(keys: set<RelKey>, k: RelKey)
    requires RelationsCapped(keys)
    requires k !in keys ==> |keys| < MAX_RELATIONS && |OfIdentity(keys, k.identity)| < MAX_RELATIONS_PER_IDENTITY
                            && |OfObject(keys, k.locator, k.object_)| < MAX_RELATIONS_PER_OBJECT
    ensures RelationsCapped(keys + {k})
  {
    if k in keys {
      assert keys + {k} == keys;
    } else {
      hide OfIdentity, OfObject;
      forall i ensures |OfIdentity(keys + {k}, i)| <= MAX_RELATIONS_PER_IDENTITY {
        RelKeyAdded(keys, k, i, "", "");
      }
      forall l, o ensures |OfObject(keys + {k}, l, o)| <= MAX_RELATIONS_PER_OBJECT {
        RelKeyAdded(keys, k, "", l, o);
      }
    }
  }

  lemma RelKeyAdded(keys: set<RelKey>, k: RelKey, i: string, l: string, o: string)
    requires k !in keys
    ensures OfIdentity(keys + {k}, i) == if i == k.identity then OfIdentity(keys, i) + {k} else OfIdentity(keys, i)
    ensures OfObject(keys + {k}, l, o) == if l == k.locator && o == k.object_ then OfObject(keys, l, o) + {k} else OfObject(keys, l, o)
  {
  }

  lemma NewCandidateCapped(keys: set<CandKey>, k: CandKey)
    requires CandidatesCapped(keys)
    requires k !in keys ==> |keys| < MAX_CANDIDATES && |CandsOfIdentity(keys, k.identity)| < MAX_CANDIDATES_PER_IDENTITY
                            && |CandsOfObject(keys, k.locator, k.object_)| < MAX_CANDIDATES_PER_OBJECT
    ensures CandidatesCapped(keys + {k})
  {
    if k in keys {
      assert keys + {k} == keys;
    } else {
      hide CandsOfIdentity, CandsOfObject;
      forall i ensures |CandsOfIdentity(keys + {k}, i)| <= MAX_CANDIDATES_PER_IDENTITY {
        CandKeyAdded(keys, k, i, "", "");
      }
      forall l, o ensures |CandsOfObject(keys + {k}, l, o)| <= MAX_CANDIDATES_PER_OBJECT {
        CandKeyAdded(keys, k, "", l, o);
      }
    }
  }

  lemma CandKeyAdded(keys: set<CandKey>, k: CandKey, i: string, l: string, o: string)
    requires k !in keys
    ensures CandsOfIdentity(keys + {k}, i) == if i == k.identity then CandsOfIdentity(keys, i) + {k} else CandsOfIdentity(keys, i)
    ensures CandsOfObject(keys + {k}, l, o) == if l == k.locator && o == k.object_ then CandsOfObject(keys, l, o) + {k} else CandsOfObject(keys, l, o)
  {
  }
}
