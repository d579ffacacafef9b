/**
  Identity policies bind an operation to a trusted token issuer. They are promoted from DETECT to ENFORCE
  by an explicit step; a change to what the policy means, or to whom it trusts, takes it back.
 */
module IdentityPolicies {
  import opened Common

  datatype Mode = Detect | Enforce

  /** The fields by which tokens are verified. */
  datatype Trust = Trust(issuer: string, jwksUrl: string, clockSkew: nat, cacheTtl: nat, subjectClaim: string,
                         tenantClaim: string, clientClaim: string, rolesClaim: string, scopesClaim: string,
                         audiences: seq<string>, algorithms: seq<string>)

  datatype Issuer = Issuer(id: string, name: string, enabled: bool, trust: Trust)

  datatype Policy = Policy(operation: string, issuer: string, mode: Mode, roleMatch: string, scopeMatch: string,
                           tenant: string, roles: seq<string>, scopes: seq<string>, clients: seq<string>, reason: string)

  type Issuers = map<string, Issuer>
  type Policies = map<string, Policy>

  const TRUST_CHANGED := "issuer trust semantics changed; returned to DETECT"
  const POLICY_CHANGED := "policy semantics changed; returned to DETECT"

  // ------------------------------------------------------------ comparing lists through a joined text

  /** The items with a NUL between them. */
  function JoinNul(items: seq<string>): string {
    if items == [] then "" else if |items| == 1 then items[0] else items[0] + (['\0'] + JoinNul(items[1..]))
  }

  /** The stretches of a text between its NULs. */
  function SplitNul(text: string): (pieces: seq<string>)
    ensures pieces != []
  {
    if text == "" then [""] else Behind(text[0], SplitNul(text[1..]))
  }

  function Behind(c: char, rest: seq<string>): (pieces: seq<string>)
    requires rest != []
    ensures pieces != []
  {
    if c == '\0' then [""] + rest else [[c] + rest[0]] + rest[1..]
  }

  lemma BehindMore(c: char, a: seq<string>, b: seq<string>)
    requires a != []
    ensures Behind(c, a + b) == Behind(c, a) + b
  {
    assert (a + b)[1..] == a[1..] + b;
  }

  /** What of a list its joined text shows: all the stretches between NULs; of an empty list, an empty one. */
  function Shown(items: seq<string>): (pieces: seq<string>)
    ensures pieces != []
  {
    if items == [] then [""] else Pieces(items)
  }

  function Pieces(items: seq<string>): (pieces: seq<string>)
    requires items != []
    ensures pieces != []
  {
    if |items| == 1 then SplitNul(items[0]) else SplitNul(items[0]) + Pieces(items[1..])
  }

  lemma {:induction false} SplitAtNul(a: string, b: string)
    ensures SplitNul(a + (['\0'] + b)) == SplitNul(a) + SplitNul(b)
  {
    var text := a + (['\0'] + b);
    if a == "" {
      assert text == ['\0'] + b;
      assert text[1..] == b;
    } else {
      assert text[0] == a[0] && text[1..] == a[1..] + (['\0'] + b);
      SplitAtNul(a[1..], b);
      BehindMore(a[0], SplitNul(a[1..]), SplitNul(b));
      hide Behind;
    }
  }

  lemma {:induction false} SplitUndoesJoin(items: seq<string>)
    ensures SplitNul(JoinNul(items)) == Shown(items)
  {
    if |items| > 1 {
      SplitAtNul(items[0], JoinNul(items[1..]));
      SplitUndoesJoin(items[1..]);
    }
  }

  lemma {:induction false} JoinUndoesSplit(text: string)
    ensures JoinNul(SplitNul(text)) == text
  {
    if text != "" {
      JoinUndoesSplit(text[1..]);
      var rest := SplitNul(text[1..]);
      if text[0] == '\0' {
        assert ([""] + rest)[1..] == rest;
        assert JoinNul([""] + rest) == "" + (['\0'] + text[1..]);
        assert text == ['\0'] + text[1..];
      } else {
        var first := [text[0]] + rest[0];
        assert ([first] + rest[1..])[1..] == rest[1..];
        assert rest == [rest[0]] + rest[1..];
        assert text == [text[0]] + text[1..];
        assert |rest| > 1 ==> first + (['\0'] + JoinNul(rest[1..])) == [text[0]] + (rest[0] + (['\0'] + JoinNul(rest[1..])));
      }
    }
  }

  /** Lists have the same joined text exactly when they show the same stretches between NULs. */
  lemma ConfusedExactly(a: seq<string>, b: seq<string>)
    ensures JoinNul(a) == JoinNul(b) <==> Shown(a) == Shown(b)
  {
    SplitUndoesJoin(a);
    SplitUndoesJoin(b);
    SplitAgainJoins(a);
    SplitAgainJoins(b);
  }

  lemma SplitAgainJoins(items: seq<string>)
    ensures JoinNul(Shown(items)) == JoinNul(items)
  {
    JoinUndoesSplit(JoinNul(items));
    SplitUndoesJoin(items);
  }

  predicate NulFree(items: seq<string>) {
    forall i :: 0 <= i < |items| ==> items[i] != "" && '\0' !in items[i]
  }

  lemma {:induction false} OnePiece(text: string)
    requires '\0' !in text
    ensures SplitNul(text) == [text]
  {
    if text != "" {
      assert text[0] in text;
      OnePiece(text[1..]);
      assert text == [text[0]] + text[1..];
    }
  }

  lemma {:induction false} AllShown(items: seq<string>)
    requires NulFree(items) && items != []
    ensures Shown(items) == items
  {
    OnePiece(items[0]);
    if |items| > 1 {
      AllShown(items[1..]);
      assert items == [items[0]] + items[1..];
    } else {
      assert items == [items[0]];
    }
  }

  /** Lists of nonempty items without NULs show what they are, so they have the same joined text only if they are the same. */
  lemma JoinIsInjective(a: seq<string>, b: seq<string>)
    requires NulFree(a) && NulFree(b)
    ensures JoinNul(a) == JoinNul(b) <==> a == b
  {
    ConfusedExactly(a, b);
    if a != [] {
      AllShown(a);
    }
    if b != [] {
      AllShown(b);
    }
    assert NulFree([""]) ==> [""][0] != "";
  }

  /** A list with a NUL inside an item can show what another one does. */
  lemma JoinConfusesNuls()
    ensures JoinNul(["a\0b"]) == JoinNul(["a", "b"]) && ["a\0b"] != ["a", "b"]
  {
    assert ["a", "b"][1..] == ["b"];
    assert JoinNul(["a", "b"]) == "a" + (['\0'] + "b");
    assert ["a\0b"][0] == "a\0b";
    assert |["a\0b"]| == 1 && |["a", "b"]| == 2;
  }

  predicate SameTrust(a: Trust, b: Trust) {
    && a.(audiences := [], algorithms := []) == b.(audiences := [], algorithms := [])
    && JoinNul(a.audiences) == JoinNul(b.audiences) && JoinNul(a.algorithms) == JoinNul(b.algorithms)
  }

  predicate SameSemantics(a: Policy, b: Policy) {
    && a.operation == b.operation && a.issuer == b.issuer && a.roleMatch == b.roleMatch && a.scopeMatch == b.scopeMatch
    && a.tenant == b.tenant && JoinNul(a.roles) == JoinNul(b.roles) && JoinNul(a.scopes) == JoinNul(b.scopes)
    && JoinNul(a.clients) == JoinNul(b.clients)
  }

  function ShownTrust(t: Trust): Trust { t.(audiences := Shown(t.audiences), algorithms := Shown(t.algorithms)) }

  /** What a policy means, as far as a comparison sees it. */
  function ShownPolicy(p: Policy): Policy {
    p.(mode := Detect, reason := "", roles := Shown(p.roles), scopes := Shown(p.scopes), clients := Shown(p.clients))
  }

  /** The comparisons see exactly the fields and what the lists show. */
  lemma ComparisonsSeeExactly(a: Policy, b: Policy, s: Trust, t: Trust)
    ensures SameSemantics(a, b) <==> ShownPolicy(a) == ShownPolicy(b)
    ensures SameTrust(s, t) <==> ShownTrust(s) == ShownTrust(t)
  {
    ConfusedExactly(a.roles, b.roles);
    ConfusedExactly(a.scopes, b.scopes);
    ConfusedExactly(a.clients, b.clients);
    ConfusedExactly(s.audiences, t.audiences);
    ConfusedExactly(s.algorithms, t.algorithms);
    hide JoinNul, Shown;
  }

  predicate CleanTrust(t: Trust) { NulFree(t.audiences) && NulFree(t.algorithms) }

  predicate CleanPolicy(p: Policy) { NulFree(p.roles) && NulFree(p.scopes) && NulFree(p.clients) }

  /** Without NULs the comparisons are exact: same meaning is equality of everything but mode and reason. */
  lemma ComparisonsAreExact(a: Policy, b: Policy, s: Trust, t: Trust)
    requires CleanPolicy(a) && CleanPolicy(b) && CleanTrust(s) && CleanTrust(t)
    ensures SameSemantics(a, b) <==> a.(mode := Detect, reason := "") == b.(mode := Detect, reason := "")
    ensures SameTrust(s, t) <==> s == t
  {
    JoinIsInjective(a.roles, b.roles);
    JoinIsInjective(a.scopes, b.scopes);
    JoinIsInjective(a.clients, b.clients);
    JoinIsInjective(s.audiences, t.audiences);
    JoinIsInjective(s.algorithms, t.algorithms);
  }

  // ------------------------------------------------------------ what every change keeps

  /** The policy and its issuer's trust fields as they stood when the policy was promoted. */
  datatype Promotion = Promotion(policy: Policy, trust: Trust)

  type Promotions = map<string, Promotion>

  /** The policy is bound to an enabled issuer; enforcing, it means what was promoted, and trusts whom it did. */
  ghost predicate Lawful(p: Policy, issuers: Issuers, promoted: Promotions) {
    && p.issuer in issuers && issuers[p.issuer].enabled
    && (p.mode == Enforce ==>
          && p.operation in promoted && promoted[p.operation].policy.mode == Detect
          && SameSemantics(p, promoted[p.operation].policy)
          && SameTrust(issuers[p.issuer].trust, promoted[p.operation].trust))
  }

  ghost predicate Sound(policies: Policies, issuers: Issuers, promoted: Promotions) {
    && (forall i :: i in issuers ==> issuers[i].id == i)
    && (forall op :: op in policies ==> policies[op].operation == op && Lawful(policies[op], issuers, promoted))
  }

  /** A policy whose issuer's trust fields have changed. */
  function Demoted(p: Policy, issuer: string): Policy {
    if p.issuer == issuer && p.mode == Enforce then p.(mode := Detect, reason := TRUST_CHANGED) else p
  }

  ghost predicate AllDemoted(before: Policies, after: Policies, issuer: string) {
    && after.Keys == before.Keys
    && forall op :: op in before ==> after[op] == Demoted(before[op], issuer)
  }

  lemma IssuerChangeIsSound(before: Policies, after: Policies, issuers: Issuers, promoted: Promotions, i: Issuer)
    requires Sound(before, issuers, promoted)
    requires !i.enabled ==> forall op :: op in before ==> before[op].issuer != i.id
    requires if i.id in issuers && !SameTrust(issuers[i.id].trust, i.trust) then AllDemoted(before, after, i.id) else after == before
    ensures Sound(after, issuers[i.id := i], promoted)
  {
    forall op | op in after ensures after[op].operation == op && Lawful(after[op], issuers[i.id := i], promoted) {
      assert Lawful(before[op], issuers, promoted);
      hide JoinNul;
    }
  }

  /** The policy stored for an upsert. */
  function Stored(policies: Policies, p: Policy): Policy {
    if p.operation !in policies then p
    else if SameSemantics(policies[p.operation], p) then p.(mode := policies[p.operation].mode)
    else p.(mode := Detect, reason := POLICY_CHANGED)
  }

  /** Every field asked for is stored; only mode and reason are the store's own. */
  predicate AsAsked(s: Policy, p: Policy) {
    && s.operation == p.operation && s.issuer == p.issuer && s.tenant == p.tenant
    && s.roles == p.roles && s.roleMatch == p.roleMatch && s.scopes == p.scopes && s.scopeMatch == p.scopeMatch
    && s.clients == p.clients
  }

  /** The request changes nothing but mode and reason, as far as the lists show what they are. */
  predicate SameAsked(s: Policy, p: Policy) {
    && s.operation == p.operation && s.issuer == p.issuer && s.tenant == p.tenant
    && Shown(s.roles) == Shown(p.roles) && s.roleMatch == p.roleMatch
    && Shown(s.scopes) == Shown(p.scopes) && s.scopeMatch == p.scopeMatch
    && Shown(s.clients) == Shown(p.clients)
  }

  lemma StoredAsAsked(policies: Policies, p: Policy)
    requires p.operation in policies || p.mode == Detect
    ensures var s := Stored(policies, p);
      && AsAsked(s, p)
      && s.mode == if p.operation in policies && SameAsked(policies[p.operation], p) then policies[p.operation].mode else Detect
  {
    if p.operation in policies {
      var was := policies[p.operation];
      ConfusedExactly(was.roles, p.roles);
      ConfusedExactly(was.scopes, p.scopes);
      ConfusedExactly(was.clients, p.clients);
      hide JoinNul, Shown;
    }
  }

  lemma UpsertIsSound(policies: Policies, issuers: Issuers, promoted: Promotions, p: Policy)
    requires Sound(policies, issuers, promoted)
    requires p.issuer in issuers && issuers[p.issuer].enabled && (p.operation in policies || p.mode == Detect)
    ensures Sound(policies[p.operation := Stored(policies, p)], issuers, promoted)
  {
    hide SameTrust, JoinNul;
    if p.operation in policies {
      assert Lawful(policies[p.operation], issuers, promoted);
    }
    assert Lawful(Stored(policies, p), issuers, promoted);
  }

  function Promoted(policies: Policies, issuers: Issuers, promoted: Promotions, op: string, mode: Mode): Promotions
    requires op in policies && policies[op].issuer in issuers
  {
    if mode == Enforce && policies[op].mode == Detect
    then promoted[op := Promotion(policies[op], issuers[policies[op].issuer].trust)] else promoted
  }

  lemma ModeIsSound(policies: Policies, issuers: Issuers, promoted: Promotions, op: string, mode: Mode, reason: string)
    requires Sound(policies, issuers, promoted) && op in policies && policies[op].mode != mode
    ensures policies[op].issuer in issuers
    ensures Sound(policies[op := policies[op].(mode := mode, reason := reason)], issuers, Promoted(policies, issuers, promoted, op, mode))
  {
    hide JoinNul;
    var p := policies[op];
    assert Lawful(p, issuers, promoted);
    var p', promoted' := p.(mode := mode, reason := reason), Promoted(policies, issuers, promoted, op, mode);
    assert Lawful(p', issuers, promoted');
    hide SameTrust, SameSemantics;
    forall other | other in policies && other != op ensures Lawful(policies[other], issuers, promoted') {
      assert Lawful(policies[other], issuers, promoted);
    }
  }

  // ------------------------------------------------------------ runtimes

  /** An issuer's key cache; the key tells whether it is the same cache as before. */
  datatype KeyRuntime = KeyRuntime(key: nat, trust: Trust)

  type KeyRuntimes = map<string, KeyRuntime>

  datatype Entry = Entry(policy: Policy, keys: Option<KeyRuntime>)

  function KeysFor(runtimes: KeyRuntimes, issuer: string): Option<KeyRuntime> {
    if issuer in runtimes then Some(runtimes[issuer]) else None
  }

  /** One runtime for each enabled issuer, made for its present trust fields. */
  ghost predicate KeysOk(runtimes: KeyRuntimes, issuers: Issuers, next: nat) {
    && (forall i :: i in runtimes <==> i in issuers && issuers[i].enabled)
    && (forall i :: i in runtimes ==> SameTrust(runtimes[i].trust, issuers[i].trust) && runtimes[i].key < next)
  }

  ghost predicate Mirrors(entries: map<string, Entry>, policies: Policies, runtimes: KeyRuntimes) {
    && entries.Keys == policies.Keys
    && forall op :: op in policies ==> entries[op] == Entry(policies[op], KeysFor(runtimes, policies[op].issuer))
  }

  // ------------------------------------------------------------ the store

  class IdentityStore {
    var issuers: Issuers
    var policies: Policies
    var runtimes: KeyRuntimes
    var runtime: map<string, Entry>
    var nextKey: nat
    ghost var promoted: Promotions

    ghost predicate Valid() reads this {
      && Sound(policies, issuers, promoted)
      && KeysOk(runtimes, issuers, nextKey)
      && Mirrors(runtime, policies, runtimes)
    }

    constructor ()
      ensures Valid() && issuers == map[] && policies == map[]
    {
      issuers, policies, runtimes, runtime, nextKey, promoted := map[], map[], map[], map[], 0, map[];
    }

    /** Keeps the key cache of every enabled issuer whose trust fields it was made for, and makes the others anew. */
    method RebuildRuntime()
      requires forall i :: i in runtimes ==> runtimes[i].key < nextKey
      modifies this`runtimes, this`runtime, this`nextKey
      ensures KeysOk(runtimes, issuers, nextKey) && Mirrors(runtime, policies, runtimes)
      ensures forall i :: i in runtimes ==>
                if i in old(runtimes) && SameTrust(old(runtimes)[i].trust, issuers[i].trust)
                then runtimes[i] == old(runtimes)[i] else runtimes[i].key >= old(nextKey)
      ensures nextKey >= old(nextKey)
    {
      RebuildKeys();
      var left := policies.Keys;
      var entries: map<string, Entry> := map[];
      while left != {}
        invariant left <= policies.Keys && entries.Keys == policies.Keys - left
        invariant forall op :: op in entries ==> entries[op] == Entry(policies[op], KeysFor(runtimes, policies[op].issuer))
        decreases |left|
      {
        var op :| op in left;
        left := left - {op};
        entries := entries[op := Entry(policies[op], KeysFor(runtimes, policies[op].issuer))];
      }
      runtime := entries;
    }

    method RebuildKeys()
      requires forall i :: i in runtimes ==> runtimes[i].key < nextKey
      modifies this`runtimes, this`nextKey
      ensures KeysOk(runtimes, issuers, nextKey) && nextKey >= old(nextKey)
      ensures forall i :: i in runtimes ==>
                if i in old(runtimes) && SameTrust(old(runtimes)[i].trust, issuers[i].trust)
                then runtimes[i] == old(runtimes)[i] else runtimes[i].key >= old(nextKey)
    {
      hide SameTrust;
      ghost var before := runtimes;
      var active: KeyRuntimes := map[];
      var left := issuers.Keys;
      while left != {}
        invariant left <= issuers.Keys && nextKey >= old(nextKey) && runtimes == before
        invariant forall i :: i in active <==> i in issuers && i !in left && issuers[i].enabled
        invariant forall i :: i in active ==> SameTrust(active[i].trust, issuers[i].trust) && active[i].key < nextKey
        invariant forall i :: i in active ==>
                    if i in before && SameTrust(before[i].trust, issuers[i].trust) then active[i] == before[i]
                    else active[i].key >= old(nextKey)
        decreases |left|
      {
        var i :| i in left;
        left := left - {i};
        if issuers[i].enabled {
          if i in runtimes && SameTrust(runtimes[i].trust, issuers[i].trust) {
            active := active[i := runtimes[i]];
          } else {
            TrustIsReflexive(issuers[i].trust);
            active := active[i := KeyRuntime(nextKey, issuers[i].trust)];
            nextKey := nextKey + 1;
          }
        }
      }
      runtimes := active;
    }

    /**
      Stores an issuer. Policies that enforce on a changed trust go back to DETECT; an issuer some policy
      uses cannot be disabled. A key cache survives exactly when the trust fields are as before.
     */
    method UpsertIssuer(i: Issuer) returns (ok: bool)
      requires Valid()
      modifies this
      ensures Valid() && promoted == old(promoted)
      ensures ok <==> (i.enabled || forall op :: op in old(policies) ==> old(policies)[op].issuer != i.id)
      ensures !ok ==> issuers == old(issuers) && policies == old(policies) && runtimes == old(runtimes)
      ensures ok ==> issuers == old(issuers)[i.id := i]
      ensures ok && i.id in old(issuers) && !SameTrust(old(issuers)[i.id].trust, i.trust) ==> AllDemoted(old(policies), policies, i.id)
      ensures ok && !(i.id in old(issuers) && !SameTrust(old(issuers)[i.id].trust, i.trust)) ==> policies == old(policies)
      ensures policies.Keys == old(policies).Keys
      ensures ok ==> forall op :: op in policies ==>
                var p, was := policies[op], old(policies)[op];
                if was.issuer == i.id && was.mode == Enforce && i.id in old(issuers) && !SameTrust(old(issuers)[i.id].trust, i.trust)
                then p.mode == Detect && p.reason != "" && p == was.(mode := p.mode, reason := p.reason) else p == was
      ensures ok ==> forall j :: j in runtimes && j in old(runtimes) ==>
                (runtimes[j].key == old(runtimes)[j].key <==> SameTrust(old(issuers)[j].trust, issuers[j].trust))
    {
      hide SameTrust;
      if !i.enabled {
        var used := InUse(i.id);
        if used { return false; }
      }
      ghost var before, had := policies, issuers;
      var changed := i.id in issuers && !SameTrust(issuers[i.id].trust, i.trust);
      issuers := issuers[i.id := i];
      if changed {
        runtimes := runtimes - {i.id};
        Demote(i.id);
      }
      IssuerChangeIsSound(before, policies, had, promoted, i);
      ghost var cached := runtimes;
      RebuildRuntime();
      KeysSurviveExactly(old(runtimes), cached, runtimes, had, issuers, i, old(nextKey));
      return true;
    }

    method InUse(issuer: string) returns (used: bool)
      ensures used <==> exists op :: op in policies && policies[op].issuer == issuer
    {
      var left := policies.Keys;
      while left != {}
        invariant left <= policies.Keys
        invariant forall op :: op in policies && op !in left ==> policies[op].issuer != issuer
        decreases |left|
      {
        var op :| op in left;
        left := left - {op};
        if policies[op].issuer == issuer { return true; }
      }
      return false;
    }

    method Demote(issuer: string)
      modifies this`policies
      ensures AllDemoted(old(policies), policies, issuer)
    {
      ghost var before := policies;
      var left := policies.Keys;
      while left != {}
        invariant left <= before.Keys && policies.Keys == before.Keys
        invariant forall op :: op in before ==> policies[op] == if op in left then before[op] else Demoted(before[op], issuer)
        decreases |left|
      {
        var op :| op in left;
        left := left - {op};
        var p := policies[op];
        if p.issuer == issuer && p.mode == Enforce {
          policies := policies[op := p.(mode := Detect, reason := TRUST_CHANGED)];
        }
      }
    }

    /** Stores changed policies; no key cache is touched by that. */
    method Store(next: Policies)
      requires KeysOk(runtimes, issuers, nextKey) && Sound(next, issuers, promoted)
      modifies this`policies, this`runtimes, this`runtime, this`nextKey
      ensures Valid() && policies == next && runtimes == old(runtimes)
    {
      hide SameTrust, Sound;
      policies := next;
      RebuildRuntime();
      assert runtimes.Keys == old(runtimes).Keys;
    }

    /** A new policy starts in DETECT, and so does one that means something else than before. */
    method UpsertPolicy(p: Policy) returns (ok: bool)
      requires Valid()
      modifies this
      ensures Valid() && issuers == old(issuers) && promoted == old(promoted)
      ensures ok <==> p.issuer in issuers && issuers[p.issuer].enabled && (p.operation in old(policies) || p.mode == Detect)
      ensures !ok ==> policies == old(policies)
      ensures ok ==> policies == old(policies)[p.operation := Stored(old(policies), p)]
      ensures ok ==> AsAsked(policies[p.operation], p)
      ensures ok ==> policies[p.operation].mode == if p.operation in old(policies) && SameAsked(old(policies)[p.operation], p)
                                                   then old(policies)[p.operation].mode else Detect
      ensures runtimes == old(runtimes)
    {
      if p.issuer !in issuers || !issuers[p.issuer].enabled { return false; }
      if p.operation !in policies && p.mode == Enforce { return false; }
      hide SameTrust, SameSemantics, Sound, Stored, KeysOk, Mirrors;
      var stored := Merge(p);
      UpsertIsSound(policies, issuers, promoted, p);
      StoredAsAsked(policies, p);
      Store(policies[p.operation := stored]);
      return true;
    }

    /** The mode of an upsert is the stored policy's, unless the meaning differs. */
    method Merge(p: Policy) returns (stored: Policy)
      ensures stored == Stored(policies, p)
    {
      hide JoinNul;
      stored := p;
      if p.operation in policies {
        stored := p.(mode := policies[p.operation].mode);
        if !SameSemantics(policies[p.operation], stored) { stored := stored.(mode := Detect, reason := POLICY_CHANGED); }
      }
    }

    /** The only way to ENFORCE: from DETECT, by an explicit step, which is recorded. */
    method SetPolicyMode(op: string, mode: Mode, reason: string) returns (ok: bool)
      requires Valid()
      modifies this
      ensures Valid() && issuers == old(issuers)
      ensures ok <==> op in old(policies)
      ensures ok && old(policies)[op].mode != mode ==> policies == old(policies)[op := old(policies)[op].(mode := mode, reason := reason)]
      ensures !ok || old(policies)[op].mode == mode ==> policies == old(policies) && promoted == old(promoted)
      ensures ok ==> old(policies)[op].issuer in issuers && promoted == Promoted(old(policies), issuers, old(promoted), op, mode)
    {
      if op !in policies { return false; }
      var p := policies[op];
      assert Lawful(p, issuers, promoted);
      if p.mode == mode { return true; }
      hide SameTrust, Sound, KeysOk, Mirrors;
      ModeIsSound(policies, issuers, promoted, op, mode, reason);
      promoted := Promoted(policies, issuers, promoted, op, mode);
      Store(policies[op := p.(mode := mode, reason := reason)]);
      return true;
    }

    method DeletePolicy(op: string) returns (ok: bool)
      requires Valid()
      modifies this
      ensures Valid() && issuers == old(issuers)
      ensures ok <==> op in old(policies)
      ensures policies == old(policies) - {op}
    {
      hide SameTrust, SameSemantics;
      ok := op in policies;
      Store(policies - {op});
    }

    /**
      What an enforcing runtime entry stands for: the stored policy, on a key cache made for its issuer's
      present trust fields; and the policy and the trust promoted from DETECT, as far as the lists show what they
      are, which they do without NULs.
     */
    lemma EnforcesWhatWasPromoted(op: string)
      requires Valid() && op in runtime && runtime[op].policy.mode == Enforce
      ensures op in policies && runtime[op].policy == policies[op] && op in promoted && promoted[op].policy.mode == Detect
      ensures policies[op].issuer in issuers && runtime[op].keys.Some?
      ensures SameTrust(runtime[op].keys.value.trust, issuers[policies[op].issuer].trust)
      ensures ShownPolicy(policies[op]) == ShownPolicy(promoted[op].policy)
              && ShownTrust(issuers[policies[op].issuer].trust) == ShownTrust(promoted[op].trust)
      ensures CleanPolicy(policies[op]) && CleanPolicy(promoted[op].policy)
              && CleanTrust(issuers[policies[op].issuer].trust) && CleanTrust(promoted[op].trust)
              ==> policies[op].(mode := Detect, reason := "") == promoted[op].policy.(mode := Detect, reason := "")
                  && issuers[policies[op].issuer].trust == promoted[op].trust
    {
      var p, was := policies[op], promoted[op];
      var trust := issuers[p.issuer].trust;
      ComparisonsSeeExactly(p, was.policy, trust, was.trust);
      if CleanPolicy(p) && CleanPolicy(was.policy) && CleanTrust(trust) && CleanTrust(was.trust) {
        ComparisonsAreExact(p, was.policy, trust, was.trust);
      }
    }
  }

  lemma TrustIsReflexive(t: Trust)
    ensures SameTrust(t, t)
  {
  }

  lemma TrustIsTransitive(a: Trust, b: Trust, c: Trust)
    requires SameTrust(a, b)
    ensures SameTrust(b, c) <==> SameTrust(a, c)
    ensures SameTrust(c, b) <==> SameTrust(c, a)
    ensures SameTrust(b, c) <==> SameTrust(c, b)
  {
    hide JoinNul;
  }

  lemma KeysSurviveExactly(before: KeyRuntimes, cached: KeyRuntimes, after: KeyRuntimes, had: Issuers, issuers: Issuers,
                           i: Issuer, next: nat)
    requires KeysOk(before, had, next) && issuers == had[i.id := i]
    requires cached == if i.id in had && !SameTrust(had[i.id].trust, i.trust) then before - {i.id} else before
    requires forall j :: j in after <==> j in issuers && issuers[j].enabled
    requires forall j :: j in after ==>
               if j in cached && SameTrust(cached[j].trust, issuers[j].trust) then after[j] == cached[j] else after[j].key >= next
    ensures forall j :: j in after && j in before ==> (after[j].key == before[j].key <==> SameTrust(had[j].trust, issuers[j].trust))
  {
    forall j | j in after && j in before ensures after[j].key == before[j].key <==> SameTrust(had[j].trust, issuers[j].trust) {
      TrustIsTransitive(before[j].trust, had[j].trust, issuers[j].trust);
      TrustIsReflexive(issuers[j].trust);
      hide SameTrust;
    }
  }
}
