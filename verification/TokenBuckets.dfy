/**
  Per-client token buckets in bounded memory: a shard of the abuse limiter. Buckets are pruned when idle
  and share an overflow bucket when the shard is full. Times are in seconds.
 */
module TokenBuckets {
  import opened Common

  const MAX_ENTRIES := 1024
  const PRUNE_EVERY := 256
  const MIN_IDLE_TTL := 300.0

  /** A bucket's limits: capacity per window and, when positive, the most requests at a time. */
  datatype Policy = Policy(capacity: nat, windowSeconds: int, concurrent: nat, counted: bool)

  datatype Key = Key(site: string, identity: string)

  datatype Bucket = Bucket(tokens: real, lastRefill: Option<real>, lastSeen: real, active: nat)

  /** Which bucket an arrival was charged to. */
  datatype Handle = Client(key: Key) | Overflow

  datatype Shard = Shard(clients: map<Key, Bucket>, overflow: Bucket, ops: nat)

  const EMPTY_SHARD := Shard(map[], Bucket(0.0, None, 0.0, 0), 0)

  function Window(p: Policy): (w: real)
    ensures w > 0.0
  {
    if p.windowSeconds <= 0 then 1.0 else p.windowSeconds as real
  }

  function IdleTtl(p: Policy): (ttl: real)
    ensures ttl >= 2.0 * Window(p) && ttl >= MIN_IDLE_TTL
  {
    if 2.0 * Window(p) < MIN_IDLE_TTL then MIN_IDLE_TTL else 2.0 * Window(p)
  }

  function Capacity(p: Policy): real { p.capacity as real }

  function Rate(p: Policy): real { Capacity(p) / Window(p) }

  /** The tokens that come back in a time. */
  function Worth(p: Policy, elapsed: real): real { elapsed * Rate(p) }

  /** The tokens a bucket would hold if it were refilled at this time. */
  function Level(p: Policy, b: Bucket, now: real): real {
    match b.lastRefill
    case None => Capacity(p)
    case Some(last) => if now > last then Least(Capacity(p), b.tokens + Worth(p, now - last)) else b.tokens
  }

  function Refilled(p: Policy, b: Bucket, now: real): Bucket {
    b.(tokens := Level(p, b, now),
       lastRefill := if b.lastRefill.Some? && b.lastRefill.value >= now then b.lastRefill else Some(now))
  }

  function FreshBucket(p: Policy, now: real): Bucket {
    if p.capacity > 0 then Bucket(Capacity(p), Some(now), now, 0) else Bucket(0.0, None, now, 0)
  }

  /** One arrival at a bucket: its new contents and whether it was let in. */
  function Charged(p: Policy, b: Bucket, now: real): (Bucket, bool) {
    var seen := b.(lastSeen := now);
    if p.concurrent > 0 && b.active >= p.concurrent then (seen, false)
    else
      var full := if p.capacity > 0 then Refilled(p, seen, now) else seen;
      if p.capacity > 0 && full.tokens < 1.0 then (full, false)
      else (full.(tokens := if p.capacity > 0 then full.tokens - 1.0 else full.tokens,
                  active := if p.counted then full.active + 1 else full.active), true)
  }

  function Left(b: Bucket): Bucket { if b.active > 0 then b.(active := b.active - 1) else b }

  // ------------------------------------------------------------ shards

  predicate Stale(p: Policy, b: Bucket, now: real) {
    b.active == 0 && b.lastSeen < now - IdleTtl(p)
  }

  function Pruned(p: Policy, clients: map<Key, Bucket>, now: real): map<Key, Bucket> {
    map k | k in clients && !Stale(p, clients[k], now) :: clients[k]
  }

  /** The shard once an arrival has been counted and room has been made for it. */
  function Prepared(p: Policy, s: Shard, key: Key, now: real): Shard {
    var counted := s.(ops := s.ops + 1);
    var periodic := if counted.ops % PRUNE_EVERY == 0 then counted.(clients := Pruned(p, s.clients, now)) else counted;
    if key !in periodic.clients && |periodic.clients| >= MAX_ENTRIES
    then periodic.(clients := Pruned(p, periodic.clients, now)) else periodic
  }

  function Target(s: Shard, key: Key): Handle {
    if key in s.clients || |s.clients| < MAX_ENTRIES then Client(key) else Overflow
  }

  function BucketAt(p: Policy, s: Shard, h: Handle, now: real): Bucket {
    if h.Overflow? then s.overflow else if h.key in s.clients then s.clients[h.key] else FreshBucket(p, now)
  }

  function WithBucket(s: Shard, h: Handle, b: Bucket): Shard {
    if h.Overflow? then s.(overflow := b) else s.(clients := s.clients[h.key := b])
  }

  datatype Answer = Answer(shard: Shard, handle: Handle, admitted: bool)

  function Arrived(p: Policy, s: Shard, key: Key, now: real): Answer {
    var ready := Prepared(p, s, key, now);
    var h := Target(ready, key);
    var (b, ok) := Charged(p, BucketAt(p, ready, h, now), now);
    Answer(WithBucket(ready, h, b), h, ok)
  }

  function Released(s: Shard, h: Handle): Shard {
    if h.Overflow? then s.(overflow := Left(s.overflow))
    else if h.key in s.clients then s.(clients := s.clients[h.key := Left(s.clients[h.key])])
    else s
  }

  // ------------------------------------------------------------ the shard as an object

  class LimiterShard {
    const policy: Policy
    var clients: map<Key, Bucket>
    var overflow: Bucket
    var ops: nat

    function Contents(): Shard reads this { Shard(clients, overflow, ops) }

    constructor (policy: Policy)
      ensures this.policy == policy && Contents() == EMPTY_SHARD
    {
      this.policy := policy;
      clients, overflow, ops := map[], Bucket(0.0, None, 0.0, 0), 0;
    }

    method Prune(now: real)
      modifies this`clients
      ensures clients == Pruned(policy, old(clients), now)
    {
      ghost var before := clients;
      var keys := clients.Keys;
      while keys != {}
        invariant keys <= before.Keys
        invariant forall k :: k in clients <==> k in before && (k in keys || !Stale(policy, before[k], now))
        invariant forall k :: k in clients ==> clients[k] == before[k]
        decreases |keys|
      {
        var k :| k in keys;
        keys := keys - {k};
        if Stale(policy, clients[k], now) { clients := clients - {k}; }
      }
    }

    /** Takes out one stale entry, one seen longest ago, if there is any. */
    method EvictOldestIdle(now: real)
      modifies this`clients
      ensures (forall k :: k in old(clients) ==> !Stale(policy, old(clients)[k], now)) ==> clients == old(clients)
      ensures clients == old(clients) || exists k :: IsOldestStale(policy, old(clients), k, now) && clients == old(clients) - {k}
      ensures clients == old(clients) ==> forall k :: k in clients ==> !Stale(policy, clients[k], now)
    {
      var keys := clients.Keys;
      var oldest: Option<Key> := None;
      while keys != {}
        invariant keys <= clients.Keys
        invariant oldest.None? ==> forall k :: k in clients && k !in keys ==> !Stale(policy, clients[k], now)
        invariant oldest.Some? ==> oldest.value in clients && Stale(policy, clients[oldest.value], now)
        invariant oldest.Some? ==> forall k :: k in clients && k !in keys && Stale(policy, clients[k], now)
                                     ==> clients[oldest.value].lastSeen <= clients[k].lastSeen
        decreases |keys|
      {
        var k :| k in keys;
        keys := keys - {k};
        if Stale(policy, clients[k], now) && (oldest.None? || clients[k].lastSeen < clients[oldest.value].lastSeen) {
          oldest := Some(k);
        }
      }
      if oldest.Some? {
        assert IsOldestStale(policy, clients, oldest.value, now);
        clients := clients - {oldest.value};
      }
    }

    /** Makes room for an arrival: a periodic pruning, one when the shard is full, then one eviction. */
    method Prepare(key: Key, now: real)
      modifies this
      ensures Contents() == Prepared(policy, old(Contents()), key, now)
    {
      ops := ops + 1;
      if ops % PRUNE_EVERY == 0 { Prune(now); }
      if key !in clients {
        if |clients| >= MAX_ENTRIES {
          Prune(now);
          if |clients| >= MAX_ENTRIES { EvictOldestIdle(now); }
        }
      }
    }

    method Allow(key: Key, now: real) returns (handle: Handle, admitted: bool)
      requires policy.counted
      modifies this
      ensures Answer(Contents(), handle, admitted) == Arrived(policy, old(Contents()), key, now)
    {
      Prepare(key, now);
      var b;
      if key in clients {
        handle, b := Client(key), clients[key];
      } else if |clients| >= MAX_ENTRIES {
        handle, b := Overflow, overflow;
      } else {
        handle, b := Client(key), Bucket(0.0, None, now, 0);
        if policy.capacity > 0 { b := b.(tokens := Capacity(policy), lastRefill := Some(now)); }
      }
      b := b.(lastSeen := now);
      admitted := policy.concurrent == 0 || b.active < policy.concurrent;
      if admitted && policy.capacity > 0 {
        b := Refill(b, now);
        admitted := b.tokens >= 1.0;
        if admitted { b := b.(tokens := b.tokens - 1.0); }
      }
      if admitted { b := b.(active := b.active + 1); }
      Put(handle, b);
    }

    /** A TLS handshake: no limit on concurrency and nothing to release. */
    method AllowHandshake(scope: Key, now: real) returns (handle: Handle, admitted: bool)
      requires policy.capacity > 0 && policy.concurrent == 0 && !policy.counted
      modifies this
      ensures Answer(Contents(), handle, admitted) == Arrived(policy, old(Contents()), scope, now)
    {
      Prepare(scope, now);
      var b;
      if scope in clients {
        handle, b := Client(scope), clients[scope];
      } else if |clients| >= MAX_ENTRIES {
        handle, b := Overflow, overflow;
      } else {
        handle, b := Client(scope), Bucket(Capacity(policy), Some(now), now, 0);
      }
      b := b.(lastSeen := now);
      b := Refill(b, now);
      admitted := b.tokens >= 1.0;
      if admitted { b := b.(tokens := b.tokens - 1.0); }
      Put(handle, b);
    }

    method Refill(b: Bucket, now: real) returns (full: Bucket)
      ensures full == Refilled(policy, b, now)
    {
      full := b;
      if b.lastRefill.None? {
        full := b.(tokens := Capacity(policy), lastRefill := Some(now));
      } else if now > b.lastRefill.value {
        var tokens := b.tokens + (now - b.lastRefill.value) * (Capacity(policy) / Window(policy));
        if tokens > Capacity(policy) { tokens := Capacity(policy); }
        full := b.(tokens := tokens, lastRefill := Some(now));
      }
    }

    method Put(handle: Handle, b: Bucket)
      modifies this
      ensures Contents() == WithBucket(old(Contents()), handle, b)
    {
      if handle.Overflow? { overflow := b; } else { clients := clients[handle.key := b]; }
    }

    method Release(handle: Handle)
      modifies this
      ensures Contents() == Released(old(Contents()), handle)
    {
      match handle
      case Overflow => if overflow.active > 0 { overflow := overflow.(active := overflow.active - 1); }
      case Client(key) =>
        if key in clients && clients[key].active > 0 {
          clients := clients[key := clients[key].(active := clients[key].active - 1)];
        }
        assert key in clients ==> clients == clients[key := clients[key]];
    }
  }

  ghost predicate IsOldestStale(p: Policy, clients: map<Key, Bucket>, k: Key, now: real) {
    && k in clients && Stale(p, clients[k], now)
    && forall j :: j in clients && Stale(p, clients[j], now) ==> clients[k].lastSeen <= clients[j].lastSeen
  }
}
