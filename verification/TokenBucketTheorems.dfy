/** Whole runs of a limiter shard: memory, rate and concurrency bounds, and that forgetting is invisible. */
module TokenBucketTheorems {
  import opened Common
  import opened TokenBuckets

  datatype Op = Arrive(key: Key, now: real) | Finish(handle: Handle)

  /** A shard, the latest time it has seen, and the admissions not yet released. */
  datatype Sys = Sys(shard: Shard, clock: real, out: multiset<Handle>)

  function Start(now: real): Sys { Sys(EMPTY_SHARD, now, multiset{}) }

  /** The clock never goes back, and a request finishes once, after it was admitted. */
  predicate Enabled(sys: Sys, op: Op) {
    match op
    case Arrive(_, now) => now >= sys.clock
    case Finish(h) => h in sys.out
  }

  function After(p: Policy, sys: Sys, op: Op): Sys {
    match op
    case Arrive(key, now) =>
      var a := Arrived(p, sys.shard, key, now);
      Sys(a.shard, now, if a.admitted && p.counted then sys.out + multiset{a.handle} else sys.out)
    case Finish(h) => Sys(Released(sys.shard, h), sys.clock, sys.out - multiset{h})
  }

  ghost predicate Run(p: Policy, sys: Sys, ops: seq<Op>)
    decreases |ops|
  {
    ops == [] || (Enabled(sys, ops[0]) && Run(p, After(p, sys, ops[0]), ops[1..]))
  }

  function Final(p: Policy, sys: Sys, ops: seq<Op>): Sys
    decreases |ops|
  {
    if ops == [] then sys else Final(p, After(p, sys, ops[0]), ops[1..])
  }

  // ------------------------------------------------------------ the invariant

  ghost predicate BucketOk(p: Policy, b: Bucket, clock: real) {
    && 0.0 <= b.tokens <= Capacity(p)
    && (p.concurrent > 0 ==> b.active <= p.concurrent)
    && (b.lastRefill.Some? ==> p.capacity > 0 && b.lastRefill.value <= b.lastSeen && b.lastRefill.value <= clock)
  }

  ghost predicate Inv(p: Policy, sys: Sys) {
    var s := sys.shard;
    && |s.clients| <= MAX_ENTRIES
    && BucketOk(p, s.overflow, sys.clock)
    && (forall k :: k in s.clients ==> BucketOk(p, s.clients[k], sys.clock) && (p.capacity > 0 ==> s.clients[k].lastRefill.Some?))
    && (forall k :: k in s.clients ==> s.clients[k].active == sys.out[Client(k)])
    && s.overflow.active == sys.out[Overflow]
    && (forall k :: Client(k) in sys.out ==> k in s.clients)
  }

  lemma StartInv(p: Policy, now: real)
    ensures Inv(p, Start(now))
  {
  }

  lemma Distribute(a: real, b: real, r: real)
    ensures (a + b) * r == a * r + b * r
  {
  }

  lemma WorthAdds(p: Policy, a: real, b: real)
    ensures Worth(p, a + b) == Worth(p, a) + Worth(p, b)
    ensures a >= 0.0 ==> Worth(p, a) >= 0.0
  {
    Distribute(a, b, Rate(p));
    if a >= 0.0 {
      Grows(a, Rate(p));
    }
  }

  lemma ChargedOk(p: Policy, b: Bucket, clock: real, now: real)
    requires BucketOk(p, b, clock) && clock <= now
    ensures var (b', ok) := Charged(p, b, now);
      && BucketOk(p, b', now) && b'.active == b.active + (if ok && p.counted then 1 else 0)
      && (b.lastRefill.Some? ==> b'.lastRefill.Some?)
  {
    hide Worth, Rate;
    if b.lastRefill.Some? {
      WorthAdds(p, now - b.lastRefill.value, 0.0);
    }
  }

  lemma Grows(t: real, rate: real)
    requires t >= 0.0 && rate >= 0.0
    ensures t * rate >= 0.0
  {
  }

  lemma FewerEntries(p: Policy, clients: map<Key, Bucket>, now: real)
    ensures |Pruned(p, clients, now)| <= |clients|
  {
    var some := Pruned(p, clients, now);
    assert some.Keys <= clients.Keys;
    assert clients.Keys == some.Keys + (clients.Keys - some.Keys);
    assert |some| == |some.Keys| && |clients| == |clients.Keys|;
  }

  /** Making room removes stale buckets only, so never one with a request in flight. */
  lemma PreparedKeeps(p: Policy, s: Shard, key: Key, now: real)
    ensures var r := Prepared(p, s, key, now);
      && r.overflow == s.overflow && |r.clients| <= |s.clients|
      && (forall k :: k in r.clients ==> k in s.clients && r.clients[k] == s.clients[k])
      && (forall k :: k in s.clients && k !in r.clients ==> Stale(p, s.clients[k], now))
  {
    FewerEntries(p, s.clients, now);
    FewerEntries(p, Pruned(p, s.clients, now), now);
  }

  lemma PreparedInv(p: Policy, sys: Sys, key: Key, now: real)
    requires Inv(p, sys) && now >= sys.clock
    ensures Inv(p, Sys(Prepared(p, sys.shard, key, now), now, sys.out))
  {
    PreparedKeeps(p, sys.shard, key, now);
    var r := Prepared(p, sys.shard, key, now);
    forall k | Client(k) in sys.out ensures k in r.clients {
      assert sys.shard.clients[k].active > 0;
    }
  }

  /** Every step keeps the bounds and the books: entries, tokens, concurrency, requests in flight. */
  lemma StepKeepsInv(p: Policy, sys: Sys, op: Op)
    requires Inv(p, sys) && Enabled(sys, op)
    ensures Inv(p, After(p, sys, op))
  {
    match op
    case Arrive(key, now) =>
      PreparedInv(p, sys, key, now);
      var ready := Prepared(p, sys.shard, key, now);
      var h := Target(ready, key);
      ChargeInv(p, Sys(ready, now, sys.out), h, key);
    case Finish(h) =>
      ReleaseInv(p, sys, h);
  }

  lemma ChargeInv(p: Policy, sys: Sys, h: Handle, key: Key)
    requires Inv(p, sys) && h == Target(sys.shard, key)
    ensures var (b, ok) := Charged(p, BucketAt(p, sys.shard, h, sys.clock), sys.clock);
      Inv(p, Sys(WithBucket(sys.shard, h, b), sys.clock, if ok && p.counted then sys.out + multiset{h} else sys.out))
  {
    var b := BucketAt(p, sys.shard, h, sys.clock);
    ChargedOk(p, b, sys.clock, sys.clock);
    if h.Client? && h.key !in sys.shard.clients {
      assert sys.out[h] == 0;
    }
  }

  lemma ReleaseInv(p: Policy, sys: Sys, h: Handle)
    requires Inv(p, sys) && h in sys.out
    ensures Inv(p, Sys(Released(sys.shard, h), sys.clock, sys.out - multiset{h}))
  {
  }

  lemma {:induction false} RunKeepsInv(p: Policy, sys: Sys, ops: seq<Op>)
    requires Inv(p, sys) && Run(p, sys, ops)
    ensures Inv(p, Final(p, sys, ops))
    decreases |ops|
  {
    if ops != [] {
      StepKeepsInv(p, sys, ops[0]);
      RunKeepsInv(p, After(p, sys, ops[0]), ops[1..]);
    }
  }

  /** At most 1024 clients, none over the concurrency limit, and every one in flight still there. */
  ghost predicate Bounded(p: Policy, sys: Sys) {
    && |sys.shard.clients| <= MAX_ENTRIES
    && (p.concurrent > 0 ==> forall h :: h in sys.out ==> sys.out[h] <= p.concurrent)
    && (forall k :: Client(k) in sys.out ==> k in sys.shard.clients)
    && (forall k :: k in sys.shard.clients ==> sys.shard.clients[k].active == sys.out[Client(k)])
    && sys.shard.overflow.active == sys.out[Overflow]
  }

  lemma InvIsBounded(p: Policy, sys: Sys)
    requires Inv(p, sys)
    ensures Bounded(p, sys)
  {
    forall h | h in sys.out && p.concurrent > 0 ensures sys.out[h] <= p.concurrent {
      if h.Client? {
        assert h == Client(h.key);
        assert BucketOk(p, sys.shard.clients[h.key], sys.clock);
      }
    }
  }

  lemma BoundsHold(p: Policy, now: real, ops: seq<Op>)
    requires Run(p, Start(now), ops)
    ensures Bounded(p, Final(p, Start(now), ops))
  {
    hide Bounded;
    StartInv(p, now);
    RunKeepsInv(p, Start(now), ops);
    InvIsBounded(p, Final(p, Start(now), ops));
  }

  // ------------------------------------------------------------ the rate bound

  /** The tokens behind a handle at a time; a client with no bucket would start with a full one. */
  ghost function Pot(p: Policy, s: Shard, h: Handle, now: real): real {
    if h.Overflow? then Level(p, s.overflow, now)
    else if h.key in s.clients then Level(p, s.clients[h.key], now)
    else Capacity(p)
  }

  lemma LevelBounds(p: Policy, b: Bucket, clock: real, now: real)
    requires BucketOk(p, b, clock) && clock <= now
    ensures 0.0 <= Level(p, b, now) <= Capacity(p)
    ensures Level(p, b, now) <= Level(p, b, clock) + Worth(p, now - clock)
  {
    hide Worth, Rate;
    WorthAdds(p, now - clock, 0.0);
    if b.lastRefill.Some? {
      WorthAdds(p, clock - b.lastRefill.value, now - clock);
    }
  }

  /** A bucket idle for the whole time to live has filled up again. */
  lemma StaleIsFull(p: Policy, b: Bucket, clock: real, now: real)
    requires BucketOk(p, b, clock) && Stale(p, b, now)
    ensures Level(p, b, now) == Capacity(p) || p.capacity == 0
  {
    if p.capacity > 0 && b.lastRefill.Some? {
      var w := Window(p);
      var t := now - b.lastRefill.value;
      assert t > 2.0 * w;
      TwoWindows(t, w, Capacity(p));
    }
  }

  lemma TwoWindows(t: real, w: real, cap: real)
    requires w > 0.0 && cap > 0.0 && t >= w
    ensures t * (cap / w) >= cap
  {
    var rate := cap / w;
    assert rate * w == cap;
    assert rate > 0.0;
    assert (t - w) * rate >= 0.0;
    assert t * rate == w * rate + (t - w) * rate;
  }

  lemma PreparedKeepsPot(p: Policy, sys: Sys, key: Key, now: real, h: Handle)
    requires Inv(p, sys) && p.capacity > 0 && now >= sys.clock
    ensures Pot(p, Prepared(p, sys.shard, key, now), h, now) == Pot(p, sys.shard, h, now)
  {
    PreparedKeeps(p, sys.shard, key, now);
    if h.Client? && h.key in sys.shard.clients && Stale(p, sys.shard.clients[h.key], now) {
      StaleIsFull(p, sys.shard.clients[h.key], sys.clock, now);
    }
  }

  /** Being let in costs exactly one token; being refused costs none. */
  lemma ChargeCosts(p: Policy, b: Bucket, clock: real, now: real)
    requires BucketOk(p, b, clock) && clock <= now && p.capacity > 0
    ensures var (b', ok) := Charged(p, b, now);
      Level(p, b', now) == Level(p, b, now) - (if ok then 1.0 else 0.0)
  {
  }

  predicate AdmitsAt(p: Policy, sys: Sys, op: Op, h: Handle) {
    op.Arrive? && var a := Arrived(p, sys.shard, op.key, op.now); a.admitted && a.handle == h
  }

  lemma PotGrows(p: Policy, sys: Sys, h: Handle, now: real)
    requires Inv(p, sys) && now >= sys.clock
    ensures Pot(p, sys.shard, h, now) <= Pot(p, sys.shard, h, sys.clock) + Worth(p, now - sys.clock)
  {
    hide Worth, Rate, Level;
    WorthAdds(p, now - sys.clock, 0.0);
    if h.Overflow? {
      LevelBounds(p, sys.shard.overflow, sys.clock, now);
    } else if h.key in sys.shard.clients {
      LevelBounds(p, sys.shard.clients[h.key], sys.clock, now);
    }
  }

  lemma ArrivalPot(p: Policy, sys: Sys, key: Key, now: real, h: Handle)
    requires Inv(p, sys) && now >= sys.clock && p.capacity > 0
    ensures var a := Arrived(p, sys.shard, key, now);
      Pot(p, a.shard, h, now) == Pot(p, sys.shard, h, now) - (if a.admitted && a.handle == h then 1.0 else 0.0)
  {
    hide Rate, IdleTtl, Window;
    PreparedKeepsPot(p, sys, key, now, h);
    PreparedInv(p, sys, key, now);
    var ready := Prepared(p, sys.shard, key, now);
    hide Prepared;
    var target := Target(ready, key);
    var b := BucketAt(p, ready, target, now);
    ChargeCosts(p, b, now, now);
    assert Level(p, b, now) == Pot(p, ready, target, now);
    hide Level, Charged, Inv, BucketOk;
  }

  /** A step fills a pot at the rate, and takes one token from it when it lets the handle in. */
  lemma StepPot(p: Policy, sys: Sys, op: Op, h: Handle)
    requires Inv(p, sys) && Enabled(sys, op) && p.capacity > 0
    ensures var next := After(p, sys, op);
      Pot(p, next.shard, h, next.clock)
      <= Pot(p, sys.shard, h, sys.clock) + Worth(p, next.clock - sys.clock) - (if AdmitsAt(p, sys, op, h) then 1.0 else 0.0)
  {
    hide Inv, Worth, Arrived, Pot;
    match op
    case Arrive(key, now) =>
      ArrivalPot(p, sys, key, now, h);
      PotGrows(p, sys, h, now);
    case Finish(other) =>
      PotGrows(p, sys, h, sys.clock);
      ReleasePot(p, sys.shard, other, h, sys.clock);
  }

  lemma ReleasePot(p: Policy, s: Shard, other: Handle, h: Handle, now: real)
    ensures Pot(p, Released(s, other), h, now) == Pot(p, s, h, now)
  {
  }

  lemma PotBounds(p: Policy, sys: Sys, h: Handle)
    requires Inv(p, sys)
    ensures 0.0 <= Pot(p, sys.shard, h, sys.clock) <= Capacity(p)
  {
    if h.Overflow? {
      LevelBounds(p, sys.shard.overflow, sys.clock, sys.clock);
    } else if h.key in sys.shard.clients {
      LevelBounds(p, sys.shard.clients[h.key], sys.clock, sys.clock);
    }
  }

  predicate Between(op: Op, t1: real, t2: real) { op.Arrive? && t1 <= op.now <= t2 }

  /** How many arrivals from t1 to t2 this handle let in. */
  function AdmissionsWithin(p: Policy, sys: Sys, ops: seq<Op>, h: Handle, t1: real, t2: real): nat
    decreases |ops|
  {
    if ops == [] then 0
    else (if Between(ops[0], t1, t2) && AdmitsAt(p, sys, ops[0], h) then 1 else 0)
         + AdmissionsWithin(p, After(p, sys, ops[0]), ops[1..], h, t1, t2)
  }

  lemma {:induction false} NoneAfterwards(p: Policy, sys: Sys, ops: seq<Op>, h: Handle, t1: real, t2: real)
    requires Run(p, sys, ops) && sys.clock > t2
    ensures AdmissionsWithin(p, sys, ops, h, t1, t2) == 0
    decreases |ops|
  {
    hide AdmitsAt;
    if ops != [] {
      NoneAfterwards(p, After(p, sys, ops[0]), ops[1..], h, t1, t2);
    }
  }

  /** Once the interval has begun, what is let in comes out of the pot and of what flows into it until the end. */
  lemma {:induction false} AdmittedFromThePot(p: Policy, sys: Sys, ops: seq<Op>, h: Handle, t1: real, t2: real)
    requires Inv(p, sys) && Run(p, sys, ops) && p.capacity > 0 && t1 <= sys.clock <= t2
    ensures AdmissionsWithin(p, sys, ops, h, t1, t2) as real <= Pot(p, sys.shard, h, sys.clock) + Worth(p, t2 - sys.clock)
    decreases |ops|
  {
    hide Inv, Pot, AdmitsAt, After, Worth, Capacity;
    PotBounds(p, sys, h);
    WorthAdds(p, t2 - sys.clock, 0.0);
    if ops != [] {
      var next := After(p, sys, ops[0]);
      StepKeepsInv(p, sys, ops[0]);
      ClockMoves(p, sys, ops[0]);
      if next.clock > t2 {
        NoneAfterwards(p, next, ops[1..], h, t1, t2);
      } else {
        StepPot(p, sys, ops[0], h);
        AdmittedFromThePot(p, next, ops[1..], h, t1, t2);
        WorthAdds(p, next.clock - sys.clock, t2 - next.clock);
      }
    }
  }

  lemma ClockMoves(p: Policy, sys: Sys, op: Op)
    requires Enabled(sys, op)
    ensures After(p, sys, op).clock == if op.Arrive? then op.now else sys.clock
  {
  }

  lemma InvLater(p: Policy, sys: Sys, t: real)
    requires Inv(p, sys) && t >= sys.clock
    ensures Inv(p, sys.(clock := t))
  {
  }

  lemma {:induction false} AdmittedWithin(p: Policy, sys: Sys, ops: seq<Op>, h: Handle, t1: real, t2: real)
    requires Inv(p, sys) && Run(p, sys, ops) && p.capacity > 0 && t1 <= t2
    ensures AdmissionsWithin(p, sys, ops, h, t1, t2) as real <= Capacity(p) + Worth(p, t2 - t1)
    decreases |ops|
  {
    hide Inv, Pot, AdmitsAt, Worth, Capacity, Arrived;
    CapacityIsPositive(p);
    WorthAdds(p, t2 - t1, 0.0);
    if sys.clock > t2 {
      NoneAfterwards(p, sys, ops, h, t1, t2);
    } else if sys.clock >= t1 {
      AdmittedFromThePot(p, sys, ops, h, t1, t2);
      PotBounds(p, sys, h);
      WorthAdds(p, sys.clock - t1, t2 - sys.clock);
    } else if ops != [] {
      if ops[0].Arrive? && ops[0].now >= t1 {
        var waited := sys.(clock := t1);
        InvLater(p, sys, t1);
        SameFromHere(p, sys, ops, h, t1, t2);
        AdmittedFromThePot(p, waited, ops, h, t1, t2);
        PotBounds(p, waited, h);
      } else {
        StepKeepsInv(p, sys, ops[0]);
        AdmittedWithin(p, After(p, sys, ops[0]), ops[1..], h, t1, t2);
      }
    }
  }

  lemma CapacityIsPositive(p: Policy)
    ensures Capacity(p) >= 0.0
  {
  }

  /** Waiting before an arrival changes nothing that the run then does. */
  lemma SameFromHere(p: Policy, sys: Sys, ops: seq<Op>, h: Handle, t1: real, t2: real)
    requires Run(p, sys, ops) && ops != [] && ops[0].Arrive? && ops[0].now >= t1
    ensures Run(p, sys.(clock := t1), ops)
    ensures AdmissionsWithin(p, sys.(clock := t1), ops, h, t1, t2) == AdmissionsWithin(p, sys, ops, h, t1, t2)
  {
    hide Arrived;
    assert After(p, sys.(clock := t1), ops[0]) == After(p, sys, ops[0]);
  }

  /**
    In every run and for any t1 and t2, however quiet it was before and however often its bucket was
    forgotten, a client is let in from t1 to t2 at most capacity + (t2 - t1) * capacity / window times;
    so is the shared overflow.
   */
  lemma RateIsBounded(p: Policy, now: real, ops: seq<Op>, h: Handle, t1: real, t2: real)
    requires p.capacity > 0 && Run(p, Start(now), ops) && t1 <= t2
    ensures AdmissionsWithin(p, Start(now), ops, h, t1, t2) as real <= Capacity(p) + (t2 - t1) * (Capacity(p) / Window(p))
  {
    hide Inv, Capacity, AdmissionsWithin, Run, Window;
    StartInv(p, now);
    AdmittedWithin(p, Start(now), ops, h, t1, t2);
  }

  // ------------------------------------------------------------ nobody is refused without cause

  /** A pot fills at the rate until it is full. */
  lemma PotFills(p: Policy, sys: Sys, h: Handle, now: real)
    requires Inv(p, sys) && now >= sys.clock && p.capacity > 0
    ensures Pot(p, sys.shard, h, now) >= Least(Capacity(p), Pot(p, sys.shard, h, sys.clock) + Worth(p, now - sys.clock))
  {
    hide Worth, Rate, Level;
    WorthAdds(p, now - sys.clock, 0.0);
    if h.Overflow? {
      LevelFills(p, sys.shard.overflow, sys.clock, now);
    } else if h.key in sys.shard.clients {
      LevelFills(p, sys.shard.clients[h.key], sys.clock, now);
    }
  }

  lemma LevelFills(p: Policy, b: Bucket, clock: real, now: real)
    requires BucketOk(p, b, clock) && clock <= now
    ensures Level(p, b, now) >= Least(Capacity(p), Level(p, b, clock) + Worth(p, now - clock))
  {
    hide Worth, Rate;
    WorthAdds(p, now - clock, 0.0);
    if b.lastRefill.Some? {
      WorthAdds(p, clock - b.lastRefill.value, now - clock);
      WorthAdds(p, 0.0, 0.0);
    }
  }

  /** A step lets the pot fill, and takes a token only by letting the handle in. */
  lemma StepFills(p: Policy, sys: Sys, op: Op, h: Handle)
    requires Inv(p, sys) && Enabled(sys, op) && p.capacity > 0
    ensures var next := After(p, sys, op);
      Pot(p, next.shard, h, next.clock)
      >= Least(Capacity(p), Pot(p, sys.shard, h, sys.clock) + Worth(p, next.clock - sys.clock)) - (if AdmitsAt(p, sys, op, h) then 1.0 else 0.0)
  {
    hide Inv, Worth, Arrived, Pot, Capacity;
    match op
    case Arrive(key, now) =>
      ArrivalPot(p, sys, key, now, h);
      PotFills(p, sys, h, now);
    case Finish(other) =>
      PotFills(p, sys, h, sys.clock);
      ReleasePot(p, sys.shard, other, h, sys.clock);
  }

  lemma {:induction false} MoreInLonger(p: Policy, sys: Sys, ops: seq<Op>, h: Handle, t1: real, t1': real, t2: real, t2': real)
    requires t1 <= t1' && t2' <= t2
    ensures AdmissionsWithin(p, sys, ops, h, t1', t2') <= AdmissionsWithin(p, sys, ops, h, t1, t2)
    decreases |ops|
  {
    hide AdmitsAt, After;
    if ops != [] {
      MoreInLonger(p, After(p, sys, ops[0]), ops[1..], h, t1, t1', t2, t2');
    }
  }

  /**
    At the end of a run a pot holds what flowed into it and was not taken since it was last full, or since the
    beginning if it never was.
   */
  lemma {:induction false} SinceFull(p: Policy, sys: Sys, ops: seq<Op>, h: Handle) returns (full: bool, t1: real)
    requires Inv(p, sys) && Run(p, sys, ops) && p.capacity > 0
    ensures var end := Final(p, sys, ops);
      && sys.clock <= t1 <= end.clock && (full || t1 == sys.clock)
      && Pot(p, end.shard, h, end.clock)
         >= (if full then Capacity(p) else Pot(p, sys.shard, h, sys.clock))
            + Worth(p, end.clock - t1) - AdmissionsWithin(p, sys, ops, h, t1, end.clock) as real
    decreases |ops|
  {
    hide Inv, Pot, AdmitsAt, After, Worth, Capacity;
    WorthAdds(p, 0.0, 0.0);
    full, t1 := false, sys.clock;
    if ops != [] {
      var next, end := After(p, sys, ops[0]), Final(p, sys, ops);
      StepKeepsInv(p, sys, ops[0]);
      ClockMoves(p, sys, ops[0]);
      StepFills(p, sys, ops[0], h);
      OnlyArrivalsAreAdmitted(p, sys, ops[0], h);
      full, t1 := SinceFull(p, next, ops[1..], h);
      if !full {
        WorthAdds(p, next.clock - sys.clock, end.clock - next.clock);
        MoreInLonger(p, next, ops[1..], h, sys.clock, next.clock, end.clock, end.clock);
        full := Pot(p, sys.shard, h, sys.clock) + Worth(p, next.clock - sys.clock) >= Capacity(p);
        t1 := if full then next.clock else sys.clock;
      }
    }
  }

  lemma OnlyArrivalsAreAdmitted(p: Policy, sys: Sys, op: Op, h: Handle)
    ensures AdmitsAt(p, sys, op, h) ==> op.Arrive?
  {
  }

  lemma {:induction false} OneMore(p: Policy, sys: Sys, ops: seq<Op>, op: Op, h: Handle, t1: real)
    requires Run(p, sys, ops) && Enabled(Final(p, sys, ops), op) && op.Arrive?
    ensures Run(p, sys, ops + [op]) && Final(p, sys, ops).clock >= sys.clock
    ensures t1 <= op.now ==>
      AdmissionsWithin(p, sys, ops + [op], h, t1, op.now)
      == AdmissionsWithin(p, sys, ops, h, t1, op.now) + (if AdmitsAt(p, Final(p, sys, ops), op, h) then 1 else 0)
    decreases |ops|
  {
    hide AdmitsAt, After;
    if ops == [] {
      assert ops + [op] == [op] && [op][1..] == [];
    } else {
      ClockMoves(p, sys, ops[0]);
      assert (ops + [op])[0] == ops[0] && (ops + [op])[1..] == ops[1..] + [op];
      OneMore(p, After(p, sys, ops[0]), ops[1..], op, h, t1);
    }
  }

  /** The handle could take one more at a time. */
  predicate HasRoom(p: Policy, sys: Sys, h: Handle) { p.concurrent == 0 || sys.out[h] < p.concurrent }

  /** An arrival is let in when there is room and a token for it, and only then. */
  lemma LetInExactly(p: Policy, sys: Sys, key: Key, now: real)
    requires Inv(p, sys) && now >= sys.clock && p.capacity > 0
    ensures var a := Arrived(p, sys.shard, key, now);
      a.admitted <==> HasRoom(p, sys, a.handle) && Pot(p, sys.shard, a.handle, now) >= 1.0
  {
    hide Rate, IdleTtl, Window;
    var a := Arrived(p, sys.shard, key, now);
    PreparedKeepsPot(p, sys, key, now, a.handle);
    PreparedInv(p, sys, key, now);
    hide Prepared, Worth;
  }

  /**
    Who is let in, exactly. In every run an arrival is let in if and only if its handle has room for one more at a
    time and, for every t1, was let in since t1 at most capacity - 1 + (now - t1) * capacity / window times. So
    whoever is refused was let in too often since some t1.
   */
  lemma LetInIffWithinTheRate(p: Policy, start: real, ops: seq<Op>, key: Key, now: real)
    requires p.capacity > 0 && Run(p, Start(start), ops) && now >= Final(p, Start(start), ops).clock
    ensures var sys := Final(p, Start(start), ops);
      var a := Arrived(p, sys.shard, key, now);
      a.admitted <==>
        && (p.concurrent == 0 || sys.out[a.handle] < p.concurrent)
        && forall t1 :: t1 <= now ==>
             AdmissionsWithin(p, Start(start), ops, a.handle, t1, now) as real
             <= Capacity(p) - 1.0 + (now - t1) * (Capacity(p) / Window(p))
  {
    var sys := Final(p, Start(start), ops);
    var h := Arrived(p, sys.shard, key, now).handle;
    hide Inv, Pot, Capacity, AdmissionsWithin, Run, Window, Arrived, Final;
    StartInv(p, start);
    RunKeepsInv(p, Start(start), ops);
    LetInExactly(p, sys, key, now);
    if Arrived(p, sys.shard, key, now).admitted {
      forall t1 | t1 <= now
        ensures AdmissionsWithin(p, Start(start), ops, h, t1, now) as real <= Capacity(p) - 1.0 + (now - t1) * (Capacity(p) / Window(p))
      {
        OneMore(p, Start(start), ops, Arrive(key, now), h, t1);
        RateIsBounded(p, start, ops + [Arrive(key, now)], h, t1, now);
      }
    } else if HasRoom(p, sys, h) {
      StartsFull(p, start, h);
      var t1 := RefusedForCause(p, Start(start), ops, h, now);
    }
  }

  lemma RefusedForCause(p: Policy, sys: Sys, ops: seq<Op>, h: Handle, now: real) returns (t1: real)
    requires Inv(p, sys) && Run(p, sys, ops) && p.capacity > 0 && Pot(p, sys.shard, h, sys.clock) == Capacity(p) >= 1.0
    requires var end := Final(p, sys, ops); end.clock <= now && Pot(p, end.shard, h, now) < 1.0
    ensures t1 <= now
    ensures AdmissionsWithin(p, sys, ops, h, t1, now) as real > Capacity(p) - 1.0 + Worth(p, now - t1)
  {
    hide Inv, Pot, Capacity, AdmissionsWithin, Run, Worth, Final;
    var end := Final(p, sys, ops);
    RunKeepsInv(p, sys, ops);
    var full;
    full, t1 := SinceFull(p, sys, ops, h);
    PotFills(p, end, h, now);
    WorthAdds(p, end.clock - t1, now - end.clock);
    assert end.clock - t1 + (now - end.clock) == now - t1;
    MoreInLonger(p, sys, ops, h, t1, t1, now, end.clock);
  }

  lemma StartsFull(p: Policy, start: real, h: Handle)
    requires p.capacity > 0
    ensures Pot(p, Start(start).shard, h, Start(start).clock) == Capacity(p) >= 1.0
  {
  }

  /** Whoever was let in fewer than capacity times so far is let in again. */
  lemma NewcomersAreLetIn(p: Policy, start: real, ops: seq<Op>, key: Key, now: real)
    requires p.capacity > 0 && Run(p, Start(start), ops) && now >= Final(p, Start(start), ops).clock
    requires var sys := Final(p, Start(start), ops);
      var h := Arrived(p, sys.shard, key, now).handle;
      && HasRoom(p, sys, h)
      && forall t1 :: AdmissionsWithin(p, Start(start), ops, h, t1, now) < p.capacity
    ensures Arrived(p, Final(p, Start(start), ops).shard, key, now).admitted
  {
    hide Inv, Pot, AdmissionsWithin, Run, Window, Arrived, Final;
    StartInv(p, start);
    RunKeepsInv(p, Start(start), ops);
    var sys := Final(p, Start(start), ops);
    LetInExactly(p, sys, key, now);
    var h := Arrived(p, sys.shard, key, now).handle;
    if Pot(p, sys.shard, h, now) < 1.0 {
      StartsFull(p, start, h);
      var t1 := RefusedForCause(p, Start(start), ops, h, now);
      WorthAdds(p, now - t1, 0.0);
    }
  }

  /** Without a rate, room for one more at a time is all it takes. */
  lemma WithoutARate(p: Policy, start: real, ops: seq<Op>, key: Key, now: real)
    requires p.capacity == 0 && Run(p, Start(start), ops) && now >= Final(p, Start(start), ops).clock
    ensures var sys := Final(p, Start(start), ops);
      var a := Arrived(p, sys.shard, key, now);
      a.admitted <==> (p.concurrent == 0 || sys.out[a.handle] < p.concurrent)
  {
    hide Run, Final;
    StartInv(p, start);
    RunKeepsInv(p, Start(start), ops);
    PreparedInv(p, Final(p, Start(start), ops), key, now);
    hide Prepared;
  }

  /** The buckets an arrival must not forget: in use, or seen within the time to live. */
  function Live(p: Policy, clients: map<Key, Bucket>, now: real): set<Key> {
    set k | k in clients && (clients[k].active > 0 || clients[k].lastSeen >= now - IdleTtl(p))
  }

  /** Only a newcomer to a shard full of live buckets is charged to the overflow bucket. */
  lemma OverflowExactly(p: Policy, s: Shard, key: Key, now: real)
    requires |s.clients| <= MAX_ENTRIES
    ensures Arrived(p, s, key, now).handle ==
      if key !in s.clients && |Live(p, s.clients, now)| == 1024 then Overflow else Client(key)
  {
    var all, some := s.clients, Pruned(p, s.clients, now);
    assert some.Keys == Live(p, all, now) && |some| == |some.Keys| && |all| == |all.Keys|;
    assert Pruned(p, some, now) == some;
    Fewer(some.Keys, all.Keys);
    if key in all && key !in some {
      assert key !in some.Keys && some.Keys <= all.Keys - {key};
      Fewer(some.Keys, all.Keys - {key});
    }
    hide IdleTtl, Stale, Pruned, Live;
  }

  // ------------------------------------------------------------ forgetting is invisible

  /** The same limiter with a bucket for every client for ever. */
  function Remembered(p: Policy, all: map<Key, Bucket>, key: Key, now: real): (Bucket, bool) {
    Charged(p, if key in all then all[key] else FreshBucket(p, now), now)
  }

  function RememberedAfter(p: Policy, all: map<Key, Bucket>, op: Op): map<Key, Bucket> {
    match op
    case Arrive(key, now) => all[key := Remembered(p, all, key, now).0]
    case Finish(h) => if h.Client? && h.key in all then all[h.key := Left(all[h.key])] else all
  }

  function RememberedDecisions(p: Policy, all: map<Key, Bucket>, ops: seq<Op>): seq<bool>
    decreases |ops|
  {
    if ops == [] then []
    else (if ops[0].Arrive? then [Remembered(p, all, ops[0].key, ops[0].now).1] else [])
         + RememberedDecisions(p, RememberedAfter(p, all, ops[0]), ops[1..])
  }

  function Decisions(p: Policy, sys: Sys, ops: seq<Op>): seq<bool>
    decreases |ops|
  {
    if ops == [] then []
    else (if ops[0].Arrive? then [Arrived(p, sys.shard, ops[0].key, ops[0].now).admitted] else [])
         + Decisions(p, After(p, sys, ops[0]), ops[1..])
  }

  /** No arrival of the run is charged to the overflow bucket. */
  ghost predicate NeverOverflows(p: Policy, sys: Sys, ops: seq<Op>)
    decreases |ops|
  {
    ops != [] ==>
    && (ops[0].Arrive? ==> Arrived(p, sys.shard, ops[0].key, ops[0].now).handle.Client?)
    && NeverOverflows(p, After(p, sys, ops[0]), ops[1..])
  }

  /** The shard has what the remembering limiter has, but for buckets that are idle and full again. */
  ghost predicate Agrees(p: Policy, sys: Sys, all: map<Key, Bucket>) {
    && sys.shard.clients.Keys <= all.Keys
    && (forall k :: k in sys.shard.clients ==> sys.shard.clients[k] == all[k])
    && (forall k :: k in all && k !in sys.shard.clients ==> Forgettable(p, all[k], sys.clock))
  }

  ghost predicate Forgettable(p: Policy, b: Bucket, clock: real) {
    && b.active == 0 && BucketOk(p, b, clock) && (p.capacity > 0 ==> b.lastRefill.Some?)
    && Level(p, b, clock) == Capacity(p)
  }

  /** A forgotten bucket and a fresh one answer alike and are the same afterwards. */
  lemma FreshAnswersAlike(p: Policy, b: Bucket, clock: real, now: real)
    requires Forgettable(p, b, clock) && clock <= now
    ensures Charged(p, b, now) == Charged(p, FreshBucket(p, now), now)
    ensures Forgettable(p, b, now)
  {
    StaysFull(p, b, clock, now);
    assert p.capacity == 0 ==> b.tokens == 0.0;
  }

  lemma LevelGrows(p: Policy, b: Bucket, clock: real, now: real)
    requires BucketOk(p, b, clock) && clock <= now
    ensures Level(p, b, clock) <= Level(p, b, now) <= Capacity(p)
  {
    hide Worth, Rate;
    WorthAdds(p, now - clock, 0.0);
    if b.lastRefill.Some? {
      WorthAdds(p, clock - b.lastRefill.value, now - clock);
    }
  }

  lemma StaysFull(p: Policy, b: Bucket, clock: real, now: real)
    requires Forgettable(p, b, clock) && clock <= now
    ensures Level(p, b, now) == Capacity(p)
  {
    LevelGrows(p, b, clock, now);
  }

  lemma PreparedAgrees(p: Policy, sys: Sys, all: map<Key, Bucket>, key: Key, now: real)
    requires Inv(p, sys) && Agrees(p, sys, all) && now >= sys.clock
    ensures Agrees(p, Sys(Prepared(p, sys.shard, key, now), now, sys.out), all)
  {
    PreparedKeeps(p, sys.shard, key, now);
    var r := Prepared(p, sys.shard, key, now);
    forall k | k in all && k !in r.clients ensures Forgettable(p, all[k], now) {
      if k in sys.shard.clients {
        StaleIsFull(p, all[k], sys.clock, now);
      } else {
        FreshAnswersAlike(p, all[k], sys.clock, now);
      }
    }
  }

  lemma ArrivalAgrees(p: Policy, sys: Sys, all: map<Key, Bucket>, key: Key, now: real)
    requires Inv(p, sys) && Agrees(p, sys, all) && now >= sys.clock
    requires Arrived(p, sys.shard, key, now).handle.Client?
    ensures Arrived(p, sys.shard, key, now).admitted == Remembered(p, all, key, now).1
    ensures Agrees(p, After(p, sys, Arrive(key, now)), RememberedAfter(p, all, Arrive(key, now)))
  {
    PreparedAgrees(p, sys, all, key, now);
    var ready := Prepared(p, sys.shard, key, now);
    if key in all && key !in ready.clients {
      FreshAnswersAlike(p, all[key], now, now);
    }
  }

  /**
    On every run in which no client is sent to the overflow bucket, the shard that prunes decides like the
    one that never forgets.
   */
  lemma {:induction false} ForgettingIsInvisible(p: Policy, sys: Sys, all: map<Key, Bucket>, ops: seq<Op>)
    requires Inv(p, sys) && Agrees(p, sys, all)
    requires Run(p, sys, ops) && NeverOverflows(p, sys, ops)
    ensures Decisions(p, sys, ops) == RememberedDecisions(p, all, ops)
    decreases |ops|
  {
    if ops != [] {
      StepKeepsInv(p, sys, ops[0]);
      match ops[0] {
        case Arrive(key, now) => ArrivalAgrees(p, sys, all, key, now);
        case Finish(h) => FinishAgrees(p, sys, all, h);
      }
      ForgettingIsInvisible(p, After(p, sys, ops[0]), RememberedAfter(p, all, ops[0]), ops[1..]);
    }
  }

  lemma FinishAgrees(p: Policy, sys: Sys, all: map<Key, Bucket>, h: Handle)
    requires Inv(p, sys) && Agrees(p, sys, all) && h in sys.out
    ensures Agrees(p, After(p, sys, Finish(h)), RememberedAfter(p, all, Finish(h)))
  {
  }

  /** From an empty shard. */
  lemma ForgettingIsInvisibleFromTheStart(p: Policy, now: real, ops: seq<Op>)
    requires Run(p, Start(now), ops) && NeverOverflows(p, Start(now), ops)
    ensures Decisions(p, Start(now), ops) == RememberedDecisions(p, map[], ops)
  {
    StartInv(p, now);
    ForgettingIsInvisible(p, Start(now), map[], ops);
  }

  // ------------------------------------------------------------ eviction

  /** Right after a pruning there is nothing left to evict, so the eviction that follows does nothing. */
  lemma NothingLeftToEvict(p: Policy, clients: map<Key, Bucket>, now: real)
    ensures !exists k :: IsOldestStale(p, Pruned(p, clients, now), k, now)
    ensures Pruned(p, Pruned(p, clients, now), now) == Pruned(p, clients, now)
  {
  }
}
