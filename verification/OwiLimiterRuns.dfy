/** Whole runs of the connector's request limiter: who is admitted, exactly, and what is told to the others. */
module OwiLimiterRuns {
  import opened Common
  import opened OwiLimiter

  datatype Op = Ask(key: string, now: real, verdict: Verdict, handle: nat) | Done(handle: nat)

  ghost predicate Step(l: Limits, v: View, op: Op, v': View)
    requires l.Valid()
  {
    match op
    case Ask(key, now, verdict, handle) => Asked(l, v, v', key, now, verdict, handle)
    case Done(handle) => Freed(v, v', handle)
  }

  ghost predicate Run(l: Limits, vs: seq<View>, ops: seq<Op>)
    requires l.Valid()
  {
    && |vs| == |ops| + 1 && vs[0] == View(map[], 0, map[])
    && (forall i :: 0 <= i < |ops| ==> Step(l, vs[i], ops[i], vs[i + 1]))
    && (forall i :: 0 <= i < |ops| && ops[i].Ask? ==> Until(ops[..i], ops[i].now))
  }

  /** Nothing was asked after this time. */
  predicate Until(ops: seq<Op>, t: real) { forall i :: 0 <= i < |ops| && ops[i].Ask? ==> ops[i].now <= t }

  predicate AdmitsWithin(op: Op, key: string, t1: real, t2: real) {
    op.Ask? && op.key == key && op.verdict.Admitted? && t1 <= op.now <= t2
  }

  /** How often a principal was admitted from t1 to t2. */
  function Admissions(ops: seq<Op>, key: string, t1: real, t2: real): nat {
    if ops == [] then 0
    else Admissions(ops[..|ops| - 1], key, t1, t2) + if AdmitsWithin(ops[|ops| - 1], key, t1, t2) then 1 else 0
  }

  lemma {:induction false} NoneSince(ops: seq<Op>, key: string, t: real, t1: real, t2: real)
    requires Until(ops, t) && t < t1
    ensures Admissions(ops, key, t1, t2) == 0
  {
    if ops != [] {
      NoneSince(ops[..|ops| - 1], key, t, t1, t2);
    }
  }

  lemma {:induction false} NoneLater(ops: seq<Op>, key: string, t: real, t1: real, t2: real)
    requires Until(ops, t) && t <= t2
    ensures Admissions(ops, key, t1, t2) == Admissions(ops, key, t1, t)
  {
    if ops != [] {
      NoneLater(ops[..|ops| - 1], key, t, t1, t2);
    }
  }

  /** The tokens a principal has at a time. */
  function Pot(l: Limits, v: View, key: string, now: real): real { Refilled(l, StateOf(l, v.states, key, now), now).tokens }

  ghost predicate PotOk(l: Limits, v: View, key: string, clock: real) {
    key in v.states ==> 0.0 <= v.states[key].tokens <= l.burst && v.states[key].last <= clock
  }

  /** The pot is what has flowed in since some time when it was full, less what was taken; and no more since any other time. */
  ghost predicate PotIs(l: Limits, pot: real, ops: seq<Op>, key: string, full: real, now: real) {
    && full <= now && pot <= l.burst
    && pot >= l.burst + Earned(l, now - full) - Admissions(ops, key, full, now) as real
    && forall t1 :: t1 <= now ==> pot <= l.burst + Earned(l, now - t1) - Admissions(ops, key, t1, now) as real
  }

  lemma EarnedAdds(l: Limits, a: real, b: real)
    requires l.Valid()
    ensures Earned(l, a + b) == Earned(l, a) + Earned(l, b) && Earned(l, 0.0) == 0.0
    ensures a >= 0.0 ==> Earned(l, a) >= 0.0
    ensures b >= 0.0 ==> Earned(l, b) >= 0.0
  {
    EarnedNothing(l);
    if a >= 0.0 { EarnedGrows(l, 0.0, a); }
    if b >= 0.0 { EarnedGrows(l, 0.0, b); }
    assert (a + b) * l.rate == a * l.rate + b * l.rate;
  }

  /** Time passes. */
  lemma PotLater(l: Limits, pot: real, ops: seq<Op>, key: string, full: real, now: real, later: real) returns (full': real)
    requires l.Valid() && PotIs(l, pot, ops, key, full, now) && Until(ops, now) && now <= later
    ensures PotIs(l, Least(l.burst, pot + Earned(l, later - now)), ops, key, full', later)
  {
    hide Earned, Admissions;
    var pot' := Least(l.burst, pot + Earned(l, later - now));
    full' := if pot' == l.burst then later else full;
    EarnedAdds(l, now - full, later - now);
    NoneLater(ops, key, now, full, later);
    assert later - full == (now - full) + (later - now);
    forall t1 | t1 <= later ensures pot' <= l.burst + Earned(l, later - t1) - Admissions(ops, key, t1, later) as real {
      if t1 <= now {
        NoneLater(ops, key, now, t1, later);
        EarnedAdds(l, now - t1, later - now);
        assert later - t1 == (now - t1) + (later - now);
      } else {
        NoneSince(ops, key, now, t1, later);
        EarnedAdds(l, later - t1, 0.0);
      }
    }
  }

  /** A request takes a token if it is admitted; one of another principal, or a release, takes none. */
  lemma PotCharged(l: Limits, pot: real, ops: seq<Op>, op: Op, key: string, full: real, now: real)
    requires PotIs(l, pot, ops, key, full, now) && (op.Ask? && op.key == key ==> op.now == now)
    ensures PotIs(l, if op.Ask? && op.key == key && op.verdict.Admitted? then pot - 1.0 else pot, ops + [op], key, full, now)
  {
    hide Earned;
    forall t1 | t1 <= now
      ensures Admissions(ops + [op], key, t1, now)
              == Admissions(ops, key, t1, now) + if op.Ask? && op.key == key && op.verdict.Admitted? then 1 else 0
    {
      assert (ops + [op])[..|ops|] == ops;
    }
  }

  lemma StepOfAnother(l: Limits, v: View, op: Op, v': View, key: string, now: real)
    requires l.Valid() && Step(l, v, op, v') && !(op.Ask? && op.key == key)
    ensures Pot(l, v', key, now) == Pot(l, v, key, now) && (PotOk(l, v, key, now) ==> PotOk(l, v', key, now))
  {
    hide Earned;
  }

  lemma StepOfMine(l: Limits, v: View, op: Op, v': View, now: real)
    requires l.Valid() && Step(l, v, op, v') && op.Ask? && op.now <= now && PotOk(l, v, op.key, op.now)
    ensures var pot := Pot(l, v, op.key, op.now) - (if op.verdict.Admitted? then 1.0 else 0.0);
      Pot(l, v', op.key, now) == Least(l.burst, pot + Earned(l, now - op.now))
    ensures PotOk(l, v', op.key, now)
  {
    hide Earned;
    EarnedAdds(l, 0.0, now - op.now);
    if op.key in v.states {
      EarnedAdds(l, 0.0, op.now - v.states[op.key].last);
    }
  }

  /** In every run the tokens of every principal are what the history of its admissions makes them. */
  lemma {:induction false} PotsTell(l: Limits, vs: seq<View>, ops: seq<Op>, key: string, now: real, i: nat) returns (full: real)
    requires l.Valid() && Run(l, vs, ops) && i <= |ops| && Until(ops[..i], now)
    ensures PotOk(l, vs[i], key, now) && PotIs(l, Pot(l, vs[i], key, now), ops[..i], key, full, now)
    decreases i
  {
    if i == 0 {
      full := now;
      FullAtFirst(l, key, now);
      assert ops[..0] == [];
    } else {
      var op, before := ops[i - 1], ops[..i - 1];
      assert ops[..i] == before + [op];
      assert Step(l, vs[i - 1], op, vs[i]) && (op.Ask? ==> Until(before, op.now) && op == ops[..i][i - 1]);
      hide Step, Pot, PotIs, PotOk, Admissions, Earned, Least;
      if op.Ask? && op.key == key {
        full := PotsTell(l, vs, ops, key, op.now, i - 1);
        StepOfMine(l, vs[i - 1], op, vs[i], now);
        PotCharged(l, Pot(l, vs[i - 1], key, op.now), before, op, key, full, op.now);
        assert Until(ops[..i], op.now);
        full := PotLater(l, Pot(l, vs[i - 1], key, op.now) - (if op.verdict.Admitted? then 1.0 else 0.0), ops[..i], key, full, op.now, now);
      } else {
        assert forall j :: 0 <= j < i - 1 ==> before[j] == ops[..i][j];
        full := PotsTell(l, vs, ops, key, now, i - 1);
        StepOfAnother(l, vs[i - 1], op, vs[i], key, now);
        PotCharged(l, Pot(l, vs[i - 1], key, now), before, op, key, full, now);
      }
    }
  }

  lemma FullAtFirst(l: Limits, key: string, now: real)
    requires l.Valid()
    ensures PotIs(l, Pot(l, View(map[], 0, map[]), key, now), [], key, now, now)
  {
    hide Earned;
    EarnedAdds(l, 0.0, 0.0);
    forall t1 | t1 <= now ensures l.burst <= l.burst + Earned(l, now - t1) - Admissions([], key, t1, now) as real {
      EarnedAdds(l, now - t1, 0.0);
    }
  }

  // ------------------------------------------------------------ concurrency

  /** Counts are counts of admissions not yet released. */
  ghost predicate Counts(v: View) {
    && v.global == |v.held|
    && (forall h :: h in v.held ==> v.held[h] in v.states)
    && (forall k :: k in v.states ==> v.states[k].active == |HeldBy(v.held, k)|)
  }

  lemma StepCounts(l: Limits, v: View, op: Op, v': View)
    requires l.Valid() && Step(l, v, op, v') && Counts(v)
    ensures Counts(v')
  {
    hide Refilled, Counts;
    match op
    case Ask(key, now, verdict, handle) =>
      var st := Refilled(l, StateOf(l, v.states, key, now), now);
      RefillLeavesCounts(l, StateOf(l, v.states, key, now), now);
      if verdict.Admitted? {
        OneMoreHeld(v, key, st.(tokens := st.tokens - 1.0, active := st.active + 1), handle);
      } else {
        SameHeld(v, key, st);
      }
    case Done(handle) =>
      OneLessHeld(v, v', handle);
  }

  lemma RefillLeavesCounts(l: Limits, st: RateState, now: real)
    ensures Refilled(l, st, now).active == st.active
  {}

  lemma SameHeld(v: View, key: string, st: RateState)
    requires Counts(v) && st.active == (if key in v.states then v.states[key].active else 0)
    ensures Counts(v.(states := v.states[key := st]))
  {
    if key !in v.states { assert HeldBy(v.held, key) == {}; }
  }

  lemma OneMoreHeld(v: View, key: string, st: RateState, handle: nat)
    requires Counts(v) && st.active == (if key in v.states then v.states[key].active else 0) + 1 && handle !in v.held
    ensures Counts(View(v.states[key := st], v.global + 1, v.held[handle := key]))
  {
    if key !in v.states { assert HeldBy(v.held, key) == {}; }
    HeldMore(v.held, handle, key);
    hide HeldBy;
  }

  lemma OneLessHeld(v: View, v': View, handle: nat)
    requires Counts(v) && Freed(v, v', handle)
    ensures Counts(v')
  {
    if handle in v.held {
      HeldByItself(v.held, handle);
      HeldFewer(v.held, handle);
      OneFewer(v.held, handle);
      hide HeldBy;
    }
  }

  lemma HeldByItself(held: map<nat, string>, handle: nat)
    requires handle in held
    ensures |HeldBy(held, held[handle])| > 0
  {
    assert handle in HeldBy(held, held[handle]);
  }

  lemma OneFewer(held: map<nat, string>, handle: nat)
    requires handle in held
    ensures |held - {handle}| == |held| - 1
  {
    assert (held - {handle}).Keys == held.Keys - {handle};
    assert |held| == |held.Keys| && |held - {handle}| == |(held - {handle}).Keys|;
  }

  lemma {:induction false} RunCounts(l: Limits, vs: seq<View>, ops: seq<Op>, i: nat)
    requires l.Valid() && Run(l, vs, ops) && i <= |ops|
    ensures Counts(vs[i])
  {
    hide Step;
    if i > 0 {
      hide Counts;
      RunCounts(l, vs, ops, i - 1);
      StepCounts(l, vs[i - 1], ops[i - 1], vs[i]);
    }
  }

  // ------------------------------------------------------------ who is admitted

  /** Since no time has the principal been admitted more often than its rate and burst allow with one more. */
  ghost predicate WithinRate(l: Limits, ops: seq<Op>, key: string, now: real) {
    forall t1 :: t1 <= now ==> Admissions(ops, key, t1, now) as real <= l.burst - 1.0 + (now - t1) * l.rate
  }

  /**
    Who is admitted, exactly: in every run a principal gets a token if and only if it was, since any t1, admitted at
    most burst - 1 + (now - t1) * rate times; with a token it is admitted if and only if it and all together
    hold fewer admissions than the limits.
   */
  lemma AdmittedExactly(l: Limits, vs: seq<View>, ops: seq<Op>, i: nat)
    requires l.Valid() && Run(l, vs, ops) && i < |ops| && ops[i].Ask?
    ensures var op := ops[i];
      var held := vs[i].held;
      && (op.verdict.TooFast? <==> !WithinRate(l, ops[..i], op.key, op.now))
      && (op.verdict.Admitted? <==> WithinRate(l, ops[..i], op.key, op.now)
                                    && |HeldBy(held, op.key)| < l.perMax && |held| < l.globalMax)
  {
    var op := ops[i];
    assert Until(ops[..i], op.now) && Step(l, vs[i], op, vs[i + 1]);
    var full := PotsTell(l, vs, ops, op.key, op.now, i);
    RunCounts(l, vs, ops, i);
    JudgedByTokens(l, vs[i], vs[i + 1], op);
    var pot := Pot(l, vs[i], op.key, op.now);
    hide Step, Run, Until, Pot, Counts, HeldBy;
    assert pot >= 1.0 <==> WithinRate(l, ops[..i], op.key, op.now) by { TokenExactly(l, pot, ops[..i], op.key, full, op.now); }
  }

  lemma TokenExactly(l: Limits, pot: real, ops: seq<Op>, key: string, full: real, now: real)
    requires PotIs(l, pot, ops, key, full, now)
    ensures pot >= 1.0 <==> WithinRate(l, ops, key, now)
  {
    hide Admissions;
    if pot >= 1.0 {
      forall t1 | t1 <= now ensures Admissions(ops, key, t1, now) as real <= l.burst - 1.0 + (now - t1) * l.rate {
        assert Earned(l, now - t1) == (now - t1) * l.rate;
      }
    } else {
      assert Earned(l, now - full) == (now - full) * l.rate;
    }
  }

  lemma JudgedByTokens(l: Limits, v: View, v': View, op: Op)
    requires l.Valid() && op.Ask? && Step(l, v, op, v') && Counts(v)
    ensures op.verdict.TooFast? <==> Pot(l, v, op.key, op.now) < 1.0
    ensures op.verdict.Admitted? <==> Pot(l, v, op.key, op.now) >= 1.0 && |HeldBy(v.held, op.key)| < l.perMax && |v.held| < l.globalMax
  {
    hide Earned;
    if op.key !in v.states { assert HeldBy(v.held, op.key) == {}; }
  }

  /** What a principal is told to wait is no longer than it takes: a second less, and there is no token yet. */
  lemma WaitingIsNeeded(l: Limits, st: RateState, global: nat, now: real, earlier: real)
    requires l.Valid() && now >= st.last && Judged(l, Refilled(l, st, now), global).TooFast?
    requires now <= earlier <= now + (Judged(l, Refilled(l, st, now), global).retry - 1) as real
    ensures Refilled(l, Refilled(l, st, now), earlier).tokens < 1.0
  {
    var f := Refilled(l, st, now);
    var need := (1.0 - f.tokens) / l.rate;
    RetryIsLeast(l, f.tokens);
    assert f.tokens < 1.0 && Judged(l, f, global).retry == RetryAfter(l, f.tokens);
    hide Judged, RetryAfter;
    if earlier > now {
      assert earlier - now < need;
      EarnedEnough(l, 1.0 - f.tokens);
      EarnedLess(l, earlier - now, need);
      assert f.last == now;
      hide Earned;
    }
  }

  lemma EarnedLess(l: Limits, a: real, b: real)
    requires l.Valid() && a < b
    ensures Earned(l, a) < Earned(l, b)
  {
    assert (b - a) * l.rate > 0.0;
    assert b * l.rate == a * l.rate + (b - a) * l.rate;
  }

  lemma RetryIsLeast(l: Limits, tokens: real)
    requires l.Valid() && tokens < 1.0
    ensures RetryAfter(l, tokens) > 1 ==> (RetryAfter(l, tokens) - 1) as real < (1.0 - tokens) / l.rate
  {
  }
}
