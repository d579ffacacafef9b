/**
  The connector's request limiter: tokens and concurrency per principal, and a global concurrency limit.
  A release can be called more than once but takes effect once.
 */
module OwiLimiter {
  import opened Common

  datatype Limits = Limits(rate: real, burst: real, perMax: nat, globalMax: nat) {
    predicate Valid() { rate > 0.0 && burst >= 1.0 }
  }

  datatype RateState = RateState(tokens: real, last: real, active: nat)

  type States = map<string, RateState>

  datatype Verdict = Admitted | TooFast(retry: nat) | TooMany

  /** The tokens that come back in a time. */
  function Earned(l: Limits, elapsed: real): real { elapsed * l.rate }

  function Refilled(l: Limits, st: RateState, now: real): RateState {
    if now > st.last then st.(tokens := Least(l.burst, st.tokens + Earned(l, now - st.last)), last := now) else st
  }

  function StateOf(l: Limits, states: States, key: string, now: real): RateState {
    GetOr(states, key, RateState(l.burst, now, 0))
  }

  /** The least whole number that is no less than x. */
  function Ceiling(x: real): (n: int)
    ensures x <= n as real < x + 1.0
  {
    if x.Floor as real == x then x.Floor else x.Floor + 1
  }

  /** Whole seconds until a token is there, at least one. */
  function RetryAfter(l: Limits, tokens: real): (s: nat)
    requires l.Valid() && tokens < 1.0
    ensures s >= 1 && s as real >= (1.0 - tokens) / l.rate
  {
    var s := Ceiling((1.0 - tokens) / l.rate);
    if s < 1 then 1 else s
  }

  function Judged(l: Limits, st: RateState, global: nat): Verdict
    requires l.Valid()
  {
    if st.tokens < 1.0 then TooFast(RetryAfter(l, st.tokens))
    else if st.active >= l.perMax || global >= l.globalMax then TooMany
    else Admitted
  }

  /** The sum of the principals' counts, as a number of pairs. */
  function ActiveSum(states: States): nat { |Pairs(states, states.Keys)| }

  function Pairs(states: States, keys: set<string>): set<(string, nat)>
    requires keys <= states.Keys
  {
    set k, i | k in keys && 0 <= i < states[k].active :: (k, i)
  }

  lemma SplitOff(states: States, key: string)
    requires key in states
    ensures |Pairs(states, states.Keys)| == |Pairs(states, states.Keys - {key})| + states[key].active
  {
    var mine := PairsOf(key, states[key].active);
    CountPairs(key, states[key].active);
    assert Pairs(states, states.Keys) == Pairs(states, states.Keys - {key}) + mine;
    assert Pairs(states, states.Keys - {key}) !! mine;
  }

  /** Changing one principal's count changes the sum by as much. */
  lemma SumOfUpdate(states: States, key: string, st: RateState)
    ensures ActiveSum(states[key := st]) == ActiveSum(states) - (if key in states then states[key].active else 0) + st.active
  {
    var next := states[key := st];
    assert next.Keys - {key} == states.Keys - {key};
    assert Pairs(next, states.Keys - {key}) == Pairs(states, states.Keys - {key});
    SplitOff(next, key);
    hide Pairs;
    if key in states {
      SplitOff(states, key);
    } else {
      assert states.Keys - {key} == states.Keys;
    }
  }

  lemma NoneActive()
    ensures ActiveSum(map[]) == 0
  {
    var none: States := map[];
    assert Pairs(none, none.Keys) == {};
  }

  ghost predicate StatesOk(l: Limits, states: States, global: nat) {
    && global == ActiveSum(states) && global <= l.globalMax
    && forall k :: k in states ==> 0.0 <= states[k].tokens <= l.burst && states[k].active <= l.perMax
  }

  lemma RefillOk(l: Limits, st: RateState, now: real)
    requires l.Valid() && 0.0 <= st.tokens <= l.burst
    ensures var f := Refilled(l, st, now); 0.0 <= f.tokens <= l.burst && f.active == st.active
  {
    hide Earned;
    if now > st.last {
      EarnedGrows(l, 0.0, now - st.last);
      EarnedNothing(l);
    }
  }

  lemma UpdateOk(l: Limits, states: States, global: nat, key: string, st: RateState, global': nat)
    requires StatesOk(l, states, global) && 0.0 <= st.tokens <= l.burst && st.active <= l.perMax && global' <= l.globalMax
    requires global' == global - (if key in states then states[key].active else 0) + st.active
    ensures StatesOk(l, states[key := st], global')
  {
    SumOfUpdate(states, key, st);
    hide ActiveSum;
  }

  /** A principal told to wait, who waits as long and is charged nothing meanwhile, finds a token. */
  lemma WaitingIsEnough(l: Limits, st: RateState, global: nat, now: real, later: real)
    requires l.Valid() && now >= st.last && Judged(l, Refilled(l, st, now), global).TooFast?
    requires later >= now + Judged(l, Refilled(l, st, now), global).retry as real
    ensures Refilled(l, Refilled(l, st, now), later).tokens >= 1.0
    ensures forall g: nat :: !Judged(l, Refilled(l, Refilled(l, st, now), later), g).TooFast?
  {
    hide Earned;
    var f := Refilled(l, st, now);
    var need := (1.0 - f.tokens) / l.rate;
    EarnedEnough(l, 1.0 - f.tokens);
    EarnedGrows(l, need, later - now);
    assert f.last == now && later > now;
  }

  lemma EarnedNothing(l: Limits)
    ensures Earned(l, 0.0) == 0.0
  {
  }

  lemma EarnedEnough(l: Limits, missing: real)
    requires l.rate > 0.0
    ensures Earned(l, missing / l.rate) == missing
  {
  }

  lemma EarnedGrows(l: Limits, a: real, b: real)
    requires a <= b && l.rate > 0.0
    ensures Earned(l, a) <= Earned(l, b)
  {
    assert (b - a) * l.rate >= 0.0;
    assert b * l.rate == a * l.rate + (b - a) * l.rate;
  }

  // ------------------------------------------------------------ the limiter

  /** The limiter as a value. */
  datatype View = View(states: States, global: nat, held: map<nat, string>)

  /** What a request makes of the limiter, as Acquire promises it. */
  ghost predicate Asked(l: Limits, v: View, v': View, key: string, now: real, verdict: Verdict, handle: nat)
    requires l.Valid()
  {
    var st := Refilled(l, StateOf(l, v.states, key, now), now);
    && verdict == Judged(l, st, v.global)
    && v' == (if verdict.Admitted?
              then View(v.states[key := st.(tokens := st.tokens - 1.0, active := st.active + 1)], v.global + 1, v.held[handle := key])
              else v.(states := v.states[key := st]))
    && (verdict.Admitted? ==> handle !in v.held)
  }

  /** What a release makes of it, as Release promises it. */
  ghost predicate Freed(v: View, v': View, handle: nat) {
    v' == if handle in v.held && v.held[handle] in v.states
          then View(v.states[v.held[handle] := Lowered(v.states[v.held[handle]])], if v.global > 0 then v.global - 1 else 0, v.held - {handle})
          else v
  }

  class Limiter {
    const limits: Limits
    var states: States
    var global: nat
    /** The admissions not yet released, with the principal of each. */
    var held: map<nat, string>
    var nextHandle: nat

    function AsView(): View reads this { View(states, global, held) }

    /** The global count is the sum of the principals' counts, and each of those counts its own admissions. */
    ghost predicate Valid() reads this {
      && limits.Valid() && StatesOk(limits, states, global)
      && (forall h :: h in held ==> h < nextHandle && held[h] in states)
      && (forall k :: k in states ==> states[k].active == |HeldBy(held, k)|)
    }

    constructor (limits: Limits)
      requires limits.Valid()
      ensures Valid() && this.limits == limits && states == map[] && global == 0 && held == map[]
    {
      this.limits, states, global, held, nextHandle := limits, map[], 0, map[], 0;
      new;
      NoneActive();
    }

    /** Refills, then admits, or says how long to wait for a token. */
    method Acquire(key: string, now: real) returns (verdict: Verdict, handle: nat)
      requires Valid()
      modifies this
      ensures Valid()
      ensures var st := Refilled(limits, StateOf(limits, old(states), key, now), now);
        && verdict == Judged(limits, st, old(global))
        && states == old(states)[key := if verdict.Admitted? then st.(tokens := st.tokens - 1.0, active := st.active + 1) else st]
        && global == old(global) + (if verdict.Admitted? then 1 else 0)
        && held == if verdict.Admitted? then old(held)[handle := key] else old(held)
      ensures verdict.Admitted? ==> handle !in old(held)
      ensures Asked(limits, old(AsView()), AsView(), key, now, verdict, handle)
    {
      hide StatesOk;
      handle := nextHandle;
      var st := StateOf(limits, states, key, now);
      StoredOk(key, now);
      RefillOk(limits, st, now);
      st := Refilled(limits, st, now);
      verdict := Judged(limits, st, global);
      if verdict.Admitted? {
        st := st.(tokens := st.tokens - 1.0, active := st.active + 1);
        HeldMore(held, handle, key);
        UpdateOk(limits, states, global, key, st, global + 1);
        global, held, nextHandle := global + 1, held[handle := key], nextHandle + 1;
      } else {
        UpdateOk(limits, states, global, key, st, global);
      }
      states := states[key := st];
    }

    lemma StoredOk(key: string, now: real)
      requires Valid()
      ensures var st := StateOf(limits, states, key, now);
        && 0.0 <= st.tokens <= limits.burst && st.active <= limits.perMax && global <= limits.globalMax
        && st.active == (if key in states then states[key].active else 0)
        && st.active == |HeldBy(held, key)|
    {
      if key !in states {
        assert HeldBy(held, key) == {};
      }
    }

    /** A release counts once; calling it again changes nothing. */
    method Release(handle: nat)
      requires Valid()
      modifies this
      ensures Valid() && held == old(held) - {handle}
      ensures global == old(global) - (if handle in old(held) then 1 else 0)
      ensures states == if handle in old(held)
                        then old(states)[old(held)[handle] := Lowered(old(states)[old(held)[handle]])]
                        else old(states)
      ensures Freed(old(AsView()), AsView(), handle)
    {
      if handle !in held { return; }
      var key := held[handle];
      assert handle in HeldBy(held, key);
      HeldFewer(held, handle);
      SumIsAtLeast(states, key);
      var st := Lowered(states[key]);
      UpdateOk(limits, states, global, key, st, global - 1);
      hide StatesOk;
      states, global, held := states[key := st], global - 1, held - {handle};
    }
  }

  function HeldBy(held: map<nat, string>, key: string): set<nat> { set h | h in held && held[h] == key }

  lemma HeldMore(held: map<nat, string>, handle: nat, key: string)
    requires handle !in held
    ensures forall k :: |HeldBy(held[handle := key], k)| == |HeldBy(held, k)| + (if k == key then 1 else 0)
  {
    forall k ensures |HeldBy(held[handle := key], k)| == |HeldBy(held, k)| + (if k == key then 1 else 0) {
      HeldByOneMore(held, handle, key, k);
    }
  }

  lemma HeldByOneMore(held: map<nat, string>, handle: nat, key: string, k: string)
    requires handle !in held
    ensures HeldBy(held[handle := key], k) == if k == key then HeldBy(held, k) + {handle} else HeldBy(held, k)
  {
  }

  lemma HeldFewer(held: map<nat, string>, handle: nat)
    requires handle in held
    ensures forall k :: |HeldBy(held - {handle}, k)| == |HeldBy(held, k)| - (if k == held[handle] then 1 else 0)
  {
    forall k ensures |HeldBy(held - {handle}, k)| == |HeldBy(held, k)| - (if k == held[handle] then 1 else 0) {
      HeldByOneLess(held, handle, k);
    }
  }

  lemma HeldByOneLess(held: map<nat, string>, handle: nat, k: string)
    requires handle in held
    ensures HeldBy(held, k) == if k == held[handle] then HeldBy(held - {handle}, k) + {handle} else HeldBy(held - {handle}, k)
    ensures handle !in HeldBy(held - {handle}, k)
  {
  }

  function Lowered(st: RateState): RateState { if st.active > 0 then st.(active := st.active - 1) else st }

  lemma SumIsAtLeast(states: States, key: string)
    requires key in states
    ensures ActiveSum(states) >= states[key].active
  {
    SplitOff(states, key);
  }
}
