/**
  The listener manager: bringing the open sockets in line with a configuration, all or nothing.
  Whether a bind succeeds is decided by the operating system, so every bind may fail.
 */
module Listeners {
  import opened Common

  type Address = string

  /** The addresses a configuration wants, each with whether it speaks TLS. */
  type Topology = map<Address, bool>

  /** A running server; its identity tells a kept socket from one that was closed and reopened. */
  datatype Listener = Listener(id: nat, isTls: bool)

  datatype Outcome = Reconciled | Refused | RolledBack | RollbackFailed

  function Shape(live: map<Address, Listener>): Topology { map a | a in live :: live[a].isTls }

  function Ids(live: map<Address, Listener>): set<nat> { set a | a in live :: live[a].id }

  /** Wanted as it is: live, and asked for with the same protocol. */
  predicate KeptBy(live: map<Address, Listener>, wanted: Topology, a: Address) {
    a in live && a in wanted && wanted[a] == live[a].isTls
  }

  predicate Injective(live: map<Address, Listener>) {
    forall a, b :: a in live && b in live && a != b ==> live[a].id != live[b].id
  }

  /** What happens to the sockets of the live listeners, in order. */
  datatype Event = Bound(a: Address) | Closed(a: Address)

  /** Before any socket is closed, every one of these addresses has been bound. */
  ghost predicate BindsFirst(events: seq<Event>, added: set<Address>) {
    forall i, a :: 0 <= i < |events| && events[i].Closed? && a in added ==> Bound(a) in events[..i]
  }

  /** Once an address that is not wanted has been closed, nothing is bound any more. */
  ghost predicate RemovesLast(events: seq<Event>, wanted: Topology) {
    forall i, j :: 0 <= i < j < |events| && events[i].Closed? && events[i].a !in wanted ==> events[j].Closed?
  }

  /** Only these addresses, and only bound. */
  ghost predicate AllBound(events: seq<Event>, all: set<Address>) {
    (forall e :: e in events ==> e.Bound? && e.a in all) && forall a :: a in all ==> Bound(a) in events
  }

  ghost predicate AllClosed(events: seq<Event>, wanted: Topology) { forall e :: e in events ==> e.Closed? && e.a !in wanted }

  ghost predicate OnlyBound(events: seq<Event>) { forall e :: e in events ==> e.Bound? }

  ghost predicate OnlyOn(events: seq<Event>, wanted: Topology) { forall e :: e in events ==> e.a in wanted }

  lemma InOrder(binds: seq<Event>, flips: seq<Event>, ends: seq<Event>, added: set<Address>, wanted: Topology)
    requires AllBound(binds, added) && OnlyOn(flips, wanted) && added <= wanted.Keys
    ensures BindsFirst(binds + flips + ends, added)
    ensures AllClosed(ends, wanted) ==> RemovesLast(binds + flips + ends, wanted)
  {
    var all := binds + flips + ends;
    assert forall i :: 0 <= i < |binds| ==> all[i] in binds;
    assert forall i :: |binds| <= i < |binds| + |flips| ==> all[i] in flips;
    assert forall i :: |binds| + |flips| <= i < |all| ==> all[i] in ends;
    forall i, a | 0 <= i < |all| && all[i].Closed? && a in added ensures Bound(a) in all[..i] {
      var k :| 0 <= k < |binds| && binds[k] == Bound(a);
      assert all[..i][k] == Bound(a);
    }
  }

  /** Nothing closed, nothing amiss. */
  lemma OnlyBoundInOrder(events: seq<Event>, added: set<Address>)
    requires OnlyBound(events)
    ensures BindsFirst(events, added)
  {
    assert forall i :: 0 <= i < |events| ==> events[i] in events;
  }

  /** From the first events to the second just the prepared addresses were bound. */
  ghost predicate Logs(before: seq<Event>, now: seq<Event>, prepared: map<Address, Listener>) {
    before <= now && AllBound(now[|before|..], prepared.Keys)
  }

  lemma LogsNothing(before: seq<Event>)
    ensures Logs(before, before, map[])
  {
  }

  lemma LogsMore(before: seq<Event>, was: seq<Event>, now: seq<Event>, prepared: map<Address, Listener>, a: Address, l: Listener)
    requires Logs(before, was, prepared) && now == was + [Bound(a)]
    ensures Logs(before, now, prepared[a := l])
  {
    assert now[|before|..] == was[|before|..] + [Bound(a)];
  }

  lemma LogsAll(before: seq<Event>, now: seq<Event>, prepared: map<Address, Listener>)
    requires Logs(before, now, prepared)
    ensures before <= now && OnlyBound(now[|before|..]) && AllBound(now[|before|..], prepared.Keys)
  {
  }

  lemma OneMoreClosed(before: seq<Event>, was: seq<Event>, now: seq<Event>, wanted: Topology, a: Address)
    requires before <= was && AllClosed(was[|before|..], wanted) && now == was + [Closed(a)] && a !in wanted
    ensures AllClosed(now[|before|..], wanted)
  {
    assert now[|before|..] == was[|before|..] + [Closed(a)];
  }

  lemma MoreOn(before: seq<Event>, was: seq<Event>, now: seq<Event>, wanted: Topology)
    requires before <= was <= now && OnlyOn(was[|before|..], wanted) && OnlyOn(now[|was|..], wanted)
    ensures OnlyOn(now[|before|..], wanted)
  {
    assert now[|before|..] == was[|before|..] + now[|was|..];
  }

  predicate AllBelow(ids: set<nat>, n: nat) { forall i :: i in ids ==> i < n }

  class ListenerManager {
    var live: map<Address, Listener>
    var nextId: nat
    /** The sockets the operating system holds open for this process. */
    ghost var open: set<nat>
    /** How many binds have failed. */
    ghost var failures: nat
    ghost var events: seq<Event>

    /** No socket leaks and none is shared: the open sockets are those of the live listeners. */
    ghost predicate Valid() reads this {
      Injective(live) && open == Ids(live) && AllBelow(open, nextId)
    }

    constructor ()
      ensures Valid() && live == map[] && failures == 0
    {
      live, nextId, open, failures, events := map[], 0, {}, 0, [];
    }

    /** Binds a socket without serving on it yet. */
    method Prepare(ghost a: Address, isTls: bool) returns (bound: Option<Listener>)
      modifies this`nextId, this`open, this`failures, this`events
      ensures events == if bound.Some? then old(events) + [Bound(a)] else old(events)
      ensures failures == old(failures) + (if bound.None? then 1 else 0)
      ensures bound.None? ==> open == old(open) && nextId == old(nextId)
      ensures bound.Some? ==> bound.value == Listener(old(nextId), isTls) && open == old(open) + {old(nextId)} && nextId == old(nextId) + 1
    {
      if * {
        failures := failures + 1;
        return None;
      }
      bound := Some(Listener(nextId, isTls));
      open := open + {nextId};
      nextId := nextId + 1;
      events := events + [Bound(a)];
    }

    /** Closes the socket of a live listener. */
    method Close(l: Listener, ghost a: Address)
      modifies this`open, this`events
      ensures open == old(open) - {l.id} && events == old(events) + [Closed(a)]
    {
      open := open - {l.id};
      events := events + [Closed(a)];
    }

    /** Closes a socket that was bound but never served on. */
    method Discard(l: Listener)
      modifies this`open
      ensures open == old(open) - {l.id}
    {
      open := open - {l.id};
    }

    /** Closes every prepared socket again. */
    method Abandon(prepared: map<Address, Listener>)
      requires Holds(prepared)
      modifies this`open
      ensures Valid()
    {
      var left := prepared.Keys;
      while left != {}
        invariant left <= prepared.Keys
        invariant open == old(open) - (set a | a in prepared && a !in left :: prepared[a].id)
        decreases |left|
      {
        var a :| a in left;
        assert prepared[a].id in Ids(prepared);
        Discard(prepared[a]);
        left := left - {a};
      }
      assert open == old(open) - Ids(prepared);
    }

    /** Binds and serves. */
    method Start(a: Address, isTls: bool) returns (ok: bool)
      requires Valid() && a !in live
      modifies this
      ensures Valid() && failures == old(failures) + (if ok then 0 else 1) && old(events) <= events
      ensures !ok ==> live == old(live)
      ensures ok ==> a in live && live[a].isTls == isTls && live == old(live)[a := live[a]]
    {
      var bound := Prepare(a, isTls);
      if bound.None? { return false; }
      IdsOfUpdate(live, a, bound.value);
      live := live[a := bound.value];
      return true;
    }

    /** The first bind of every address; those that fail are retried later. */
    method StartAll(desired: Topology) returns (failed: set<Address>)
      requires Valid() && live == map[]
      modifies this
      ensures Valid() && live.Keys == desired.Keys - failed && failed <= desired.Keys
      ensures failures == old(failures) + |failed|
      ensures forall a :: a in live ==> KeptBy(live, desired, a)
    {
      hide Valid;
      failed := {};
      var left := desired.Keys;
      while left != {}
        invariant Valid() && left <= desired.Keys && failed <= desired.Keys && failures == old(failures) + |failed|
        invariant forall a :: a in live ==> KeptBy(live, desired, a) && a !in left
        invariant forall a :: a in desired && a !in left ==> (a in failed <==> a !in live)
        invariant forall a :: a in failed ==> a !in left
        decreases |left|
      {
        var a :| a in left;
        left := left - {a};
        var ok := Start(a, desired[a]);
        if !ok { failed := failed + {a}; }
      }
    }

    /** Closes what the old configuration does not want and reopens what it wants. */
    method RestoreOld(wanted: Topology) returns (ok: bool)
      requires Valid()
      modifies this
      ensures Valid()
      ensures forall a :: KeptBy(old(live), wanted, a) ==> a in live && live[a] == old(live)[a]
      ensures forall a :: a in live ==> KeptBy(live, wanted, a)
      ensures ok <==> Shape(live) == wanted
      ensures failures >= old(failures) && (ok <==> failures == old(failures)) && old(events) <= events
    {
      ghost var before := live;
      DropUnwanted(wanted);
      var left := wanted.Keys;
      ok := true;
      while left != {}
        invariant Valid() && left <= wanted.Keys
        invariant forall a :: KeptBy(before, wanted, a) ==> a in live && live[a] == before[a]
        invariant forall a :: a in live ==> KeptBy(live, wanted, a)
        invariant ok <==> forall a :: a in wanted && a !in left ==> a in live
        invariant failures >= old(failures) && (ok <==> failures == old(failures)) && old(events) <= events
        decreases |left|
      {
        var a :| a in left;
        left := left - {a};
        if a !in live {
          var started := Start(a, wanted[a]);
          ok := ok && started;
        }
      }
      SameShape(live, wanted);
    }

    method DropUnwanted(wanted: Topology)
      requires Valid()
      modifies this
      ensures Valid() && old(events) <= events
      ensures failures == old(failures)
      ensures forall a :: a in live <==> KeptBy(old(live), wanted, a)
      ensures forall a :: a in live ==> a in old(live) && live[a] == old(live)[a]
    {
      ghost var before := live;
      var left := live.Keys;
      while left != {}
        invariant Valid() && left <= live.Keys <= before.Keys && failures == old(failures) && old(events) <= events
        invariant forall a :: a in live ==> live[a] == before[a]
        invariant forall a :: a in before && a !in left ==> (a in live <==> KeptBy(before, wanted, a))
        decreases |left|
      {
        var a :| a in left;
        left := left - {a};
        if a !in wanted || wanted[a] != live[a].isTls {
          IdsOfRemoval(live, a);
          Close(live[a], a);
          live := live - {a};
        }
      }
    }

    /**
      Binds every new address before touching a live one, then reopens those that change protocol, and
      closes removed ones last. A failed bind undoes everything.
     */
    method Reconcile(desired: Topology, runtime: Option<Topology>) returns (outcome: Outcome)
      requires Valid()
      modifies this
      ensures Valid()
      ensures runtime == Some(Shape(old(live))) && (outcome.Refused? || outcome.RolledBack?) ==> Shape(live) == Shape(old(live))
      ensures failures >= old(failures) && (outcome.Reconciled? <==> failures == old(failures))
      ensures outcome.Refused? || outcome.RolledBack? <==> failures == old(failures) + 1
      ensures outcome.Reconciled? ==> Shape(live) == desired
      ensures outcome.Reconciled? ==> forall a :: KeptBy(old(live), desired, a) ==> live[a] == old(live)[a]
      ensures outcome.Refused? ==> live == old(live) && exists a :: a in desired && a !in live
      ensures old(events) <= events
              && BindsFirst(events[|old(events)|..], desired.Keys - old(live).Keys)
              && (outcome.Reconciled? ==> RemovesLast(events[|old(events)|..], desired))
      ensures var oldWanted := if runtime.Some? then runtime.value else desired;
        && (outcome.RolledBack? ==> Shape(live) == oldWanted)
        && (outcome.RollbackFailed? ==> Shape(live) != oldWanted && forall a :: a in live ==> KeptBy(live, oldWanted, a))
        && (outcome.RolledBack? || outcome.RollbackFailed? ==>
              && (exists a :: a in old(live) && a in desired && desired[a] != old(live)[a].isTls)
              && forall a :: KeptBy(old(live), oldWanted, a) && (a in desired ==> desired[a] == oldWanted[a])
                             ==> a in live && live[a] == old(live)[a])
    {
      var oldWanted := if runtime.Some? then runtime.value else desired;
      hide BindsFirst, RemovesLast, AllBound, AllClosed, OnlyBound, OnlyOn;
      ghost var log0, added := events, desired.Keys - live.Keys;
      var prepared, allBound := PrepareAdditions(desired);
      if !allBound {
        OnlyBoundInOrder(events[|log0|..], added);
        return Refused;
      }
      ghost var log1 := events;
      var flipped := FlipProtocols(desired, prepared);
      ghost var log2 := events;
      if !flipped {
        var restored := RestoreOld(oldWanted);
        InThree(log0, log1, log2, events, added, desired);
        return if restored then RolledBack else RollbackFailed;
      }
      ghost var before := live;
      MergeIds(live, prepared);
      live := live + prepared;
      DropRemoved(desired);
      SameShape(live, desired);
      InThree(log0, log1, log2, events, added, desired);
      return Reconciled;
    }

    /** Binds every wanted address that is not live; on a failure closes those already bound. */
    method PrepareAdditions(desired: Topology) returns (prepared: map<Address, Listener>, ok: bool)
      requires Valid()
      modifies this`nextId, this`open, this`failures, this`events
      ensures old(events) <= events && OnlyBound(events[|old(events)|..])
      ensures ok ==> AllBound(events[|old(events)|..], desired.Keys - live.Keys)
      ensures failures == old(failures) + (if ok then 0 else 1)
      ensures !ok ==> Valid() && exists a :: a in desired && a !in live
      ensures ok ==> Holds(prepared) && prepared.Keys == desired.Keys - live.Keys
      ensures ok ==> forall a :: a in prepared ==> prepared[a].isTls == desired[a]
    {
      hide Holds, Injective, Ids, AllBelow, Logs, AllBound, OnlyBound;
      NothingPrepared();
      prepared := map[];
      LogsNothing(events);
      var left := desired.Keys;
      while left != {}
        invariant left <= desired.Keys && Holds(prepared) && failures == old(failures)
        invariant forall a :: a in prepared <==> a in desired && a !in live && a !in left
        invariant Logs(old(events), events, prepared)
        invariant forall a :: a in prepared ==> prepared[a].isTls == desired[a]
        decreases |left|
      {
        var a :| a in left;
        left := left - {a};
        if a !in live {
          var bound := PrepareOne(prepared, a, desired[a], old(events));
          if bound.None? {
            LogsAll(old(events), events, prepared);
            Abandon(prepared);
            return prepared, false;
          }
          prepared := prepared[a := bound.value];
        }
      }
      LogsAll(old(events), events, prepared);
      assert prepared.Keys == desired.Keys - live.Keys;
      return prepared, true;
    }

    lemma NothingPrepared()
      requires Valid()
      ensures Holds(map[])
    {
    }

    method PrepareOne(ghost prepared: map<Address, Listener>, a: Address, isTls: bool, ghost before: seq<Event>)
      returns (bound: Option<Listener>)
      requires Holds(prepared) && a !in prepared && Logs(before, events, prepared)
      modifies this`nextId, this`open, this`failures, this`events
      ensures failures == old(failures) + (if bound.None? then 1 else 0)
      ensures bound.None? ==> Holds(prepared) && Logs(before, events, prepared)
      ensures bound.Some? ==> bound.value.isTls == isTls
                              && Holds(prepared[a := bound.value]) && Logs(before, events, prepared[a := bound.value])
    {
      hide Logs;
      bound := Prepare(a, isTls);
      if bound.Some? {
        IdsOfUpdate(prepared, a, bound.value);
        LogsMore(before, old(events), events, prepared, a, bound.value);
      }
    }

    /** The open sockets are the live and the prepared ones, all different. */
    ghost predicate Holds(prepared: map<Address, Listener>) reads this {
      && Injective(live) && Injective(prepared) && open == Ids(live) + Ids(prepared)
      && Ids(live) !! Ids(prepared) && AllBelow(open, nextId)
    }

    /** Reopens the live addresses that change protocol; on a failure the prepared sockets are closed. */
    method FlipProtocols(desired: Topology, prepared: map<Address, Listener>) returns (ok: bool)
      requires Holds(prepared)
      modifies this
      ensures old(events) <= events && OnlyOn(events[|old(events)|..], desired)
      ensures failures == old(failures) + (if ok then 0 else 1)
      ensures ok ==> Holds(prepared) && live.Keys == old(live.Keys)
      ensures ok ==> forall a :: a in live && a in desired ==> live[a].isTls == desired[a]
      ensures !ok ==> Valid() && exists a :: a in old(live) && a in desired && desired[a] != old(live)[a].isTls
      ensures forall a :: a in old(live) && (a in desired ==> desired[a] == old(live)[a].isTls) ==> a in live && live[a] == old(live)[a]
    {
      hide Injective, Ids, AllBelow;
      ghost var before := live;
      var left := live.Keys;
      while left != {}
        invariant Holds(prepared) && left <= live.Keys == before.Keys && failures == old(failures)
        invariant old(events) <= events && OnlyOn(events[|old(events)|..], desired)
        invariant forall a :: a in left ==> live[a] == before[a]
        invariant forall a :: a in before && (a in desired ==> desired[a] == before[a].isTls) ==> live[a] == before[a]
        invariant forall a :: a in live && a in desired && a !in left ==> live[a].isTls == desired[a]
        decreases |left|
      {
        var a :| a in left;
        left := left - {a};
        if a in desired && desired[a] != live[a].isTls {
          ghost var log0 := events;
          var reopened := Reopen(a, desired[a], prepared);
          MoreOn(old(events), log0, events, desired);
          if !reopened {
            Abandon(prepared);
            return false;
          }
        }
      }
      return true;
    }

    /** Closes a live socket and binds its address again with the other protocol. */
    method Reopen(a: Address, isTls: bool, ghost prepared: map<Address, Listener>) returns (ok: bool)
      requires Holds(prepared) && a in live
      modifies this
      ensures Holds(prepared) && failures == old(failures) + (if ok then 0 else 1)
      ensures old(events) <= events && OnlyOn(events[|old(events)|..], map[a := isTls])
      ensures ok ==> a in live && live[a].isTls == isTls && live == old(live)[a := live[a]]
      ensures !ok ==> live == old(live) - {a}
    {
      ghost var closed := live[a].id;
      IdsOfRemoval(live, a);
      Close(live[a], a);
      live := live - {a};
      assert open == Ids(live) + Ids(prepared) by {
        assert closed in Ids(old(live));
      }
      var bound := Prepare(a, isTls);
      if bound.None? { return false; }
      IdsOfUpdate(live, a, bound.value);
      live := live[a := bound.value];
      return true;
    }

    method DropRemoved(desired: Topology)
      requires Valid() && desired.Keys <= live.Keys
      modifies this
      ensures Valid() && live.Keys == desired.Keys && failures == old(failures)
      ensures old(events) <= events && AllClosed(events[|old(events)|..], desired)
      ensures forall a :: a in live ==> a in old(live) && live[a] == old(live)[a]
    {
      ghost var before := live;
      var left := live.Keys;
      while left != {}
        invariant Valid() && left <= live.Keys && desired.Keys <= live.Keys <= before.Keys && failures == old(failures)
        invariant old(events) <= events && AllClosed(events[|old(events)|..], desired)
        invariant forall a :: a in live ==> live[a] == before[a]
        invariant forall a :: a in live ==> a in left || a in desired
        decreases |left|
      {
        var a :| a in left;
        left := left - {a};
        if a !in desired {
          ghost var log0 := events;
          IdsOfRemoval(live, a);
          Close(live[a], a);
          live := live - {a};
          OneMoreClosed(old(events), log0, events, desired, a);
        }
      }
    }

    /** A listener that broke is forgotten, unless another one has taken its place. */
    method ListenerFailed(a: Address, l: Listener)
      requires Valid()
      modifies this
      ensures Valid()
      ensures live == if a in old(live) && old(live)[a].id == l.id then old(live) - {a} else old(live)
    {
      if a in live && live[a].id == l.id {
        IdsOfRemoval(live, a);
        Close(live[a], a);
        live := live - {a};
      }
    }

    /** A later attempt to bind; made only while the running configuration still wants the address so. */
    method Retry(a: Address, isTls: bool, runtime: Option<Topology>) returns (again: bool)
      requires Valid()
      modifies this
      ensures Valid()
      ensures forall b :: b in old(live) ==> b in live && live[b] == old(live)[b]
      ensures forall b :: b in live && b !in old(live) ==>
                b == a && runtime.Some? && KeptBy(live, runtime.value, a) && live[a].isTls == isTls
      ensures failures == old(failures) + (if again then 1 else 0)
      ensures again <==> a !in live && runtime.Some? && a in runtime.value && runtime.value[a] == isTls
    {
      if a in live || runtime.None? { return false; }
      if a !in runtime.value || runtime.value[a] != isTls { return false; }
      var ok := Start(a, isTls);
      return !ok;
    }
  }

  // ------------------------------------------------------------ socket identities

  lemma InThree(log0: seq<Event>, log1: seq<Event>, log2: seq<Event>, log3: seq<Event>, added: set<Address>, wanted: Topology)
    requires log0 <= log1 <= log2 <= log3 && added <= wanted.Keys
    requires AllBound(log1[|log0|..], added) && OnlyOn(log2[|log1|..], wanted)
    ensures BindsFirst(log3[|log0|..], added)
    ensures AllClosed(log3[|log2|..], wanted) ==> RemovesLast(log3[|log0|..], wanted)
  {
    var binds, flips, ends := log1[|log0|..], log2[|log1|..], log3[|log2|..];
    assert log3[|log0|..] == binds + flips + ends;
    hide AllBound, BindsFirst, AllClosed, RemovesLast, OnlyOn;
    InOrder(binds, flips, ends, added, wanted);
  }

  lemma IdsOfUpdate(live: map<Address, Listener>, a: Address, l: Listener)
    requires a !in live
    ensures Ids(live[a := l]) == Ids(live) + {l.id}
  {
    var next := live[a := l];
    forall i | i in Ids(live) + {l.id} ensures i in Ids(next) {
      if i == l.id {
        assert next[a].id == i;
      } else {
        var b :| b in live && live[b].id == i;
        assert next[b].id == i;
      }
    }
  }

  lemma IdsOfRemoval(live: map<Address, Listener>, a: Address)
    requires a in live && Injective(live)
    ensures Ids(live - {a}) == Ids(live) - {live[a].id} && Injective(live - {a})
  {
    var next := live - {a};
    forall i | i in Ids(live) && i != live[a].id ensures i in Ids(next) {
      var b :| b in live && live[b].id == i;
      assert next[b].id == i;
    }
  }

  lemma MergeIds(live: map<Address, Listener>, more: map<Address, Listener>)
    requires live.Keys !! more.Keys && Injective(live) && Injective(more) && Ids(live) !! Ids(more)
    ensures Ids(live + more) == Ids(live) + Ids(more) && Injective(live + more)
  {
    var all := live + more;
    forall i | i in Ids(live) + Ids(more) ensures i in Ids(all) {
      if i in Ids(more) {
        var b :| b in more && more[b].id == i;
        assert all[b].id == i;
      } else {
        var b :| b in live && live[b].id == i;
        assert all[b].id == i;
      }
    }
    forall a, b | a in all && b in all && a != b ensures all[a].id != all[b].id {
      assert a in live ==> live[a].id in Ids(live);
      assert b in live ==> live[b].id in Ids(live);
      assert a in more ==> more[a].id in Ids(more);
      assert b in more ==> more[b].id in Ids(more);
    }
  }

  /** The shape is what was wanted exactly when nothing unwanted is live and nothing wanted is missing. */
  lemma SameShape(live: map<Address, Listener>, wanted: Topology)
    ensures Shape(live) == wanted
            <==> (forall a :: a in live ==> KeptBy(live, wanted, a)) && (forall a :: a in wanted ==> a in live)
  {
    if Shape(live) == wanted {
      forall a | a in live ensures KeptBy(live, wanted, a) {
        assert a in Shape(live);
      }
      forall a | a in wanted ensures a in live {
        assert a in Shape(live);
      }
    }
  }
}
