/** The manager of host addresses: it adds the addresses sites ask for and removes those it took on itself. */
module ManagedIps {
  import opened Common

  type Ip = string

  /** Where an address sits. */
  datatype Placement = Placement(iface: string, prefix: nat)

  /** An address a site wants; iface is the interface named for it, if one is. */
  datatype Want = Want(iface: Option<string>)

  type Wanted = map<Ip, Want>

  /** The addresses on the host, and those this process would remove again. */
  datatype Addresses = Addresses(host: map<Ip, Placement>, added: map<Ip, Placement>)

  /** Named for an interface, and already on the host: the manager adopts such an address as its own. */
  predicate Adoptable(w: Wanted, host: map<Ip, Placement>, ip: Ip) {
    ip in w && w[ip].iface.Some? && ip in host && host[ip].iface == w[ip].iface.value
  }

  /** An address named for one interface and already on another, which is refused. */
  predicate Misplaced(w: Wanted, host: map<Ip, Placement>) { exists ip :: ip in w && Elsewhere(w[ip], host, ip) }

  predicate Elsewhere(want: Want, host: map<Ip, Placement>, ip: Ip) {
    want.iface.Some? && ip in host && host[ip].iface != want.iface.value
  }

  /** Where the address was asked for, if a place was named. */
  predicate AsAsked(want: Want, place: Placement) { want.iface.Some? ==> place.iface == want.iface.value }

  /**
    What the attempt to have one address does. On the interface named for it, it is adopted: that interface has a
    prefix of its family, the address's own.
   */
  ghost predicate OneAdded(a: Addresses, b: Addresses, ip: Ip, want: Want, ok: bool) {
    if !ok || (ip in a.host && want.iface.None?) then b == a
    else if ip in a.host then
      want.iface == Some(a.host[ip].iface) && b.host == a.host && ip in b.added && b.added == a.added[ip := b.added[ip]]
      && b.added[ip].iface == a.host[ip].iface
    else
      && ip in b.host && b.host == a.host[ip := b.host[ip]] && b.added == a.added[ip := b.host[ip]]
      && AsAsked(want, b.host[ip])
  }

  /** Addresses were added or adopted, wanted ones only; those not pending are all there, and adopted if they can be. */
  ghost predicate Grown(a: Addresses, w: Wanted, b: Addresses, pending: set<Ip>) {
    && (forall ip :: ip in a.host ==> ip in b.host && b.host[ip] == a.host[ip])
    && (forall ip :: ip in b.host && ip !in a.host ==> ip in w && ip in b.added && AsAsked(w[ip], b.host[ip]))
    && (forall ip :: ip in a.added ==> ip in b.added)
    && (forall ip :: ip in b.added ==> ip in a.added || (ip in w && (ip !in a.host || Adoptable(w, a.host, ip))))
    && (forall ip :: ip in w && ip !in pending ==> ip in b.host)
    && (forall ip :: ip !in pending && Adoptable(w, a.host, ip) ==> ip in b.added)
  }

  /** Addresses no longer wanted were given up, and taken off the host unless that failed. */
  ghost predicate Removed(a: Addresses, w: Wanted, tidy: bool, b: Addresses) {
    && b.host.Keys <= a.host.Keys && b.added.Keys <= a.added.Keys
    && (forall ip :: ip in b.host ==> b.host[ip] == a.host[ip])
    && (forall ip :: ip in a.added && ip in w ==> ip in b.added)
    && (forall ip :: ip in b.added ==> ip in w)
    && (forall ip :: ip in a.host && ip !in b.host ==> ip in a.added && ip !in w)
    && (tidy ==> forall ip :: ip in a.added && ip !in w ==> ip !in b.host)
  }

  /** What one reconciliation may do to the addresses. */
  ghost predicate Moved(a: Addresses, w: Wanted, ok: bool, tidy: bool, b: Addresses) {
    && (forall ip :: ip in a.host && ip in b.host ==> b.host[ip] == a.host[ip])
    && (forall ip :: ip in b.host && ip !in a.host ==> ip in w && ip in b.added && AsAsked(w[ip], b.host[ip]))
    && (forall ip :: ip in a.host && ip !in b.host ==> ip in a.added && ip !in w && ok)
    && (forall ip :: ip in b.added ==> ip in a.added || ip !in a.host || Adoptable(w, a.host, ip))
    && (!ok ==> forall ip :: ip in a.added ==> ip in b.added)
    && (ok ==> (forall ip :: ip in w ==> ip in b.host) && (forall ip :: ip in b.added ==> ip in w))
    && (ok ==> forall ip :: Adoptable(w, a.host, ip) ==> ip in b.added)
    && (ok && tidy ==> forall ip :: ip in a.added && ip !in w ==> ip !in b.host)
  }

  /** The addresses are as a successful reconciliation leaves them. */
  ghost predicate Settled(a: Addresses, w: Wanted) {
    && (forall ip :: ip in w ==> ip in a.host)
    && (forall ip :: ip in a.added ==> ip in w)
    && (forall ip :: Adoptable(w, a.host, ip) ==> ip in a.added)
  }

  class IpManager {
    var host: map<Ip, Placement>
    var added: map<Ip, Placement>
    /** How many checks and additions the host has refused, and how many removals. */
    ghost var failures: nat
    ghost var stuck: nat

    function State(): Addresses reads this { Addresses(host, added) }

    constructor (host: map<Ip, Placement>)
      ensures State() == Addresses(host, map[]) && failures == 0 && stuck == 0
    {
      this.host, added, failures, stuck := host, map[], 0, 0;
    }

    /** ok tells whether every wanted address is there; tidy whether no removal failed, which is only logged. */
    method Reconcile(w: Wanted) returns (ok: bool, tidy: bool)
      modifies this
      ensures Moved(old(State()), w, ok, tidy, State())
      ensures ok <==> failures == old(failures) && !Misplaced(w, old(host))
      ensures old(failures) <= failures <= old(failures) + 1 && stuck >= old(stuck) && (tidy <==> stuck == old(stuck))
      ensures !ok && failures == old(failures) ==> Misplaced(w, host)
    {
      ok := AddWanted(w);
      tidy := true;
      if ok {
        ghost var middle := State();
        tidy := RemoveUnwanted(w);
        MovedInTwo(old(State()), middle, State(), w, tidy);
      } else {
        MovedInPart(old(State()), State(), w);
        if Misplaced(w, old(host)) { StillMisplaced(old(State()), State(), w); }
      }
    }

    method RemoveUnwanted(w: Wanted) returns (tidy: bool)
      modifies this
      ensures Removed(old(State()), w, tidy, State())
      ensures failures == old(failures) && stuck >= old(stuck) && (tidy <==> stuck == old(stuck))
    {
      ghost var before := State();
      tidy := true;
      var left := added.Keys;
      while left != {}
        invariant left <= added.Keys <= before.added.Keys && host.Keys <= before.host.Keys
        invariant forall ip :: ip in host ==> host[ip] == before.host[ip]
        invariant forall ip :: ip in before.added && (ip in w || ip in left) ==> ip in added
        invariant forall ip :: ip in added ==> ip in left || ip in w
        invariant forall ip :: ip in before.host && ip !in host ==> ip in before.added && ip !in w
        invariant tidy ==> forall ip :: ip in before.added && ip !in left && ip !in w ==> ip !in host
        invariant failures == old(failures) && stuck >= old(stuck) && (tidy <==> stuck == old(stuck))
        decreases |left|
      {
        var ip :| ip in left;
        left := left - {ip};
        if ip !in w {
          if * {
            tidy, stuck := false, stuck + 1;
          } else {
            host := host - {ip};
          }
          added := added - {ip};
        }
      }
    }

    method AddWanted(w: Wanted) returns (ok: bool)
      modifies this
      ensures Grown(old(State()), w, State(), if ok then {} else w.Keys)
      ensures stuck == old(stuck) && old(failures) <= failures <= old(failures) + 1
      ensures ok <==> failures == old(failures) && !Misplaced(w, old(host))
    {
      ghost var before := State();
      GrownNot(before, w);
      var left := w.Keys;
      while left != {}
        invariant left <= w.Keys && Grown(before, w, State(), left) && NoneNew(before, State(), left)
        invariant stuck == old(stuck) && failures == old(failures)
        invariant forall ip :: ip in w && ip !in left ==> !Elsewhere(w[ip], before.host, ip)
        decreases |left|
      {
        var ip :| ip in left;
        ghost var last := State();
        ok := AddOne(ip, w[ip]);
        GrownByOne(before, w, last, State(), left, ip, ok);
        if !ok { return; }
        left := left - {ip};
      }
      return true;
    }

    /** One wanted address: adopted, added, left to its owner, or refused. */
    method AddOne(ip: Ip, want: Want) returns (ok: bool)
      modifies this
      ensures OneAdded(old(State()), State(), ip, want, ok)
      ensures stuck == old(stuck) && old(failures) <= failures <= old(failures) + 1
      ensures ok <==> failures == old(failures) && !Elsewhere(want, old(host), ip)
    {
      if * {
        failures := failures + 1;
        return false;
      }
      if ip in host {
        if want.iface.Some? {
          if host[ip].iface != want.iface.value { return false; }
          if * {
            failures := failures + 1;
            return false;
          }
          var prefix: nat := *;
          added := added[ip := Placement(want.iface.value, prefix)];
        }
      } else {
        var place := ChoosePlace(want);
        if place.Some? {
          if * { place := None; }
        }
        if place.None? {
          failures := failures + 1;
          return false;
        }
        host := host[ip := place.value];
        added := added[ip := place.value];
      }
      return true;
    }

    /** The prefix for an interface, when it has one for the address family. */
    method InterfacePrefix() returns (prefix: Option<nat>)
    {
      if * { return None; }
      var n: nat := *;
      return Some(n);
    }

    /** The interface named for an address, or any whose subnet holds it. */
    method ChoosePlace(want: Want) returns (place: Option<Placement>)
      ensures place.Some? && want.iface.Some? ==> place.value.iface == want.iface.value
    {
      var prefix := InterfacePrefix();
      if prefix.None? { return None; }
      if want.iface.Some? { return Some(Placement(want.iface.value, prefix.value)); }
      var iface: string := *;
      return Some(Placement(iface, prefix.value));
    }
  }

  /** The pending addresses are on the host only if they were before. */
  ghost predicate NoneNew(a: Addresses, b: Addresses, pending: set<Ip>) {
    forall ip :: ip in b.host && ip !in a.host ==> ip !in pending
  }

  lemma GrownNot(a: Addresses, w: Wanted)
    ensures Grown(a, w, a, w.Keys)
  {
  }

  lemma GrownByOne(a: Addresses, w: Wanted, b: Addresses, c: Addresses, pending: set<Ip>, ip: Ip, ok: bool)
    requires pending <= w.Keys && ip in pending && Grown(a, w, b, pending) && OneAdded(b, c, ip, w[ip], ok)
    requires NoneNew(a, b, pending)
    ensures if ok then Grown(a, w, c, pending - {ip}) && NoneNew(a, c, pending - {ip}) else Grown(a, w, c, w.Keys) && c == b
    ensures Elsewhere(w[ip], b.host, ip) <==> Elsewhere(w[ip], a.host, ip)
  {
  }

  lemma MovedInTwo(a: Addresses, b: Addresses, c: Addresses, w: Wanted, tidy: bool)
    requires Grown(a, w, b, {}) && Removed(b, w, tidy, c)
    ensures Moved(a, w, true, tidy, c)
  {
  }

  lemma StillMisplaced(a: Addresses, b: Addresses, w: Wanted)
    requires Grown(a, w, b, w.Keys) && Misplaced(w, a.host)
    ensures Misplaced(w, b.host)
  {
    var ip :| ip in w && Elsewhere(w[ip], a.host, ip);
    assert Elsewhere(w[ip], b.host, ip);
  }

  lemma MovedInPart(a: Addresses, b: Addresses, w: Wanted)
    requires Grown(a, w, b, w.Keys)
    ensures Moved(a, w, false, true, b)
  {
  }

  /** An address the new configuration would adopt, and the old one does not want, though nobody added it. */
  ghost predicate AtRisk(a: Addresses, old_: Wanted, new_: Wanted, ip: Ip) {
    Adoptable(new_, a.host, ip) && ip !in old_ && ip !in a.added
  }

  /** A successful reconciliation leaves the addresses settled. */
  lemma MovedSettles(a: Addresses, b: Addresses, w: Wanted, tidy: bool)
    requires Moved(a, w, true, tidy, b)
    ensures Settled(b, w)
  {
  }

  /**
    Going to the new addresses, all the way or not, and then back: what the host has lost is what the attempt
    adopted and the old configuration does not want, and that was at risk. An attempt that went all the way
    loses every address at risk.
   */
  lemma BackAgain(a: Addresses, b: Addresses, c: Addresses, old_: Wanted, new_: Wanted, ok: bool, tidy: bool)
    requires Settled(a, old_)
    requires Moved(a, new_, ok, tidy, b) && Moved(b, old_, true, true, c)
    ensures c.host.Keys <= a.host.Keys && Settled(c, old_)
    ensures forall ip :: ip in a.host ==> (ip !in c.host <==> ip in b.added && ip !in old_)
    ensures forall ip :: ip in a.host && ip !in c.host ==> AtRisk(a, old_, new_, ip)
    ensures ok ==> forall ip :: ip in a.host ==> (ip !in c.host <==> AtRisk(a, old_, new_, ip))
  {
    MovedSettles(b, c, old_, true);
    forall ip | ip in a.host && ip !in c.host ensures AtRisk(a, old_, new_, ip) {
      assert ip !in old_;
      assert ip !in a.added;
      assert ip in b.host;
      assert ip in b.added;
    }
  }

  /** Some of the addresses at risk, whichever they are, can be just what a failed attempt and the way back cost. */
  lemma LossIsPossible(a: Addresses, old_: Wanted, new_: Wanted, lost: set<Ip>) returns (b: Addresses, c: Addresses)
    requires Settled(a, old_) && forall ip :: ip in lost ==> AtRisk(a, old_, new_, ip)
    ensures Moved(a, new_, false, true, b) && Moved(b, old_, true, true, c) && c.host == a.host - lost
  {
    b := Addresses(a.host, a.added + map ip | ip in lost && ip in a.host :: a.host[ip]);
    c := Addresses(a.host - lost, a.added);
  }

  /** The host is sure to keep its addresses exactly when none of them is at risk. */
  lemma KeepsExactly(a: Addresses, old_: Wanted, new_: Wanted)
    requires Settled(a, old_)
    ensures (forall b, c, ok, tidy :: Moved(a, new_, ok, tidy, b) && Moved(b, old_, true, true, c) ==> c.host.Keys == a.host.Keys)
            <==> forall ip :: ip in a.host ==> !AtRisk(a, old_, new_, ip)
  {
    if forall ip :: ip in a.host ==> !AtRisk(a, old_, new_, ip) {
      forall b, c, ok, tidy | Moved(a, new_, ok, tidy, b) && Moved(b, old_, true, true, c) ensures c.host.Keys == a.host.Keys {
        BackAgain(a, b, c, old_, new_, ok, tidy);
      }
    } else {
      var ip :| ip in a.host && AtRisk(a, old_, new_, ip);
      var b, c := LossIsPossible(a, old_, new_, {ip});
      assert ip !in c.host.Keys;
    }
  }

  /** An address put on eth1 by the operator is taken off when an attempt to manage it there is undone. */
  lemma AdoptionIsNotUndone()
    ensures var place := Placement("eth1", 24);
      var a := Addresses(map["10.0.0.9" := place], map[]);
      var b := Addresses(a.host, map["10.0.0.9" := place]);
      var c := Addresses(map[], map[]);
      var new_: Wanted := map["10.0.0.9" := Want(Some("eth1")), "10.0.0.7" := Want(None)];
      Settled(a, map[]) && Moved(a, new_, false, true, b) && Moved(b, map[], true, true, c)
      && c.host.Keys != a.host.Keys
  {
    assert "10.0.0.9" in map["10.0.0.9" := Placement("eth1", 24)];
  }
}
