/**
  Applying a configuration: stage the file, build a runtime, hand over the TLS frontend, reconcile sockets
  and addresses, publish, swap, rename. Every external action may fail, and each failure has its own way back.
 */
module ApplyTransaction {
  import opened Common
  import opened Listeners
  import opened ManagedIps

  /** A configuration, as far as the transaction looks into it. */
  datatype Config = Config(valid: bool, listeners: Topology, ips: Wanted, frontend: bool, rest: nat)

  datatype Runtime = Runtime(id: nat, cfg: Config)

  datatype Stage = Invalid | Build | Preflight | FrontendStop | Sockets | HostAddresses | FrontendStart

  /** clean: every compensating action succeeded; tidy: no address removal failed. */
  datatype ApplyResult = Applied(tidy: bool) | Failed(stage: Stage, clean: bool)

  datatype SaveStage = NotValid | NotStaged | NotApplied(why: Stage) | NotRenamed

  /** How far a failure had come: the host had the new addresses. */
  predicate Reached(at: SaveStage) { at.NotRenamed? || at == NotApplied(FrontendStart) }

  datatype SaveResult = Saved | Rejected(at: SaveStage, clean: bool)

  /** The control file of the external TLS frontend. A disabled publisher has nowhere to write. */
  class FrontendPublisher {
    const enabled: bool
    var spec: Option<Config>
    /** How often the file could not be written or the frontend did not come round. */
    ghost var failures: nat

    constructor (enabled: bool)
      ensures this.enabled == enabled && spec == None && failures == 0
    {
      this.enabled, spec, failures := enabled, None, 0;
    }

    /** Written to a temporary file and renamed: the control file changes as a whole or not at all. */
    method Publish(cfg: Config) returns (ok: bool)
      modifies this
      ensures spec == if ok && enabled then Some(cfg) else old(spec)
      ensures failures == old(failures) + (if ok then 0 else 1) && (!enabled ==> ok)
    {
      if !enabled { return true; }
      if * {
        failures := failures + 1;
        return false;
      }
      spec := Some(cfg);
      return true;
    }

    /** The frontend may report an error or stay silent after the file has changed. */
    method PublishAndWait(cfg: Config) returns (ok: bool)
      modifies this
      ensures ok && enabled ==> spec == Some(cfg)
      ensures !ok ==> spec == old(spec) || (enabled && spec == Some(cfg))
      ensures !enabled ==> spec == old(spec) && ok == !cfg.frontend && failures == old(failures)
      ensures enabled ==> failures == old(failures) + (if ok then 0 else 1)
    {
      if !enabled { return !cfg.frontend; }
      ok := Publish(cfg);
      if ok {
        if * {
          failures := failures + 1;
          ok := false;
        }
      }
    }

    method PreflightCheck(cfg: Config) returns (ok: bool)
      modifies this`failures
      ensures ok && cfg.frontend ==> enabled
      ensures failures == old(failures) + (if ok || !enabled then 0 else 1) && (!cfg.frontend ==> ok)
    {
      if !cfg.frontend { return true; }
      if !enabled { return false; }
      ok := *;
      if !ok { failures := failures + 1; }
    }
  }

  /** The host has gained no address and lost only ones at risk; all of those if the new addresses had been reached. */
  ghost predicate HostKept(before: Addresses, after: Addresses, old_: Wanted, new_: Wanted, reached: bool) {
    && after.host.Keys <= before.host.Keys
    && (forall ip :: ip in before.host && ip !in after.host ==> AtRisk(before, old_, new_, ip))
    && (reached ==> forall ip :: ip in before.host && AtRisk(before, old_, new_, ip) ==> ip !in after.host)
  }

  /** What keeps a configuration out although every external action would succeed. */
  ghost predicate Blocked(cfg: Config, oldCfg: Config, frontendEnabled: bool, host: map<Ip, Placement>) {
    !cfg.valid || (!frontendEnabled && (cfg.frontend || oldCfg.frontend)) || Misplaced(cfg.ips, host)
  }

  class Server {
    const listeners: ListenerManager
    const ips: IpManager
    const frontend: FrontendPublisher
    /** The first configuration is applied before there is a listener manager to reconcile. */
    var attached: bool
    var runtime: Option<Runtime>
    /** What the subsystems outside the transaction were last configured with. */
    var configured: Option<Config>
    var disk: Option<Config>
    var pushes: seq<Config>
    var nextRuntime: nat
    /** Runtimes built and not closed. */
    ghost var openRuntimes: set<nat>
    /** How often sockets were bound that the frontend still held, or the frontend was started before its sockets were there. */
    ghost var clashes: nat
    /** How often building a runtime, staging a file or renaming it has failed. */
    ghost var failures: nat

    constructor (listeners: ListenerManager, ips: IpManager, frontend: FrontendPublisher, disk: Option<Config>)
      requires listeners.Valid()
      ensures Valid() && runtime == None && this.disk == disk && pushes == [] && !attached
      ensures this.listeners == listeners && this.ips == ips && this.frontend == frontend
    {
      this.listeners, this.ips, this.frontend, this.disk := listeners, ips, frontend, disk;
      attached, runtime, configured, pushes, nextRuntime, openRuntimes, failures, clashes := false, None, None, [], 0, {}, 0, 0;
    }

    /** No runtime leaks: the only one still open is the one that serves. */
    ghost predicate Valid()
      reads this, listeners
    {
      && listeners.Valid()
      && openRuntimes == (if runtime.Some? then {runtime.value.id} else {})
      && (runtime.Some? ==> runtime.value.id < nextRuntime)
    }

    /** All the refusals of the outside world so far. */
    ghost function Troubles(): nat
      reads this, listeners, ips, frontend
    {
      failures + listeners.failures + ips.failures + frontend.failures
    }

    /** Sockets, addresses and frontend are as this configuration wants them. */
    ghost predicate InPlace(cfg: Config)
      reads this, listeners, ips, frontend
    {
      && (attached ==> Shape(listeners.live) == cfg.listeners)
      && Settled(ips.State(), cfg.ips)
      && (frontend.enabled ==> frontend.spec == Some(cfg))
    }

    /** What a failure goes back to: the running configuration, or the new one when nothing runs yet. */
    function Fallback(cfg: Config): Config reads this {
      if runtime.Some? then runtime.value.cfg else cfg
    }

    function Running(): Option<Topology> reads this {
      if runtime.Some? then Some(runtime.value.cfg.listeners) else None
    }

    method BuildRuntime(cfg: Config) returns (rt: Option<Runtime>)
      modifies this`nextRuntime, this`openRuntimes, this`failures
      ensures failures == old(failures) + (if rt.None? then 1 else 0)
      ensures rt.None? ==> openRuntimes == old(openRuntimes) && nextRuntime == old(nextRuntime)
      ensures rt.Some? ==> rt.value == Runtime(old(nextRuntime), cfg) && nextRuntime == old(nextRuntime) + 1
                           && openRuntimes == old(openRuntimes) + {old(nextRuntime)}
    {
      if * {
        failures := failures + 1;
        return None;
      }
      rt := Some(Runtime(nextRuntime, cfg));
      openRuntimes := openRuntimes + {nextRuntime};
      nextRuntime := nextRuntime + 1;
    }

    method CloseRuntime(rt: Runtime)
      modifies this`openRuntimes
      ensures openRuntimes == old(openRuntimes) - {rt.id}
    {
      openRuntimes := openRuntimes - {rt.id};
    }

    /** The frontend has the public port, and this configuration wants the process to have it. */
    ghost predicate HeldByFrontend(cfg: Config)
      reads this, frontend
    {
      attached && frontend.enabled && frontend.spec.Some? && frontend.spec.value.frontend && !cfg.frontend
    }

    /** The sockets the frontend hands its traffic to are not those of this configuration. */
    ghost predicate NoSocketsYet(cfg: Config)
      reads this, listeners
    {
      attached && cfg.frontend && Shape(listeners.live) != cfg.listeners
    }

    /** Every change of the control file that is waited for. */
    method TellFrontend(cfg: Config) returns (ok: bool)
      modifies frontend, this`clashes
      ensures ok && frontend.enabled ==> frontend.spec == Some(cfg)
      ensures !ok ==> frontend.spec == old(frontend.spec) || (frontend.enabled && frontend.spec == Some(cfg))
      ensures !frontend.enabled ==> frontend.spec == old(frontend.spec) && ok == !cfg.frontend && frontend.failures == old(frontend.failures)
      ensures frontend.enabled ==> frontend.failures == old(frontend.failures) + (if ok then 0 else 1)
      ensures clashes == old(clashes) + (if NoSocketsYet(cfg) then 1 else 0)
    {
      if NoSocketsYet(cfg) { clashes := clashes + 1; }
      ok := frontend.PublishAndWait(cfg);
    }

    method ReconcileSockets(cfg: Config) returns (outcome: Outcome)
      requires listeners.Valid()
      modifies listeners, this`clashes
      ensures clashes == old(clashes) + (if HeldByFrontend(cfg) then 1 else 0)
      ensures listeners.Valid() && listeners.failures >= old(listeners.failures)
      ensures outcome.Reconciled? <==> listeners.failures == old(listeners.failures)
      ensures outcome.RollbackFailed? ==> listeners.failures >= old(listeners.failures) + 2
      ensures outcome.Reconciled? && attached ==> Shape(listeners.live) == cfg.listeners
      ensures Running() == Some(Shape(old(listeners.live))) && !outcome.RollbackFailed? && !outcome.Reconciled?
              ==> Shape(listeners.live) == Shape(old(listeners.live))
    {
      if HeldByFrontend(cfg) { clashes := clashes + 1; }
      if !attached { return Reconciled; }
      outcome := listeners.Reconcile(cfg.listeners, Running());
    }

    /** The old frontend is restored only after the old sockets are back. */
    method RestoreFrontend(published: bool, oldCfg: Config) returns (clean: bool)
      modifies frontend, this`clashes
      ensures clashes == old(clashes) + (if published && frontend.enabled && NoSocketsYet(oldCfg) then 1 else 0)
      ensures frontend.failures == old(frontend.failures) + (if clean then 0 else 1)
      ensures clean && frontend.enabled && published && oldCfg.frontend ==> frontend.spec == Some(oldCfg)
      ensures !(frontend.enabled && published && oldCfg.frontend) ==> frontend.spec == old(frontend.spec)
    {
      clean := true;
      if published && oldCfg.frontend && frontend.enabled {
        clean := TellFrontend(oldCfg);
      }
    }

    /** Undoes what has been done to frontend, addresses and sockets. */
    method RollbackNetwork(published: bool, newFrontend: bool, oldCfg: Config) returns (clean: bool)
      requires listeners.Valid() && (published ==> oldCfg.frontend || newFrontend)
      modifies listeners, ips, frontend, this`clashes
      ensures clean && (published || !old(HeldByFrontend(oldCfg))) ==> clashes == old(clashes)
      ensures listeners.Valid() && Troubles() >= old(Troubles()) && ips.stuck >= old(ips.stuck)
      ensures !clean ==> Troubles() > old(Troubles()) || ips.stuck > old(ips.stuck) || Misplaced(oldCfg.ips, ips.host)
      ensures clean ==> (attached ==> Shape(listeners.live) == oldCfg.listeners) && Moved(old(ips.State()), oldCfg.ips, true, true, ips.State())
      ensures clean && frontend.enabled ==> frontend.spec == if published then Some(oldCfg) else old(frontend.spec)
    {
      var stopped := true;
      if published && frontend.enabled && !oldCfg.frontend && newFrontend {
        stopped := TellFrontend(oldCfg);
      }
      var ok, tidy := ips.Reconcile(oldCfg.ips);
      var outcome := ReconcileSockets(oldCfg);
      var restored := RestoreFrontend(published, oldCfg);
      clean := stopped && ok && tidy && outcome.Reconciled? && restored;
    }

    /** Moves the network over. Nothing has been swapped yet, so any failure is undone here. */
    method MoveNetwork(cfg: Config) returns (r: ApplyResult)
      requires listeners.Valid() && (cfg.frontend ==> frontend.enabled)
      modifies listeners, ips, frontend, this`clashes
      ensures listeners.Valid()
      ensures (r.Applied? || r.clean) && runtime.Some? && old(InPlace(runtime.value.cfg)) ==> clashes == old(clashes)
      ensures r.Applied? <==> Troubles() == old(Troubles()) && !(Fallback(cfg).frontend && !frontend.enabled)
                              && !Misplaced(cfg.ips, old(ips.host))
      ensures Troubles() >= old(Troubles()) && ips.stuck >= old(ips.stuck)
      ensures r.Failed? && !r.clean ==> Troubles() >= old(Troubles()) + 2 || ips.stuck > old(ips.stuck)
                                        || Misplaced(cfg.ips, old(ips.host)) || Misplaced(Fallback(cfg).ips, ips.host)
      ensures r.Applied? ==> InPlace(cfg) && Moved(old(ips.State()), cfg.ips, true, r.tidy, ips.State())
      ensures r.Failed? && r.clean && runtime.Some? && old(InPlace(runtime.value.cfg))
              ==> InPlace(runtime.value.cfg) && HostKept(old(ips.State()), ips.State(), runtime.value.cfg.ips, cfg.ips, r.stage == FrontendStart)
      ensures r.Failed? && r.stage !in {HostAddresses, FrontendStart} ==> ips.State() == old(ips.State())
      ensures r.Failed? ==> r.stage in {FrontendStop, Sockets, HostAddresses, FrontendStart}
    {
      hide Moved, Settled, HostKept, Misplaced;
      ghost var before := ips.State();
      var oldCfg := Fallback(cfg);
      NothingLost(before, oldCfg.ips, cfg.ips);
      var published := false;
      if oldCfg.frontend && !cfg.frontend {
        if !frontend.enabled { return Failed(FrontendStop, true); }
        var stopped := TellFrontend(cfg);
        if !stopped {
          var back := TellFrontend(oldCfg);
          return Failed(FrontendStop, back);
        }
        published := true;
      }
      var outcome := ReconcileSockets(cfg);
      if !outcome.Reconciled? {
        var restored := RestoreFrontend(published, oldCfg);
        return Failed(Sockets, restored && !outcome.RollbackFailed?);
      }
      var ok, tidy := ips.Reconcile(cfg.ips);
      ghost var middle := ips.State();
      if !ok {
        var clean := RollbackNetwork(published, cfg.frontend, oldCfg);
        WayBack(before, middle, ips.State(), oldCfg.ips, cfg.ips, ok, tidy, clean);
        return Failed(HostAddresses, clean);
      }
      if !published {
        if cfg.frontend {
          ok := TellFrontend(cfg);
          published := true;
        } else {
          ok := frontend.Publish(cfg);
        }
        if !ok {
          var clean := RollbackNetwork(published, cfg.frontend, oldCfg);
          WayBack(before, middle, ips.State(), oldCfg.ips, cfg.ips, true, tidy, clean);
          return Failed(FrontendStart, clean);
        }
      }
      MovedSettles(before, middle, cfg.ips, tidy);
      return Applied(tidy);
    }

    /** Applies a configuration to the running process; fromSync plays no part here. */
    method ApplyEx(cfg: Config) returns (r: ApplyResult)
      requires Valid()
      modifies this`runtime, this`configured, this`nextRuntime, this`openRuntimes, this`failures, this`clashes, listeners, ips, frontend
      ensures Valid()
      ensures (r.Applied? || r.clean) && old(runtime).Some? && old(InPlace(runtime.value.cfg)) ==> clashes == old(clashes)
      ensures r.Applied? <==> Troubles() == old(Troubles()) && !Blocked(cfg, old(Fallback(cfg)), frontend.enabled, old(ips.host))
      ensures Troubles() >= old(Troubles()) && ips.stuck >= old(ips.stuck)
      ensures r.Failed? && !r.clean ==> Troubles() >= old(Troubles()) + 2 || ips.stuck > old(ips.stuck)
                                        || Misplaced(cfg.ips, old(ips.host)) || Misplaced(old(Fallback(cfg)).ips, ips.host)
      ensures r.Applied? ==> runtime.Some? && runtime.value.cfg == cfg && InPlace(cfg) && configured == Some(cfg)
                             && Moved(old(ips.State()), cfg.ips, true, r.tidy, ips.State())
      ensures r.Failed? ==> runtime == old(runtime) && configured == old(configured)
      ensures r.Failed? && r.clean && old(runtime).Some? && old(InPlace(runtime.value.cfg))
              ==> InPlace(runtime.value.cfg) && HostKept(old(ips.State()), ips.State(), runtime.value.cfg.ips, cfg.ips, r.stage == FrontendStart)
      ensures r.Failed? && r.stage !in {HostAddresses, FrontendStart} ==> ips.State() == old(ips.State())
    {
      if !cfg.valid { return Failed(Invalid, true); }
      var built := BuildRuntime(cfg);
      if built.None? { return Failed(Build, true); }
      var rt := built.value;
      var ready := frontend.PreflightCheck(cfg);
      if !ready {
        CloseRuntime(rt);
        return Failed(Preflight, true);
      }
      r := MoveNetwork(cfg);
      if r.Failed? {
        CloseRuntime(rt);
        return;
      }
      var replaced := runtime;
      runtime := Some(rt);
      if replaced.Some? { CloseRuntime(replaced.value); }
      configured := Some(cfg);
    }

    /** Opens the sockets of the configuration applied at boot; from now on every apply reconciles them. */
    method Attach() returns (failed: set<Address>)
      requires Valid() && !attached && runtime.Some? && listeners.live == map[]
      modifies this`attached, listeners
      ensures Valid() && attached && failed <= runtime.value.cfg.listeners.Keys
      ensures failed == {} && old(InPlace(runtime.value.cfg)) ==> InPlace(runtime.value.cfg)
    {
      failed := listeners.StartAll(runtime.value.cfg.listeners);
      attached := true;
      SameShape(listeners.live, runtime.value.cfg.listeners);
    }

    /** A temporary file beside the configuration; nothing visible changes. */
    method StageConfig() returns (ok: bool)
      modifies this`failures
      ensures failures == old(failures) + (if ok then 0 else 1)
    {
      ok := *;
      if !ok { failures := failures + 1; }
    }

    /** The rename; synchronising the directory afterwards may fail too, which is only logged. */
    method Commit(cfg: Config) returns (renamed: bool)
      modifies this`disk, this`failures
      ensures disk == if renamed then Some(cfg) else old(disk)
      ensures failures == old(failures) + (if renamed then 0 else 1)
    {
      renamed := *;
      if renamed { disk := Some(cfg); } else { failures := failures + 1; }
    }

    /** Stage, apply, rename, push to the peer; the peer is told only once the file is in place. */
    method ApplyPersisted(cfg: Config, fromSync: bool) returns (r: SaveResult)
      requires Valid()
      modifies this, listeners, ips, frontend
      ensures Valid() && attached == old(attached)
      ensures r.Saved? ==> runtime.Some? && runtime.value.cfg == cfg && disk == Some(cfg) && InPlace(cfg)
      ensures r.Saved? ==> pushes == old(pushes) + (if fromSync then [] else [cfg])
      ensures r.Saved? <==> Troubles() == old(Troubles()) && !Blocked(cfg, old(Fallback(cfg)), frontend.enabled, old(ips.host))
      ensures r.Rejected? ==> disk == old(disk) && pushes == old(pushes)
      ensures r.Rejected? && r.clean && old(runtime).Some? ==> runtime.Some? && runtime.value.cfg == old(runtime.value.cfg)
      ensures r.Rejected? && r.clean && old(runtime).Some? && old(InPlace(runtime.value.cfg))
              ==> InPlace(runtime.value.cfg) && HostKept(old(ips.State()), ips.State(), runtime.value.cfg.ips, cfg.ips, Reached(r.at))
      ensures old(runtime).Some? && old(disk) == Some(old(runtime.value.cfg)) && (r.Saved? || r.clean)
              ==> runtime.Some? && disk == Some(runtime.value.cfg)
      ensures (r.Saved? || r.clean) && old(runtime).Some? && old(InPlace(runtime.value.cfg)) ==> clashes == old(clashes)
      ensures r.Rejected? && r.clean && old(runtime).None? && r.at.NotRenamed? ==> runtime.Some? && runtime.value.cfg == cfg
    {
      ghost var before := ips.State();
      if !cfg.valid { return Rejected(NotValid, true); }
      var staged := StageConfig();
      if !staged { return Rejected(NotStaged, true); }
      var oldCfg := Fallback(cfg);
      var applied := ApplyEx(cfg);
      if applied.Failed? { return Rejected(NotApplied(applied.stage), applied.clean); }
      ghost var middle := ips.State();
      var renamed := Commit(cfg);
      if !renamed {
        var back := ApplyEx(oldCfg);
        WayBack(before, middle, ips.State(), oldCfg.ips, cfg.ips, true, applied.tidy, back.Applied? && back.tidy);
        return Rejected(NotRenamed, back.Applied? && back.tidy);
      }
      if !fromSync { pushes := pushes + [cfg]; }
      return Saved;
    }

    /** A change to the running configuration; it starts from the newest one, so no other change is lost. */
    method MutatePersisted(fromSync: bool, mutate: Config -> Option<Config>) returns (saved: Option<Config>)
      requires Valid()
      modifies this, listeners, ips, frontend
      ensures Valid()
      ensures saved.Some? ==> old(runtime).Some? && saved == mutate(old(runtime.value.cfg))
                              && disk == saved && runtime.Some? && Some(runtime.value.cfg) == saved && InPlace(saved.value)
      ensures saved.None? ==> disk == old(disk) && pushes == old(pushes)
    {
      if runtime.None? { return None; }
      var next := mutate(runtime.value.cfg);
      if next.None? { return None; }
      var r := ApplyPersisted(next.value, fromSync);
      return if r.Saved? then next else None;
    }
  }

  lemma NothingLost(a: Addresses, old_: Wanted, new_: Wanted)
    ensures HostKept(a, a, old_, new_, false)
  {
  }

  /** The addresses after an attempt and its way back, when that was clean. */
  lemma WayBack(a: Addresses, b: Addresses, c: Addresses, old_: Wanted, new_: Wanted, ok: bool, tidy: bool, clean: bool)
    requires Moved(a, new_, ok, tidy, b)
    requires clean ==> Moved(b, old_, true, true, c)
    ensures clean && Settled(a, old_) ==> HostKept(a, c, old_, new_, ok) && Settled(c, old_)
  {
    if clean && Settled(a, old_) {
      BackAgain(a, b, c, old_, new_, ok, tidy);
    }
  }
}
