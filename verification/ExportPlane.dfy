/**
  The detection export plane: producers offer detections to a bounded queue, one worker journals them, and
  whatever is lost is marked as a gap in the coverage. Producers, worker, crashes and restarts interleave.
 */
module ExportPlane {
  import opened Common
  import M = OwiModel
  import S = OwiStore

  type Ticket = nat

  datatype Phase = Running | Draining | Stopped

  /**
    drops lists the detections that found the queue full, the first reported of them accounted for; marks
    tells, for a detection covered by a gap mark, when the mark standing at that moment was made.
   */
  datatype Plane = Plane(
    phase: Phase, accepting: bool, capacity: nat, offered: set<Ticket>, inflight: set<Ticket>, queue: seq<Ticket>,
    drops: seq<Ticket>, reported: nat, journaled: set<Ticket>, marks: map<Ticket, int>,
    gapAt: Option<int>, clean: bool, fileGap: Option<int>, fileClean: bool, clock: int)

  // ------------------------------------------------------------ the gap mark

  /** A mark that stands keeps its first time. */
  function Marked(gap: Option<int>, now: int): Option<int> { if gap.None? then Some(now) else gap }

  /** A mark is lifted thirty days after it was made. */
  function Lifted(gap: Option<int>, now: int): Option<int> {
    if gap.Some? && now - gap.value >= M.HISTORY_RETAIN then None else gap
  }

  /** A process that finds no clean shutdown marks a gap of its own. */
  function Reopened(gap: Option<int>, clean: bool, now: int): Option<int> { if clean then gap else Some(now) }

  predicate ReportsGap(gap: Option<int>, now: int) { gap.Some? && now - gap.value < M.HISTORY_RETAIN }

  /** These are the moves that the durable store makes. */
  lemma TheStoreMovesSo(s: S.Store, f: M.State, now: int)
    ensures S.DropMarked(s, now).mem.gapAt == Marked(s.mem.gapAt, now)
    ensures M.Cleaned(f, now).gapAt == Lifted(f.gapAt, now)
    ensures S.Loaded(Some(f), now).gapAt == Reopened(f.gapAt, f.cleanShutdown, now) && !S.Loaded(Some(f), now).cleanShutdown
    ensures S.CoverageOf(f, M.Detection, now) == S.Gap <==> ReportsGap(f.gapAt, now)
  {
  }

  // ------------------------------------------------------------ steps

  datatype Step =
    | Offer(t: Ticket)
    | Push(t: Ticket)
    | Journal(at: int)
    | Fail(at: int, writeOk: bool)
    | Flush(writeOk: bool)
    | Tidy(at: int, writeOk: bool)
    | StopAccepting
    | BeginDrain
    | Finish(writeOk: bool)
    | Close(writeOk: bool)
    | Restart
    | Wait(now: int)

  predicate Enabled(p: Plane, step: Step) {
    match step
    case Offer(t) => p.accepting && t !in p.offered
    case Push(t) => t in p.inflight
    case Journal(at) => p.phase != Stopped && p.queue != [] && at <= p.clock
    case Fail(at, _) => p.phase != Stopped && p.queue != [] && at <= p.clock
    case Flush(_) => p.phase == Running
    case Tidy(at, _) => at <= p.clock
    case StopAccepting => true
    case BeginDrain => p.phase == Running && !p.accepting
    case Finish(_) => p.phase == Draining && p.queue == []
    case Close(_) => p.phase == Stopped
    case Restart => true
    case Wait(now) => now >= p.clock
  }

  function Saved(p: Plane, writeOk: bool): Plane {
    if writeOk then p.(fileGap := p.gapAt, fileClean := p.clean) else p
  }

  /** Covers these detections by the mark that stands, or by a new one. */
  function Covered(p: Plane, ts: set<Ticket>): Plane {
    var gap := Marked(p.gapAt, p.clock);
    p.(gapAt := gap, marks := p.marks + map t | t in ts :: gap.value)
  }

  function Unreported(p: Plane): set<Ticket> { set i | p.reported <= i < |p.drops| :: p.drops[i] }

  function Flushed(p: Plane, writeOk: bool): Plane {
    if |p.drops| > p.reported then Saved(Covered(p, Unreported(p)).(reported := |p.drops|), writeOk) else p
  }

  function Queued(p: Plane): set<Ticket> { set i | 0 <= i < |p.queue| :: p.queue[i] }

  /** What a crash takes with it: everything not yet journaled or accounted for. */
  function AtRisk(p: Plane): set<Ticket> { p.inflight + Queued(p) + Unreported(p) }

  function Restarted(p: Plane): Plane {
    var gap := Lifted(Reopened(p.fileGap, p.fileClean, p.clock), p.clock);
    var lost := if p.fileClean then map[] else map t | t in AtRisk(p) :: p.clock;
    p.(phase := Running, accepting := true, inflight := {}, queue := [], drops := [], reported := 0,
       marks := p.marks + lost, gapAt := gap, clean := false, fileGap := gap, fileClean := false)
  }

  function After(p: Plane, step: Step): Plane
    requires Enabled(p, step)
  {
    match step
    case Offer(t) => p.(offered := p.offered + {t}, inflight := p.inflight + {t})
    case Push(t) =>
      var q := p.(inflight := p.inflight - {t});
      if |p.queue| < p.capacity then q.(queue := p.queue + [t]) else q.(drops := p.drops + [t])
    case Journal(at) =>
      Saved(p.(queue := p.queue[1..], journaled := p.journaled + {p.queue[0]}, gapAt := Lifted(p.gapAt, at)), true)
    case Fail(at, writeOk) =>
      Saved(Covered(p.(queue := p.queue[1..], gapAt := Lifted(p.gapAt, at)), {p.queue[0]}), writeOk)
    case Flush(writeOk) => Flushed(p, writeOk)
    case Tidy(at, writeOk) => Saved(p.(gapAt := Lifted(p.gapAt, at)), writeOk)
    case StopAccepting => p.(accepting := false)
    case BeginDrain => p.(phase := Draining)
    case Finish(writeOk) => Flushed(p, writeOk).(phase := Stopped)
    case Close(writeOk) => Saved(p.(clean := true), writeOk)
    case Restart => Restarted(p)
    case Wait(now) => p.(clock := now)
  }

  /** The worker never ends its drain under a producer that is between its look at accepting and its push. */
  predicate Undisturbed(p: Plane, step: Step) { step.Finish? ==> p.inflight == {} }

  ghost predicate Run(p: Plane, steps: seq<Step>)
    decreases |steps|
  {
    steps == [] || (Enabled(p, steps[0]) && Undisturbed(p, steps[0]) && Run(After(p, steps[0]), steps[1..]))
  }

  function Final(p: Plane, steps: seq<Step>): Plane
    requires Run(p, steps)
    decreases |steps|
  {
    if steps == [] then p else Final(After(p, steps[0]), steps[1..])
  }

  // ------------------------------------------------------------ no silent loss

  /** A mark made at that time still stands, or has stood for thirty days. */
  predicate Stands(gap: Option<int>, g: int, clock: int) {
    (gap.Some? && gap.value >= g) || clock - g >= M.HISTORY_RETAIN
  }

  ghost predicate Inv(p: Plane) {
    && p.reported <= |p.drops|
    && p.offered == AtRisk(p) + p.journaled + p.marks.Keys
    && (forall t :: t in p.marks ==> p.marks[t] <= p.clock && Stands(p.gapAt, p.marks[t], p.clock))
    && (p.gapAt.Some? ==> p.gapAt.value <= p.clock) && (p.fileGap.Some? ==> p.fileGap.value <= p.clock)
    && (p.phase != Running ==> !p.accepting)
    && (p.phase == Stopped ==> AtRisk(p) == {})
    && (p.clean || p.fileClean ==> p.phase == Stopped)
    && (p.fileClean ==> forall t :: t in p.marks ==> Stands(p.fileGap, p.marks[t], p.clock))
    && (p.fileClean && p.gapAt.Some? ==> p.fileGap == p.gapAt)
  }

  lemma LiftStands(gap: Option<int>, g: int, clock: int, at: int)
    requires Stands(gap, g, clock) && at <= clock
    ensures Stands(Lifted(gap, at), g, clock)
  {
  }

  lemma TakenFromQueue(p: Plane)
    requires p.queue != []
    ensures Queued(p) == {p.queue[0]} + Queued(p.(queue := p.queue[1..]))
  {
    var q := p.(queue := p.queue[1..]);
    forall t | t in Queued(p) ensures t in {p.queue[0]} + Queued(q) {
      var i :| 0 <= i < |p.queue| && p.queue[i] == t;
      if i > 0 {
        assert q.queue[i - 1] == t;
      }
    }
    forall t | t in Queued(q) ensures t in Queued(p) {
      var i :| 0 <= i < |q.queue| && q.queue[i] == t;
      assert p.queue[i + 1] == t;
    }
  }

  lemma SameQueues(p: Plane, q: Plane)
    ensures p.queue == q.queue ==> Queued(p) == Queued(q)
    ensures p.drops == q.drops && p.reported == q.reported ==> Unreported(p) == Unreported(q)
  {
  }

  lemma QueueGrows(p: Plane, n: Plane, t: Ticket)
    requires n.queue == p.queue + [t]
    ensures Queued(n) == Queued(p) + {t}
  {
    assert n.queue[|p.queue|] == t;
    assert forall i :: 0 <= i < |p.queue| ==> n.queue[i] == p.queue[i];
  }

  lemma DropsGrow(p: Plane, n: Plane, t: Ticket)
    requires n.drops == p.drops + [t] && n.reported == p.reported <= |p.drops|
    ensures Unreported(n) == Unreported(p) + {t}
  {
    assert n.drops[|p.drops|] == t;
    assert forall i :: 0 <= i < |p.drops| ==> n.drops[i] == p.drops[i];
  }

  lemma PushedRisk(p: Plane, t: Ticket)
    requires t in p.inflight && p.reported <= |p.drops|
    ensures AtRisk(After(p, Push(t))) == AtRisk(p)
  {
    var n := After(p, Push(t));
    SameQueues(n, p);
    hide Queued, Unreported;
    if |p.queue| < p.capacity {
      QueueGrows(p, n, t);
    } else {
      DropsGrow(p, n, t);
    }
  }

  lemma PushedInv(p: Plane, t: Ticket)
    requires Inv(p) && t in p.inflight
    ensures Inv(After(p, Push(t)))
  {
    PushedRisk(p, t);
    RiskyIsStopped(p, t);
    hide AtRisk, Stands;
  }

  lemma RiskyIsStopped(p: Plane, t: Ticket)
    requires Inv(p) && t in p.inflight
    ensures p.phase != Stopped
  {
    assert t in AtRisk(p);
  }

  lemma JournaledInv(p: Plane, at: int)
    requires Inv(p) && Enabled(p, Journal(at))
    ensures Inv(After(p, Journal(at)))
  {
    TakenFromQueue(p);
    var n := After(p, Journal(at));
    assert Queued(n) == Queued(p.(queue := p.queue[1..]));
    assert Unreported(n) == Unreported(p);
    forall t | t in n.marks ensures Stands(n.gapAt, n.marks[t], n.clock) {
      LiftStands(p.gapAt, p.marks[t], p.clock, at);
    }
  }

  /** Covering some detections keeps every mark. */
  lemma CoveredMarks(p: Plane, ts: set<Ticket>)
    requires p.gapAt.Some? ==> p.gapAt.value <= p.clock
    requires forall t :: t in p.marks ==> p.marks[t] <= p.clock && Stands(p.gapAt, p.marks[t], p.clock)
    ensures var n := Covered(p, ts);
      && n.marks.Keys == p.marks.Keys + ts && n.gapAt.Some? && n.gapAt.value <= p.clock
      && forall t :: t in n.marks ==> n.marks[t] <= p.clock && Stands(n.gapAt, n.marks[t], p.clock)
  {
  }

  /** A worker holds one detection that is neither journaled nor covered. */
  ghost predicate InHand(p: Plane, t: Ticket) {
    && p.phase != Stopped && !p.clean && !p.fileClean && (p.phase != Running ==> !p.accepting) && p.reported <= |p.drops|
    && p.offered == AtRisk(p) + {t} + p.journaled + p.marks.Keys
    && (forall u :: u in p.marks ==> p.marks[u] <= p.clock && Stands(p.gapAt, p.marks[u], p.clock))
    && (p.gapAt.Some? ==> p.gapAt.value <= p.clock) && (p.fileGap.Some? ==> p.fileGap.value <= p.clock)
  }

  lemma TakenInHand(p: Plane, at: int)
    requires Inv(p) && p.phase != Stopped && p.queue != [] && at <= p.clock
    ensures InHand(p.(queue := p.queue[1..], gapAt := Lifted(p.gapAt, at)), p.queue[0])
  {
    TakenFromQueue(p);
    var n := p.(queue := p.queue[1..], gapAt := Lifted(p.gapAt, at));
    SameQueues(n, p.(queue := p.queue[1..]));
    SameQueues(n, p);
    hide Queued, Unreported;
    forall t | t in n.marks ensures Stands(n.gapAt, n.marks[t], n.clock) {
      LiftStands(p.gapAt, p.marks[t], p.clock, at);
    }
  }

  lemma CoveredInv(p: Plane, t: Ticket, writeOk: bool)
    requires InHand(p, t)
    ensures Inv(Saved(Covered(p, {t}), writeOk))
  {
    CoveredMarks(p, {t});
    SameQueues(Saved(Covered(p, {t}), writeOk), p);
    hide Queued, Unreported, Stands, Marked;
  }

  lemma FailedInv(p: Plane, at: int, writeOk: bool)
    requires Inv(p) && Enabled(p, Fail(at, writeOk))
    ensures Inv(After(p, Fail(at, writeOk)))
  {
    hide Inv, InHand;
    TakenInHand(p, at);
    CoveredInv(p.(queue := p.queue[1..], gapAt := Lifted(p.gapAt, at)), p.queue[0], writeOk);
  }

  lemma FlushedInv(p: Plane, writeOk: bool)
    requires Inv(p) && p.phase != Stopped
    ensures Inv(Flushed(p, writeOk)) && Unreported(Flushed(p, writeOk)) == {} && Flushed(p, writeOk).phase == p.phase
    ensures Flushed(p, writeOk).queue == p.queue && Flushed(p, writeOk).inflight == p.inflight
  {
    CoveredMarks(p, Unreported(p));
    var n := Flushed(p, writeOk);
    assert Queued(n) == Queued(p);
    assert Unreported(n) == {};
  }

  lemma TidiedInv(p: Plane, at: int, writeOk: bool)
    requires Inv(p) && at <= p.clock
    ensures Inv(After(p, Tidy(at, writeOk)))
  {
    var n := After(p, Tidy(at, writeOk));
    assert AtRisk(n) == AtRisk(p);
    forall t | t in p.marks ensures Stands(n.gapAt, p.marks[t], n.clock) {
      LiftStands(p.gapAt, p.marks[t], p.clock, at);
    }
  }

  lemma RestartedInv(p: Plane)
    requires Inv(p)
    ensures Inv(Restarted(p))
  {
    var n := Restarted(p);
    assert AtRisk(n) == {};
    assert p.fileClean ==> AtRisk(p) == {};
    assert n.marks.Keys == p.marks.Keys + AtRisk(p);
    forall t | t in n.marks ensures n.marks[t] <= n.clock && Stands(n.gapAt, n.marks[t], n.clock) {
      if p.fileClean {
        LiftStands(p.fileGap, p.marks[t], p.clock, p.clock);
      }
    }
  }

  lemma WaitedInv(p: Plane, now: int)
    requires Inv(p) && now >= p.clock
    ensures Inv(p.(clock := now))
  {
    assert AtRisk(p.(clock := now)) == AtRisk(p);
  }

  lemma StepKeepsInv(p: Plane, step: Step)
    requires Inv(p) && Enabled(p, step) && Undisturbed(p, step)
    ensures Inv(After(p, step))
  {
    match step
    case Offer(t) => OfferedInv(p, t);
    case Push(t) => PushedInv(p, t);
    case Journal(at) => JournaledInv(p, at);
    case Fail(at, writeOk) => FailedInv(p, at, writeOk);
    case Flush(writeOk) => FlushedInv(p, writeOk);
    case Tidy(at, writeOk) => TidiedInv(p, at, writeOk);
    case StopAccepting => SameRisk(p, p.(accepting := false));
    case BeginDrain => SameRisk(p, p.(phase := Draining));
    case Finish(writeOk) => FinishedInv(p, writeOk);
    case Close(writeOk) => SameRisk(p, After(p, step));
    case Restart => RestartedInv(p);
    case Wait(now) => WaitedInv(p, now);
  }

  lemma OfferedInv(p: Plane, t: Ticket)
    requires Inv(p) && Enabled(p, Offer(t))
    ensures Inv(After(p, Offer(t)))
  {
    var n := After(p, Offer(t));
    assert Queued(n) == Queued(p) && Unreported(n) == Unreported(p);
  }

  lemma SameRisk(p: Plane, n: Plane)
    requires n.inflight == p.inflight && n.queue == p.queue && n.drops == p.drops && n.reported == p.reported
    ensures AtRisk(n) == AtRisk(p)
  {
    assert Queued(n) == Queued(p) && Unreported(n) == Unreported(p);
  }

  lemma FinishedInv(p: Plane, writeOk: bool)
    requires Inv(p) && Enabled(p, Finish(writeOk)) && p.inflight == {}
    ensures Inv(After(p, Finish(writeOk)))
  {
    FlushedInv(p, writeOk);
    var f := Flushed(p, writeOk);
    SameRisk(f, f.(phase := Stopped));
    assert Queued(f) == {};
  }

  lemma {:induction false} RunKeepsInv(p: Plane, steps: seq<Step>)
    requires Inv(p) && Run(p, steps)
    ensures Inv(Final(p, steps))
    decreases |steps|
  {
    if steps != [] {
      StepKeepsInv(p, steps[0]);
      RunKeepsInv(After(p, steps[0]), steps[1..]);
    }
  }

  /**
    Every detection offered is on its way to the queue, in it, among the drops not yet reported, journaled,
    or covered by a mark; a covered one makes the coverage say GAP until thirty days after that mark.
   */
  lemma NoSilentLoss(p: Plane, steps: seq<Step>, t: Ticket)
    requires Inv(p) && Run(p, steps) && t in Final(p, steps).offered
    ensures var q := Final(p, steps);
      && (t in AtRisk(q) || t in q.journaled || t in q.marks)
      && (t in q.marks && q.clock < q.marks[t] + M.HISTORY_RETAIN ==> ReportsGap(q.gapAt, q.clock))
  {
    RunKeepsInv(p, steps);
  }

  /** Once the worker has drained, or a new process has started, nothing is left at risk: every loss is covered. */
  lemma NothingAtRisk(p: Plane, steps: seq<Step>)
    requires Inv(p) && Run(p, steps)
    ensures var q := Final(p, steps);
      (q.phase == Stopped ==> q.offered == q.journaled + q.marks.Keys)
      && Restarted(q).offered == Restarted(q).journaled + Restarted(q).marks.Keys
  {
    RunKeepsInv(p, steps);
    var q := Final(p, steps);
    RestartedInv(q);
    assert AtRisk(Restarted(q)) == {};
  }

  // ------------------------------------------------------------ when a loss is reported, and how long

  /** A step of the worker that covers at least one detection by a mark. */
  predicate Covers(p: Plane, step: Step) {
    match step
    case Fail(_, _) => true
    case Flush(_) => |p.drops| > p.reported
    case Finish(_) => |p.drops| > p.reported
    case _ => false
  }

  /** The mark that stands when such a step comes to make its own: a failed append has tidied up before, a flush has not. */
  function Standing(p: Plane, step: Step): Option<int> {
    if step.Fail? then Lifted(p.gapAt, step.at) else p.gapAt
  }

  /** Whatever happens, the coverage says GAP until that time. */
  ghost predicate ReportedUntil(p: Plane, until: int) {
    forall steps :: Run(p, steps) && Final(p, steps).clock < until ==> ReportsGap(Final(p, steps).gapAt, Final(p, steps).clock)
  }

  lemma CoverMarks(p: Plane, step: Step)
    requires Enabled(p, step) && Covers(p, step)
    ensures After(p, step).gapAt == Marked(Standing(p, step), p.clock) && After(p, step).clock == p.clock
  {
  }

  lemma StandsOn(p: Plane, step: Step, g: int)
    requires Inv(p) && Enabled(p, step) && Stands(p.gapAt, g, p.clock) && g <= p.clock
    ensures Stands(After(p, step).gapAt, g, After(p, step).clock)
  {
    hide AtRisk, Queued, Unreported, Lifted;
    match step
    case Journal(at) => LiftStands(p.gapAt, g, p.clock, at);
    case Fail(at, _) => LiftStands(p.gapAt, g, p.clock, at);
    case Tidy(at, _) => LiftStands(p.gapAt, g, p.clock, at);
    case Restart =>
      var gap := Reopened(p.fileGap, p.fileClean, p.clock);
      assert Stands(gap, g, p.clock);
      LiftStands(gap, g, p.clock, p.clock);
    case _ =>
  }

  lemma {:induction false} StandsThroughout(p: Plane, steps: seq<Step>, g: int)
    requires Inv(p) && Run(p, steps) && Stands(p.gapAt, g, p.clock) && g <= p.clock
    ensures Inv(Final(p, steps)) && Stands(Final(p, steps).gapAt, g, Final(p, steps).clock)
    decreases |steps|
  {
    if steps != [] {
      hide Inv, Stands;
      StepKeepsInv(p, steps[0]);
      StandsOn(p, steps[0], g);
      ClockGoesOn(p, steps[0]);
      StandsThroughout(After(p, steps[0]), steps[1..], g);
    }
  }

  lemma ClockGoesOn(p: Plane, step: Step)
    requires Enabled(p, step)
    ensures After(p, step).clock >= p.clock
  {
  }

  /** A mark made now is reported for thirty days, through crashes, restarts and clean-ups. */
  lemma FreshMarksAreReported(p: Plane)
    requires Inv(p) && p.gapAt == Some(p.clock)
    ensures ReportedUntil(p, p.clock + M.HISTORY_RETAIN)
  {
    forall steps | Run(p, steps) && Final(p, steps).clock < p.clock + M.HISTORY_RETAIN
      ensures ReportsGap(Final(p, steps).gapAt, Final(p, steps).clock)
    {
      StandsThroughout(p, steps, p.clock);
    }
  }

  /** An older mark is no longer reported once its own thirty days are over. */
  lemma OldMarksRunOut(p: Plane, g: int)
    requires p.gapAt == Some(g) && g < p.clock
    ensures !ReportedUntil(p, p.clock + M.HISTORY_RETAIN)
  {
    if g + M.HISTORY_RETAIN <= p.clock {
      assert Run(p, []) && Final(p, []) == p;
    } else {
      var wait := Wait(g + M.HISTORY_RETAIN);
      OneStep(p, wait);
      assert Final(p, [wait]).clock < p.clock + M.HISTORY_RETAIN;
    }
  }

  lemma OneStep(p: Plane, step: Step)
    requires Enabled(p, step) && Undisturbed(p, step)
    ensures Run(p, [step]) && Final(p, [step]) == After(p, step)
  {
    assert [step][1..] == [];
  }

  /**
    A loss that is marked is reported at once exactly when no mark stood that was thirty days old already;
    and for the thirty days it should be exactly when none stood at all, or one made at that very moment.
   */
  lemma LossIsReportedExactly(p: Plane, step: Step)
    requires Inv(p) && Enabled(p, step) && Undisturbed(p, step) && Covers(p, step)
    ensures var q, old_ := After(p, step), Standing(p, step);
      && (ReportsGap(q.gapAt, q.clock) <==> old_.None? || p.clock - old_.value < M.HISTORY_RETAIN)
      && (ReportedUntil(q, p.clock + M.HISTORY_RETAIN) <==> old_.None? || old_.value == p.clock)
  {
    hide ReportedUntil, AtRisk;
    var q, old_ := After(p, step), Standing(p, step);
    StepKeepsInv(p, step);
    CoverMarks(p, step);
    if old_.None? || old_.value == p.clock {
      FreshMarksAreReported(q);
    } else {
      OldMarksRunOut(q, old_.value);
    }
  }

  /** Drops counted while a mark is thirty days old and not yet lifted: nothing is at risk any more, and no GAP is reported. */
  lemma ExpiredMarksReportNothing()
    ensures var p := Plane(Running, true, 1, {7}, {}, [], [7], 0, {}, map[], Some(0), false, Some(0), false, M.HISTORY_RETAIN);
      var q := After(p, Flush(true));
      Inv(p) && 7 in q.marks && AtRisk(q) == {} && !ReportsGap(q.gapAt, q.clock)
  {
    var p := Plane(Running, true, 1, {7}, {}, [], [7], 0, {}, map[], Some(0), false, Some(0), false, M.HISTORY_RETAIN);
    OneUnreported(p);
    assert Queued(p) == {};
    FlushedInv(p, true);
    assert Queued(Flushed(p, true)) == {};
  }

  lemma OneUnreported(p: Plane)
    requires |p.drops| == p.reported + 1
    ensures Unreported(p) == {p.drops[p.reported]}
  {
  }

  /** A loss late under a standing mark is reported for less than thirty days. */
  lemma LateLossIsCoveredShortly()
    ensures var day := 86400;
      var p := Plane(Running, true, 1, {}, {}, [7, 8], [], 0, {}, map[], None, false, None, false, 0);
      var q := After(After(After(p, Fail(0, true)), Wait(29 * day)), Fail(29 * day, true));
      8 in q.marks && q.marks[8] == 0 && ReportsGap(q.gapAt, q.clock)
      && !ReportsGap(q.gapAt, 30 * day) && 30 * day < q.clock + M.HISTORY_RETAIN
  {
  }

  // ------------------------------------------------------------ producers the drain does not wait for

  /** What a producer holds is nowhere else. */
  ghost predicate HeldOnce(p: Plane) {
    p.inflight <= p.offered && p.inflight !! p.journaled && p.inflight !! p.marks.Keys && p.inflight !! Queued(p) && p.inflight !! Dropped(p)
  }

  function Dropped(p: Plane): set<Ticket> { set i | 0 <= i < |p.drops| :: p.drops[i] }

  lemma {:induction false} RunKeepsHeldOnce(p: Plane, steps: seq<Step>)
    requires Inv(p) && HeldOnce(p) && Dropped(p) <= p.offered && Run(p, steps)
    ensures Inv(Final(p, steps)) && HeldOnce(Final(p, steps)) && Dropped(Final(p, steps)) <= Final(p, steps).offered
    decreases |steps|
  {
    if steps != [] {
      hide Inv, HeldOnce, Dropped;
      StepKeepsInv(p, steps[0]);
      StepKeepsHeldOnce(p, steps[0]);
      RunKeepsHeldOnce(After(p, steps[0]), steps[1..]);
    }
  }

  lemma StepKeepsHeldOnce(p: Plane, step: Step)
    requires Inv(p) && HeldOnce(p) && Dropped(p) <= p.offered && Enabled(p, step)
    ensures HeldOnce(After(p, step)) && Dropped(After(p, step)) <= After(p, step).offered
  {
    var n := After(p, step);
    match step
    case Offer(t) => SameQueues(n, p);
    case Push(t) => PushedOnce(p, t);
    case Journal(_) =>
      TakenFromQueue(p);
      SameQueues(n, p.(queue := p.queue[1..]));
    case Fail(_, _) =>
      TakenFromQueue(p);
      SameQueues(n, p.(queue := p.queue[1..]));
    case Flush(_) => ReportedWereDropped(p);
    case Finish(_) => ReportedWereDropped(p);
    case Restart =>
    case _ => SameQueues(n, p);
  }

  lemma ReportedWereDropped(p: Plane)
    ensures Unreported(p) <= Dropped(p)
  {
  }

  lemma PushedOnce(p: Plane, t: Ticket)
    requires HeldOnce(p) && Dropped(p) <= p.offered && t in p.inflight
    ensures var n := After(p, Push(t)); HeldOnce(n) && Dropped(n) <= n.offered
  {
    var n := After(p, Push(t));
    forall u | u in Queued(n) ensures u == t || u in Queued(p) {
      var i :| 0 <= i < |n.queue| && n.queue[i] == u;
      assert i < |p.queue| ==> p.queue[i] == u;
    }
    forall u | u in Dropped(n) ensures u == t || u in Dropped(p) {
      var i :| 0 <= i < |n.drops| && n.drops[i] == u;
      assert i < |p.drops| ==> p.drops[i] == u;
    }
  }

  /** A plane before its first detection. */
  function Fresh(capacity: nat, clock: int): Plane {
    Plane(Running, true, capacity, {}, {}, [], [], 0, {}, map[], None, false, None, false, clock)
  }

  /** Every state that a new plane comes to is one these theorems speak of. */
  lemma EveryRunIsCovered(capacity: nat, clock: int, steps: seq<Step>)
    requires Run(Fresh(capacity, clock), steps)
    ensures var p := Final(Fresh(capacity, clock), steps); Inv(p) && HeldOnce(p)
  {
    RunKeepsHeldOnce(Fresh(capacity, clock), steps);
  }

  /** The drain accounts for everything exactly when no producer is between its look and its push. */
  lemma DrainAccountsExactly(p: Plane, writeOk: bool)
    requires Inv(p) && HeldOnce(p) && Enabled(p, Finish(writeOk))
    ensures var q := After(p, Finish(writeOk));
      q.offered == q.journaled + q.marks.Keys <==> p.inflight == {}
  {
    if p.inflight == {} {
      FinishedInv(p, writeOk);
    } else {
      var t :| t in p.inflight;
      LateProducersAreLost(p, writeOk, t, []);
    }
  }

  /**
    What a producer still holds when the drain ends is neither journaled nor marked, whatever follows, as long
    as no new process starts; and if the shutdown was saved as a clean one, not by a new process either.
   */
  lemma LateProducersAreLost(p: Plane, writeOk: bool, t: Ticket, later: seq<Step>)
    requires HeldOnce(p) && Enabled(p, Finish(writeOk)) && t in p.inflight
    requires Run(After(p, Finish(writeOk)), later) && Restart !in later
    ensures var q := Final(After(p, Finish(writeOk)), later);
      && t in q.offered && t !in q.journaled && t !in q.marks
      && (q.fileClean ==> t !in Restarted(q).journaled && t !in Restarted(q).marks)
  {
    ReportedWereDropped(p);
    StoppedForGood(After(p, Finish(writeOk)), later);
  }

  lemma {:induction false} StoppedForGood(p: Plane, steps: seq<Step>)
    requires p.phase == Stopped && Run(p, steps) && Restart !in steps
    ensures var q := Final(p, steps);
      q.phase == Stopped && q.journaled == p.journaled && q.marks == p.marks && p.offered <= q.offered
    decreases |steps|
  {
    if steps != [] {
      StoppedForGood(After(p, steps[0]), steps[1..]);
    }
  }

  lemma {:induction false} RunSnoc(p: Plane, steps: seq<Step>, step: Step)
    requires Run(p, steps) && Enabled(Final(p, steps), step) && Undisturbed(Final(p, steps), step)
    ensures Run(p, steps + [step]) && Final(p, steps + [step]) == After(Final(p, steps), step)
    decreases |steps|
  {
    if steps == [] {
      assert steps + [step] == [step];
    } else {
      RunSnoc(After(p, steps[0]), steps[1..], step);
      assert (steps + [step])[1..] == steps[1..] + [step];
    }
  }

  lemma DrainStep(p: Plane, stored: bool, writeOk: bool)
    requires Inv(p) && p.phase == Draining && p.inflight == {} && p.queue != []
    ensures var step := if stored then Journal(p.clock) else Fail(p.clock, writeOk);
      && Enabled(p, step) && Inv(After(p, step))
      && var n := After(p, step);
         n.phase == Draining && n.inflight == {} && n.offered == p.offered && n.clock == p.clock && |n.queue| + 1 == |p.queue|
  {
    StepKeepsInv(p, if stored then Journal(p.clock) else Fail(p.clock, writeOk));
  }

  // ------------------------------------------------------------ nothing lost needlessly

  /** Nothing was dropped or marked, and no more is under way than was offered. */
  ghost predicate Unharmed(p: Plane) {
    && p.drops == [] && p.reported == 0 && p.marks == map[] && p.gapAt == None
    && p.inflight <= p.offered && |p.queue| + |p.inflight| <= |p.offered|
  }

  predicate Harmless(step: Step) { !step.Fail? && !step.Restart? }

  lemma StepIsHarmless(p: Plane, step: Step)
    requires Unharmed(p) && |p.offered| <= p.capacity && Enabled(p, step) && Harmless(step)
    ensures Unharmed(After(p, step)) && p.offered <= After(p, step).offered && After(p, step).capacity == p.capacity
    ensures p.journaled <= After(p, step).journaled
  {
    match step
    case Offer(t) => assert t !in p.inflight;
    case Push(t) => assert |p.inflight - {t}| == |p.inflight| - 1;
    case _ =>
  }

  lemma {:induction false} OfferedGrows(p: Plane, steps: seq<Step>)
    requires Run(p, steps)
    ensures p.offered <= Final(p, steps).offered
    decreases |steps|
  {
    if steps != [] {
      OfferedGrows(After(p, steps[0]), steps[1..]);
    }
  }

  /**
    As long as every append succeeds and nothing crashes, a plane that was offered no more detections than its
    queue holds drops none, marks none and reports no gap; after a drain it has journaled them all.
   */
  lemma {:induction false} NothingLostNeedlessly(p: Plane, steps: seq<Step>)
    requires Inv(p) && Unharmed(p) && Run(p, steps) && (forall s :: s in steps ==> Harmless(s)) && |Final(p, steps).offered| <= p.capacity
    ensures Unharmed(Final(p, steps)) && Inv(Final(p, steps))
    ensures Final(p, steps).phase == Stopped ==> Final(p, steps).journaled == Final(p, steps).offered
    decreases |steps|
  {
    hide Unharmed, Inv;
    OfferedGrows(p, steps);
    Fewer(p.offered, Final(p, steps).offered);
    if steps == [] {
      StoppedUnharmed(p);
    } else {
      assert Harmless(steps[0]);
      StepKeepsInv(p, steps[0]);
      StepIsHarmless(p, steps[0]);
      NothingLostNeedlessly(After(p, steps[0]), steps[1..]);
    }
  }

  lemma StoppedUnharmed(p: Plane)
    requires Inv(p) && Unharmed(p)
    ensures p.phase == Stopped ==> p.journaled == p.offered
  {
  }

  lemma FreshIsUnharmed(capacity: nat, clock: int)
    ensures Unharmed(Fresh(capacity, clock)) && Inv(Fresh(capacity, clock))
  {
  }

  /** What the drain does with the first n queued detections: each is journaled, or marked when that fails. */
  function DrainSteps(n: nat, at: int, stored: nat -> bool, writeOk: nat -> bool): seq<Step> {
    seq(n, i requires i >= 0 => if stored(i) then Journal(at) else Fail(at, writeOk(i)))
  }

  /** The drain: everything queued is journaled or marked, then the drops are, and the worker is done. */
  method Drain(start: Plane, stored: nat -> bool, writeOk: nat -> bool) returns (p: Plane)
    requires Inv(start) && start.phase == Draining && start.inflight == {}
    ensures var steps := DrainSteps(|start.queue|, start.clock, stored, writeOk) + [Finish(writeOk(|start.queue|))];
      Run(start, steps) && p == Final(start, steps)
    ensures Inv(p) && p.phase == Stopped && p.offered == start.offered == p.journaled + p.marks.Keys
  {
    hide Inv, After;
    p := start;
    var i := 0;
    while p.queue != []
      invariant Inv(p) && p.phase == Draining && p.inflight == {} && p.offered == start.offered && p.clock == start.clock
      invariant |p.queue| + i == |start.queue|
      invariant Run(start, DrainSteps(i, start.clock, stored, writeOk)) && p == Final(start, DrainSteps(i, start.clock, stored, writeOk))
      decreases |p.queue|
    {
      var step := if stored(i) then Journal(p.clock) else Fail(p.clock, writeOk(i));
      DrainStep(p, stored(i), writeOk(i));
      RunSnoc(start, DrainSteps(i, start.clock, stored, writeOk), step);
      assert DrainSteps(i, start.clock, stored, writeOk) + [step] == DrainSteps(i + 1, start.clock, stored, writeOk);
      p := After(p, step);
      i := i + 1;
    }
    StepKeepsInv(p, Finish(writeOk(i)));
    RunSnoc(start, DrainSteps(i, start.clock, stored, writeOk), Finish(writeOk(i)));
    Accounted(p, writeOk(i));
    p := After(p, Finish(writeOk(i)));
  }

  lemma Accounted(p: Plane, writeOk: bool)
    requires Enabled(p, Finish(writeOk)) && Inv(After(p, Finish(writeOk)))
    ensures var q := After(p, Finish(writeOk));
      q.phase == Stopped && q.offered == p.offered == q.journaled + q.marks.Keys
  {
  }
}
