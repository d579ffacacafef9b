/**
  Pushing configurations to the peer: one request in flight, one pending slot in which the newest job
  replaces an older one. Callers and sending loops interleave at the points where the lock is taken.
 */
module HaSync {
  import opened Common

  /** A job is named by its place in the order in which pushes were accepted. */
  type Job = nat

  /** A sending loop: about to send, with a request in flight, or back from one. */
  datatype Loop = Starting(job: Job) | Sending(job: Job) | Back(job: Job)

  datatype Sync = Sync(running: bool, pending: Option<Job>, loops: seq<Loop>, accepted: nat, sent: seq<Job>)

  const IDLE := Sync(false, None, [], 0, [])

  datatype Step = Push | BeginSend(i: nat) | EndSend(i: nat) | Next(i: nat)

  predicate Enabled(s: Sync, step: Step) {
    match step
    case Push => true
    case BeginSend(i) => i < |s.loops| && s.loops[i].Starting?
    case EndSend(i) => i < |s.loops| && s.loops[i].Sending?
    case Next(i) => i < |s.loops| && s.loops[i].Back?
  }

  function After(s: Sync, step: Step): Sync
    requires Enabled(s, step)
  {
    match step
    case Push =>
      if s.running then s.(pending := Some(s.accepted), accepted := s.accepted + 1)
      else s.(running := true, loops := s.loops + [Starting(s.accepted)], accepted := s.accepted + 1)
    case BeginSend(i) => s.(loops := s.loops[i := Sending(s.loops[i].job)], sent := s.sent + [s.loops[i].job])
    case EndSend(i) => s.(loops := s.loops[i := Back(s.loops[i].job)])
    case Next(i) =>
      if s.pending.Some? then s.(loops := s.loops[i := Starting(s.pending.value)], pending := None)
      else s.(running := false, loops := s.loops[..i] + s.loops[i + 1..])
  }

  ghost predicate Run(s: Sync, steps: seq<Step>)
    decreases |steps|
  {
    steps == [] || (Enabled(s, steps[0]) && Run(After(s, steps[0]), steps[1..]))
  }

  function Final(s: Sync, steps: seq<Step>): Sync
    requires Run(s, steps)
    decreases |steps|
  {
    if steps == [] then s else Final(After(s, steps[0]), steps[1..])
  }

  // ------------------------------------------------------------ safety over all interleavings

  predicate InOrder(jobs: seq<Job>) { forall i, j :: 0 <= i < j < |jobs| ==> jobs[i] < jobs[j] }

  ghost predicate Inv(s: Sync) {
    && |s.loops| == (if s.running then 1 else 0)
    && (s.pending.Some? ==> s.running && s.pending.value == s.accepted - 1)
    && InOrder(s.sent)
    && (forall k :: k in s.sent ==> k < s.accepted)
    && (s.running ==>
          var job := s.loops[0].job;
          && (if s.pending.Some? then job < s.pending.value else job == s.accepted - 1)
          && (if s.loops[0].Starting? then forall k :: k in s.sent ==> k < job
              else s.sent != [] && s.sent[|s.sent| - 1] == job))
    && (!s.running ==> if s.accepted == 0 then s.sent == [] else s.sent != [] && s.sent[|s.sent| - 1] == s.accepted - 1)
  }

  lemma StepKeepsInv(s: Sync, step: Step)
    requires Inv(s) && Enabled(s, step)
    ensures Inv(After(s, step))
  {
    if step.BeginSend? {
      var next := After(s, step);
      assert InOrder(next.sent) by {
        forall i, j | 0 <= i < j < |next.sent| ensures next.sent[i] < next.sent[j] {
          if j == |s.sent| {
            assert next.sent[i] in s.sent;
          }
        }
      }
    } else if step.Push? && !s.running {
      assert forall k :: k in s.sent ==> k < s.accepted;
    }
  }

  /** What holds between any two steps, whatever callers and loops have done. */
  ghost predicate Coalesced(s: Sync) {
    && |s.loops| <= 1
    && (s.pending.Some? ==> s.running)
    && InOrder(s.sent) && (forall k :: k in s.sent ==> k < s.accepted)
    && (!s.running && s.accepted > 0 ==> s.sent != [] && s.sent[|s.sent| - 1] == s.accepted - 1)
  }

  /**
    At most one send is in flight, a pending job has a loop to take it, the sent jobs are accepted ones in
    their order, and an idle loop has sent the last job accepted.
   */
  lemma {:induction false} PushesConverge(s: Sync, steps: seq<Step>)
    requires Inv(s) && Run(s, steps)
    ensures Inv(Final(s, steps)) && Coalesced(Final(s, steps))
    decreases |steps|
  {
    if steps != [] {
      StepKeepsInv(s, steps[0]);
      PushesConverge(After(s, steps[0]), steps[1..]);
    }
  }

  lemma PushesConvergeFromTheStart(steps: seq<Step>)
    requires Run(IDLE, steps)
    ensures Coalesced(Final(IDLE, steps))
  {
    PushesConverge(IDLE, steps);
  }

  // ------------------------------------------------------------ progress

  /** How many steps the loops can take before they rest, if nothing more is pushed. */
  function Work(s: Sync): nat
    requires Inv(s)
  {
    (if !s.running then 0 else match s.loops[0] case Starting(_) => 3 case Sending(_) => 2 case Back(_) => 1)
    + (if s.pending.Some? then 3 else 0)
  }

  function Sends(steps: seq<Step>): nat {
    if steps == [] then 0 else (if steps[0].BeginSend? then 1 else 0) + Sends(steps[1..])
  }

  /** Without further pushes a loop always can go on, and rests after at most six steps and two sends. */
  lemma {:induction false} LoopsComeToRest(s: Sync, steps: seq<Step>)
    requires Inv(s) && Run(s, steps)
    requires forall i :: 0 <= i < |steps| ==> !steps[i].Push?
    ensures Inv(Final(s, steps)) && Work(Final(s, steps)) + |steps| == Work(s) <= 6
    ensures Sends(steps) <= 2
    ensures Final(s, steps).running ==> exists step: Step :: !step.Push? && Enabled(Final(s, steps), step)
    decreases |steps|
  {
    if steps == [] {
      if s.running {
        var step := match s.loops[0] case Starting(_) => BeginSend(0) case Sending(_) => EndSend(0) case Back(_) => Next(0);
        assert Enabled(s, step);
      }
    } else {
      StepKeepsInv(s, steps[0]);
      LoopsComeToRest(After(s, steps[0]), steps[1..]);
      SendsBounded(s, steps);
    }
  }

  lemma {:induction false} SendsBounded(s: Sync, steps: seq<Step>)
    requires Inv(s) && Run(s, steps)
    requires forall i :: 0 <= i < |steps| ==> !steps[i].Push?
    ensures Sends(steps) <= (if s.running && s.loops[0].Starting? then 1 else 0) + (if s.pending.Some? then 1 else 0)
    decreases |steps|
  {
    if steps != [] {
      StepKeepsInv(s, steps[0]);
      SendsBounded(After(s, steps[0]), steps[1..]);
    }
  }

  // ------------------------------------------------------------ the engine

  class HaEngine {
    var syncRunning: bool
    var syncPending: Option<Job>
    ghost var loops: seq<Loop>
    ghost var accepted: nat
    ghost var sent: seq<Job>

    ghost function State(): Sync reads this { Sync(syncRunning, syncPending, loops, accepted, sent) }

    constructor ()
      ensures State() == IDLE
    {
      syncRunning, syncPending, loops, accepted, sent := false, None, [], 0, [];
    }

    /** A push by an enabled node; spawn tells the caller to start a loop with the job. */
    method PushConfig(job: Job) returns (spawn: bool)
      requires job == accepted
      modifies this
      ensures State() == After(old(State()), Push) && spawn == !old(syncRunning)
    {
      accepted := accepted + 1;
      if syncRunning {
        syncPending := Some(job);
        return false;
      }
      syncRunning := true;
      loops := loops + [Starting(job)];
      return true;
    }

    /** The end of a loop's round, under the lock: take the pending job or stop. */
    method TakeNext(ghost i: nat) returns (job: Option<Job>)
      requires Enabled(State(), Next(i))
      modifies this
      ensures State() == After(old(State()), Next(i)) && job == old(syncPending)
    {
      job := syncPending;
      if syncPending.Some? {
        loops := loops[i := Starting(job.value)];
        syncPending := None;
      } else {
        syncRunning := false;
        loops := loops[..i] + loops[i + 1..];
      }
    }
  }
}
