/** What every run of the worker pipeline guarantees. */
module PipelineRuns {
  import opened Words
  import opened Types
  import opened Pipeline
  import opened PipelineSystem

  ghost predicate IsRun(cfg: Config, steps: seq<Step>) {
    cfg.Valid() && CanRun(cfg, Init(cfg), steps)
  }

  /** No lost wake-up, under spurious wake-ups, any number of submitters and any interleaving: while
      some worker sleeps, the waiting packets are outnumbered by the notifications still to be
      delivered plus the awake workers on their way to the queue. */
  lemma NoWakeupIsLost(cfg: Config, steps: seq<Step>)
    requires IsRun(cfg, steps)
    ensures var s := After(cfg, Init(cfg), steps);
            && (AnySleeper(s.workers) ==> |s.shared.queue| <= s.pendingOnes + Sum(s.workers, HEADING_TO_QUEUE))
            && (AnySleeper(s.workers) && s.shared.stopRequested ==> s.stopper.Notifying?)
  {
    InitInv(cfg);
    RunInv(cfg, Init(cfg), steps);
  }

  /** Exactly-once, bounded FIFO conservation in every reachable state. */
  lemma Conservation(cfg: Config, steps: seq<Step>)
    requires IsRun(cfg, steps)
    ensures var s := After(cfg, Init(cfg), steps);
            var m, executing := s.shared.metrics, Sum(s.workers, IN_PROCESSOR);
            && s.accepted == s.taken + s.shared.queue
            && m.submitted == |s.shared.queue| + executing + m.processed + m.handlerFailures
            && (forall p :: multiset(s.taken)[p] == multiset(s.finished)[p] + Sum(s.workers, Holding(p)))
            && |s.shared.queue| <= m.highWatermark <= cfg.capacity
            && |s.shared.queue| + executing <= cfg.capacity + cfg.workers
  {
    InitInv(cfg);
    RunInv(cfg, Init(cfg), steps);
    SumAtMostOne(After(cfg, Init(cfg), steps).workers, IN_PROCESSOR);
  }

  lemma {:induction false} SumAtMostOne(ws: seq<Worker>, weight: Worker -> nat)
    requires forall w :: weight(w) <= 1
    ensures Sum(ws, weight) <= |ws|
  {
    if ws != [] {
      SumAtMostOne(ws[1..], weight);
    }
  }

  /** With one worker, packets finish in exactly the order in which they were accepted. */
  lemma OneWorkerIsFifo(cfg: Config, steps: seq<Step>)
    requires IsRun(cfg, steps) && cfg.workers == 1
    ensures var s := After(cfg, Init(cfg), steps);
            s.finished <= s.accepted && |s.accepted| <= |s.finished| + 1 + |s.shared.queue|
  {
    InitInv(cfg);
    RunInv(cfg, Init(cfg), steps);
  }

  /* ----- the answers and the counters, from the steps of the run ----- */

  /** The condition under which `try_submit` accepts, read off the run: no stop has begun, and there is
      a free place.  Otherwise nothing is accepted and nothing waits longer. */
  lemma SubmissionAccepted(cfg: Config, steps: seq<Step>, p: ReceivedPacket)
    requires IsRun(cfg, steps)
    ensures var s := After(cfg, Init(cfg), steps);
            var s' := Apply(cfg, s, Submit(p));
            var free := |s.accepted| - |s.taken| < cfg.capacity;
            && (s'.accepted == s.accepted + [p] && s'.shared.queue == s.shared.queue + [p]
                <==> StopBegin !in steps && free)
            && (s'.accepted == s.accepted && s'.shared.queue == s.shared.queue
                <==> StopBegin in steps || !free)
            && (s'.pendingOnes == s.pendingOnes + 1 <==> StopBegin !in steps && free)
            && s'.taken == s.taken && s'.workers == s.workers
  {
    InitInv(cfg);
    RunInv(cfg, Init(cfg), steps);
    StopsFrom(cfg, Init(cfg), steps);
  }

  /** What it answers. */
  lemma SubmissionAnswer(cfg: Config, steps: seq<Step>, p: ReceivedPacket)
    requires IsRun(cfg, steps)
    ensures var s := After(cfg, Init(cfg), steps);
            var answer, waiting := SubmitSection(cfg.capacity, s.shared, p).1, |s.accepted| - |s.taken|;
            && (answer == Stopped <==> StopBegin in steps)
            && (answer == QueueFull <==> StopBegin !in steps && waiting == cfg.capacity)
            && (answer == Accepted <==> StopBegin !in steps && waiting < cfg.capacity)
  {
    InitInv(cfg);
    RunInv(cfg, Init(cfg), steps);
    StopsFrom(cfg, Init(cfg), steps);
  }

  lemma {:induction false} StopsFrom(cfg: Config, s: State, steps: seq<Step>)
    requires CanRun(cfg, s, steps)
    ensures After(cfg, s, steps).shared.stopRequested <==> s.shared.stopRequested || StopBegin in steps
    decreases |steps|
  {
    if steps != [] {
      StopsFrom(cfg, Apply(cfg, s, steps[0]), steps[1..]);
    }
  }

  /** The submissions of a run that come after the beginning of a stop. */
  function LateSubmissions(steps: seq<Step>, stopped: bool): nat {
    if steps == [] then 0
    else (if steps[0].Submit? && stopped then 1 else 0) + LateSubmissions(steps[1..], stopped || steps[0].StopBegin?)
  }

  /** The submissions of a run that come before, with so many packets waiting. */
  ghost function SubmissionsWith(waiting: nat -> bool, cfg: Config, s: State, steps: seq<Step>, stopped: bool): nat
    requires CanRun(cfg, s, steps)
    decreases |steps|
  {
    if steps == [] then 0
    else (if steps[0].Submit? && !stopped && waiting(|s.shared.queue|) then 1 else 0)
         + SubmissionsWith(waiting, cfg, Apply(cfg, s, steps[0]), steps[1..], stopped || steps[0].StopBegin?)
  }

  function Finishes(steps: seq<Step>, ok: bool): nat {
    if steps == [] then 0
    else (if steps[0].Finish? && steps[0].ok == ok then 1 else 0) + Finishes(steps[1..], ok)
  }

  /** Every counter of the pipeline is a number of steps of the run: of submissions with a free place,
      to a full queue, and after a stop, and of processor calls that returned, and that threw. */
  lemma CountersAreSteps(cfg: Config, steps: seq<Step>)
    requires IsRun(cfg, steps)
    ensures var m := After(cfg, Init(cfg), steps).shared.metrics;
            && m.submitted == SubmissionsWith((n: nat) => n < cfg.capacity, cfg, Init(cfg), steps, false)
            && m.droppedQueueFull == SubmissionsWith((n: nat) => n >= cfg.capacity, cfg, Init(cfg), steps, false)
            && m.rejectedStopped == LateSubmissions(steps, false)
            && m.processed == Finishes(steps, true)
            && m.handlerFailures == Finishes(steps, false)
  {
    CountersFrom(cfg, Init(cfg), steps, (n: nat) => n < cfg.capacity, (n: nat) => n >= cfg.capacity);
  }

  lemma {:induction false} CountersFrom(cfg: Config, s: State, steps: seq<Step>, free: nat -> bool, full: nat -> bool)
    requires CanRun(cfg, s, steps) && s.shared.accepting == !s.shared.stopRequested
    requires forall n: nat :: free(n) == (n < cfg.capacity) && full(n) == (n >= cfg.capacity)
    ensures var m, m', stopped := s.shared.metrics, After(cfg, s, steps).shared.metrics, s.shared.stopRequested;
            && m'.submitted == m.submitted + SubmissionsWith(free, cfg, s, steps, stopped)
            && m'.droppedQueueFull == m.droppedQueueFull + SubmissionsWith(full, cfg, s, steps, stopped)
            && m'.rejectedStopped == m.rejectedStopped + LateSubmissions(steps, stopped)
            && m'.processed == m.processed + Finishes(steps, true)
            && m'.handlerFailures == m.handlerFailures + Finishes(steps, false)
    decreases |steps|
  {
    hide Apply, Enabled;
    if steps != [] {
      CountersStep(cfg, s, steps[0]);
      CountersFrom(cfg, Apply(cfg, s, steps[0]), steps[1..], free, full);
    }
  }

  lemma CountersStep(cfg: Config, s: State, step: Step)
    requires Enabled(s, step) && s.shared.accepting == !s.shared.stopRequested
    ensures var sh := Apply(cfg, s, step).shared;
            var m, m', stopped, full := s.shared.metrics, sh.metrics, s.shared.stopRequested, |s.shared.queue| >= cfg.capacity;
            && sh.accepting == !sh.stopRequested && sh.stopRequested == (stopped || step.StopBegin?)
            && m'.submitted == m.submitted + (if step.Submit? && !stopped && !full then 1 else 0)
            && m'.droppedQueueFull == m.droppedQueueFull + (if step.Submit? && !stopped && full then 1 else 0)
            && m'.rejectedStopped == m.rejectedStopped + (if step.Submit? && stopped then 1 else 0)
            && m'.processed == m.processed + (if step.Finish? && step.ok then 1 else 0)
            && m'.handlerFailures == m.handlerFailures + (if step.Finish? && !step.ok then 1 else 0)
  {
    hide AnySleeper;
  }

  /* ----- the high watermark ----- */

  /** The longest queue over all states of the run. */
  ghost function Peak(cfg: Config, s: State, steps: seq<Step>): nat
    requires CanRun(cfg, s, steps)
    decreases |steps|
  {
    if steps == [] then |s.shared.queue|
    else Max(|s.shared.queue|, Peak(cfg, Apply(cfg, s, steps[0]), steps[1..]))
  }

  /** The metric is that maximum: never exceeded and always attained. */
  lemma WatermarkIsPeak(cfg: Config, steps: seq<Step>)
    requires IsRun(cfg, steps)
    ensures After(cfg, Init(cfg), steps).shared.metrics.highWatermark == Peak(cfg, Init(cfg), steps)
  {
    InitInv(cfg);
    WatermarkFrom(cfg, Init(cfg), steps);
  }

  lemma {:induction false} WatermarkFrom(cfg: Config, s: State, steps: seq<Step>)
    requires Bounded(cfg, s) && CanRun(cfg, s, steps)
    ensures After(cfg, s, steps).shared.metrics.highWatermark
         == Max(s.shared.metrics.highWatermark, Peak(cfg, s, steps))
    decreases |steps|
  {
    if steps != [] {
      BoundedStep(cfg, s, steps[0]);
      WatermarkFrom(cfg, Apply(cfg, s, steps[0]), steps[1..]);
    }
  }

  /* ----- progress ----- */

  /** Steps the pipeline takes by itself, as opposed to calls made on it. */
  predicate Internal(step: Step) {
    !step.Submit? && !step.StopBegin?
  }

  /** Internal steps that do not depend on the luck of a spurious wake-up. */
  predicate Deliberate(step: Step) {
    Internal(step) && !step.SpuriousWake?
  }

  /** Never stuck: while a packet waits, or a stop is in progress, some step is possible that is not a
      spurious wake-up.  A lost wake-up would be such a stuck state. */
  lemma NotStuck(cfg: Config, s: State)
    requires Inv(cfg, s) && cfg.Valid()
    requires s.shared.queue != [] || !s.stopper.Idle?
    ensures exists step :: Deliberate(step) && Enabled(s, step)
  {
    if s.stopper.Notifying? {
      assert Enabled(s, NotifyAll);
    } else if w: nat :| w < |s.workers| && s.workers[w].AtLock? {
      assert Enabled(s, Lock(w));
    } else if w: nat :| w < |s.workers| && s.workers[w].Executing? {
      assert Enabled(s, Finish(w, true));
    } else if w: nat :| w < |s.workers| && s.workers[w].Sleeping? {
      SumZero(s.workers, HEADING_TO_QUEUE);
      if s.pendingOnes > 0 {
        assert Enabled(s, NotifyOne(Some(w)));
      }
    } else {
      assert s.workers[0].Exited?;
      if s.stopper.next < |s.workers| {
        assert Enabled(s, Join);
      } else {
        assert Enabled(s, StopReturn);
      }
    }
  }

  const WORK: Worker -> nat :=
    (w: Worker) => match w
      case AtLock => 1
      case Executing(_) => 2
      case _ => 0

  /** What there is to do while nobody stops the pipeline. */
  function Workload(s: State): nat {
    4 * |s.shared.queue| + 2 * s.pendingOnes + Sum(s.workers, WORK)
  }

  /** What a call or a spurious wake-up can add to it. */
  function Added(step: Step): nat {
    match step
    case Submit(_) => 6
    case SpuriousWake(_) => 1
    case _ => 0
  }

  /** While nobody stops the pipeline, every deliberate step lowers the workload. */
  lemma WorkProgress(cfg: Config, s: State, step: Step)
    requires Enabled(s, step) && s.stopper.Idle? && !step.StopBegin?
    ensures var s' := Apply(cfg, s, step);
            && s'.stopper.Idle?
            && (if Deliberate(step) then Workload(s') < Workload(s) else Workload(s') <= Workload(s) + Added(step))
  {
    hide AnySleeper;
    var s' := Apply(cfg, s, step);
    match step
    case NotifyOne(Some(w)) => SumUpdate(s.workers, w, AtLock, WORK);
    case SpuriousWake(w) => SumUpdate(s.workers, w, AtLock, WORK);
    case Lock(w) => SumUpdate(s.workers, w, s'.workers[w], WORK);
    case Finish(w, _) => SumUpdate(s.workers, w, AtLock, WORK);
    case _ =>
  }

  function DeliberateSteps(steps: seq<Step>): nat {
    if steps == [] then 0 else (if Deliberate(steps[0]) then 1 else 0) + DeliberateSteps(steps[1..])
  }

  function AddedBy(steps: seq<Step>): nat {
    if steps == [] then 0 else Added(steps[0]) + AddedBy(steps[1..])
  }

  /** However calls and spurious wake-ups interleave, the pipeline has only so many steps to take: the
      workload at hand plus what the schedule adds. */
  lemma {:induction false} WorkIsBounded(cfg: Config, s: State, steps: seq<Step>)
    requires CanRun(cfg, s, steps) && s.stopper.Idle?
    requires forall k :: 0 <= k < |steps| ==> !steps[k].StopBegin?
    ensures After(cfg, s, steps).stopper.Idle?
    ensures DeliberateSteps(steps) + Workload(After(cfg, s, steps)) <= Workload(s) + AddedBy(steps)
    decreases |steps|
  {
    hide Workload, Apply, Enabled;
    if steps != [] {
      WorkProgress(cfg, s, steps[0]);
      forall k | 0 <= k < |steps[1..]|
        ensures !steps[1..][k].StopBegin?
      {
        assert steps[1..][k] == steps[k + 1];
      }
      WorkIsBounded(cfg, Apply(cfg, s, steps[0]), steps[1..]);
    }
  }

  /** When the pipeline has no deliberate step left to take, every accepted packet is finished. */
  lemma AtRestAllFinished(cfg: Config, s: State)
    requires cfg.Valid() && Inv(cfg, s) && s.stopper.Idle?
    requires forall step :: Deliberate(step) ==> !Enabled(s, step)
    ensures s.shared.queue == [] && multiset(s.finished) == multiset(s.accepted)
  {
    if s.shared.queue != [] {
      NotStuck(cfg, s);
      assert false;
    }
    forall w: nat | w < |s.workers|
      ensures !s.workers[w].Executing?
    {
      assert Deliberate(Finish(w, true));
    }
    AllInOrder(s);
  }

  lemma AllInOrder(s: State)
    requires ExactlyOnce(s) && s.shared.queue == []
    requires forall w: nat :: w < |s.workers| ==> !s.workers[w].Executing?
    ensures multiset(s.finished) == multiset(s.accepted)
  {
    assert s.taken == s.accepted;
    forall p
      ensures multiset(s.finished)[p] == multiset(s.accepted)[p]
    {
      SumZero(s.workers, Holding(p));
    }
  }

  /* ----- stopping ----- */

  const EFFORT: Worker -> nat :=
    (w: Worker) => match w
      case Exited => 0
      case AtLock => 1
      case Sleeping => 2
      case Executing(_) => 2

  /** What remains to be done once a stop has begun. */
  function Remaining(s: State): nat {
    3 * |s.shared.queue| + s.pendingOnes + Sum(s.workers, EFFORT) +
    match s.stopper
    case Idle => 0
    case Notifying => |s.workers| + 2
    case Joining(next) => if next <= |s.workers| then |s.workers| + 1 - next else 0
  }

  lemma {:induction false} WakeAllEffort(ws: seq<Worker>)
    ensures Sum(WakeAll(ws), EFFORT) <= Sum(ws, EFFORT)
  {
    if ws != [] {
      assert WakeAll(ws)[1..] == WakeAll(ws[1..]);
      WakeAllEffort(ws[1..]);
    }
  }

  /** During a stop every internal step makes progress, and a rejected submission costs nothing. */
  lemma StopProgress(cfg: Config, s: State, step: Step)
    requires Inv(cfg, s) && Enabled(s, step) && !s.stopper.Idle?
    ensures Internal(step) ==> Remaining(Apply(cfg, s, step)) < Remaining(s)
    ensures !Internal(step) ==> Remaining(Apply(cfg, s, step)) == Remaining(s)
    ensures !step.StopReturn? ==> !Apply(cfg, s, step).stopper.Idle?
  {
    var s' := Apply(cfg, s, step);
    match step
    case NotifyOne(Some(w)) => SumUpdate(s.workers, w, AtLock, EFFORT);
    case NotifyAll => WakeAllEffort(s.workers);
    case SpuriousWake(w) => SumUpdate(s.workers, w, AtLock, EFFORT);
    case Lock(w) => SumUpdate(s.workers, w, s'.workers[w], EFFORT);
    case Finish(w, _) => SumUpdate(s.workers, w, AtLock, EFFORT);
    case _ =>
  }

  function InternalSteps(steps: seq<Step>): nat {
    if steps == [] then 0 else (if Internal(steps[0]) then 1 else 0) + InternalSteps(steps[1..])
  }

  /** However the scheduler interleaves submissions, a stop takes at most `Remaining` internal steps. */
  lemma {:induction false} StopIsBounded(cfg: Config, s: State, steps: seq<Step>)
    requires Inv(cfg, s) && CanRun(cfg, s, steps) && !s.stopper.Idle?
    requires forall k :: 0 <= k < |steps| ==> !steps[k].StopReturn?
    ensures !After(cfg, s, steps).stopper.Idle?
    ensures InternalSteps(steps) + Remaining(After(cfg, s, steps)) <= Remaining(s)
    decreases |steps|
  {
    if steps != [] {
      StopProgress(cfg, s, steps[0]);
      StepInv(cfg, s, steps[0]);
      assert !steps[0].StopReturn?;
      forall k | 0 <= k < |steps[1..]|
        ensures !steps[1..][k].StopReturn?
      {
        assert steps[1..][k] == steps[k + 1];
      }
      StopIsBounded(cfg, Apply(cfg, s, steps[0]), steps[1..]);
    }
  }

  /** From every reachable state in which a stop has begun, the drain can be completed without outside
      calls and without spurious wake-ups; with `StopIsBounded`, every sufficiently long schedule
      completes it. */
  lemma {:induction false} StopReturns(cfg: Config, s: State)
    requires Inv(cfg, s) && cfg.Valid() && !s.stopper.Idle?
    ensures exists steps ::
              && CanRun(cfg, s, steps)
              && (forall k :: 0 <= k < |steps| ==> Deliberate(steps[k]))
              && After(cfg, s, steps).stopper.Idle?
    decreases Remaining(s)
  {
    hide Apply, Enabled, Inv, Remaining;
    NotStuck(cfg, s);
    var step :| Deliberate(step) && Enabled(s, step);
    var s' := Apply(cfg, s, step);
    var rest: seq<Step> := [];
    if !s'.stopper.Idle? {
      StopProgress(cfg, s, step);
      StepInv(cfg, s, step);
      StopReturns(cfg, s');
      rest :| CanRun(cfg, s', rest)
           && (forall k :: 0 <= k < |rest| ==> Deliberate(rest[k]))
           && After(cfg, s', rest).stopper.Idle?;
    }
    RunCons(cfg, s, step, rest);
    var steps := [step] + rest;
    assert forall k :: 0 <= k < |steps| ==> Deliberate(steps[k]);
  }

  lemma RunCons(cfg: Config, s: State, step: Step, rest: seq<Step>)
    requires Enabled(s, step) && CanRun(cfg, Apply(cfg, s, step), rest)
    ensures CanRun(cfg, s, [step] + rest)
    ensures After(cfg, s, [step] + rest) == After(cfg, Apply(cfg, s, step), rest)
  {
    assert ([step] + rest)[1..] == rest;
  }

  /** All work done and nobody left to do more. */
  ghost predicate Drained(s: State) {
    && s.shared.stopRequested
    && !s.shared.accepting
    && s.shared.queue == []
    && forall i :: 0 <= i < |s.workers| ==> s.workers[i].Exited?
  }

  /** What `stop()` has achieved when it is about to return. */
  lemma StopDrained(cfg: Config, s: State)
    requires cfg.Valid() && Inv(cfg, s) && Enabled(s, StopReturn)
    ensures Drained(s)
    ensures s.shared.metrics.submitted == s.shared.metrics.processed + s.shared.metrics.handlerFailures
    ensures multiset(s.finished) == multiset(s.accepted)
  {
    assert s.workers[0].Exited?;
    SumZero(s.workers, IN_PROCESSOR);
    assert s.taken == s.accepted;
    forall p
      ensures multiset(s.finished)[p] == multiset(s.accepted)[p]
    {
      SumZero(s.workers, Holding(p));
    }
  }

  function Submissions(steps: seq<Step>): nat {
    if steps == [] then 0 else (if steps[0].Submit? then 1 else 0) + Submissions(steps[1..])
  }

  /** Stopping is final and idempotent: whatever is called afterwards, nothing changes except that each
      further submission is counted as rejected. */
  lemma {:induction false} DrainedForever(cfg: Config, s: State, later: seq<Step>)
    requires Drained(s) && CanRun(cfg, s, later)
    ensures var s', m := After(cfg, s, later), s.shared.metrics;
            && Drained(s')
            && s'.workers == s.workers
            && s'.finished == s.finished
            && s'.shared == s.shared.(metrics := m.(rejectedStopped := m.rejectedStopped + Submissions(later)))
    decreases |later|
  {
    if later != [] {
      var s1 := Apply(cfg, s, later[0]);
      if later[0].NotifyAll? {
        assert s1.workers == s.workers;
      }
      DrainedForever(cfg, s1, later[1..]);
    }
  }
}
