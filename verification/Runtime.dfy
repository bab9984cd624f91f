/** Runtime::run as a transition system: the receiving loop, the worker pipeline under it, and the
    workers' calls on the sample processor and the health monitor, in every interleaving. */
module RuntimeSystem {
  import opened Types
  import opened TrackerRuns
  import opened Monitor
  import opened MonitorRuns
  import opened SampleProcessor
  import Pipeline
  import PS = PipelineSystem
  import PipelineRuns

  datatype Config = Config(pipeline: Pipeline.Config, health: Health.Config, limit: Option<nat>) {
    predicate Valid() {
      pipeline.Valid() && health.Valid() && (limit.Some? ==> limit.value > 0)
    }
  }

  /** Where the receiving thread is: between packets, after `observe_packet`, after a submission that
      found the queue full, inside `stop()`, or returned. */
  datatype Io = Polling | Observed(packet: ReceivedPacket) | Refused(packet: ReceivedPacket) | Stopping | Returned

  /** How far an executing worker's processor call has got: not begun, payload examined, issue told. */
  datatype Job = Fresh | Judged(rejected: bool) | Told

  datatype Outcome = Outcome(packet: ReceivedPacket, accepted: bool)

  /** `calls` are the calls made on the health monitor and `examined` the packets given to the sample
      processor, each in the order of its own lock or counter; the state of either component is the
      one these calls lead to.  `outcomes` records what became of each submission. */
  datatype State = State(
    pipe: PS.State,
    jobs: seq<Job>,
    io: Io,
    received: nat,
    calls: seq<Call>,
    examined: seq<ReceivedPacket>,
    outcomes: seq<Outcome>)

  function Init(cfg: Config): State {
    State(PS.Init(cfg.pipeline), seq(cfg.pipeline.workers, _ => Fresh), Polling, 0, [], [], [])
  }

  datatype Step =
    | Receive(packet: ReceivedPacket)
    | Submit
    | ReportDrop
    | Stop
    | Pipe(step: PS.Step)
    | Process(worker: nat)
    | Tell(worker: nat)
    | Finish(worker: nat, ok: bool)

  predicate BelowLimit(cfg: Config, s: State) {
    cfg.limit.Some? ==> s.received < cfg.limit.value
  }

  predicate Executes(s: State, w: nat) {
    w < |s.pipe.workers| && w < |s.jobs| && s.pipe.workers[w].Executing?
  }

  /** The stop predicate is an oracle: the loop may end before any packet, and must at the limit.  A call
      of `try_submit` is over once its notification is out.  A decoded sample's handler may throw. */
  ghost predicate Enabled(cfg: Config, s: State, step: Step) {
    match step
    case Receive(_) => s.io.Polling? && s.pipe.pendingOnes == 0 && BelowLimit(cfg, s)
    case Submit => s.io.Observed?
    case ReportDrop => s.io.Refused?
    case Stop => s.io.Polling? && s.pipe.pendingOnes == 0 && PS.Enabled(s.pipe, PS.StopBegin)
    case Pipe(q) => PipelineRuns.Internal(q) && !q.Finish? && PS.Enabled(s.pipe, q)
    case Process(w) => Executes(s, w) && s.jobs[w].Fresh?
    case Tell(w) => Executes(s, w) && s.jobs[w] == Judged(true)
    case Finish(w, ok) =>
      Executes(s, w) && PS.Enabled(s.pipe, PS.Finish(w, ok)) && (s.jobs[w] == Judged(false) || (s.jobs[w].Told? && ok))
  }

  /** The step of the pipeline inside a step of the runtime. */
  function PipeStep(s: State, step: Step): Option<PS.Step> {
    match step
    case Submit => if s.io.Observed? then Some(PS.Submit(s.io.packet)) else None
    case Stop => Some(PS.StopBegin)
    case Pipe(q) => Some(q)
    case Finish(w, ok) => Some(PS.Finish(w, ok))
    case _ => None
  }

  ghost function PipeAfter(cfg: Config, s: State, step: Step): PS.State
    requires Enabled(cfg, s, step)
  {
    match PipeStep(s, step)
    case Some(q) => PS.Apply(cfg.pipeline, s.pipe, q)
    case None => s.pipe
  }

  ghost function Apply(cfg: Config, s: State, step: Step): State
    requires Enabled(cfg, s, step)
  {
    var pipe := PipeAfter(cfg, s, step);
    match step
    case Receive(p) => s.(io := Observed(p), calls := s.calls + [PacketCall(p)])
    case Submit =>
      var p := s.io.packet;
      var r := Pipeline.SubmitSection(cfg.pipeline.capacity, s.pipe.shared, p).1;
      var s1 := s.(pipe := pipe, outcomes := s.outcomes + [Outcome(p, r == Pipeline.Accepted)]);
      if r == Pipeline.QueueFull then s1.(io := Refused(p)) else s1.(io := Polling, received := s.received + 1)
    case ReportDrop =>
      s.(io := Polling, received := s.received + 1, calls := s.calls + [IssueCall(s.io.packet, Health.QueueDropped)])
    case Stop => s.(pipe := pipe, io := Stopping)
    case Pipe(q) =>
      s.(pipe := pipe,
         jobs := if q.Lock? && q.worker < |s.jobs| then s.jobs[q.worker := Fresh] else s.jobs,
         io := if q.StopReturn? then Returned else s.io)
    case Process(w) =>
      var p := s.pipe.workers[w].packet;
      s.(jobs := s.jobs[w := Judged(Rejects(p))], examined := s.examined + [p])
    case Tell(w) =>
      s.(jobs := s.jobs[w := Told],
         calls := s.calls + [IssueCall(s.pipe.workers[w].packet, Health.PayloadRejected)])
    case Finish(w, ok) => s.(pipe := pipe)
  }

  ghost predicate CanRun(cfg: Config, s: State, steps: seq<Step>)
    decreases |steps|
  {
    steps == [] || (Enabled(cfg, s, steps[0]) && CanRun(cfg, Apply(cfg, s, steps[0]), steps[1..]))
  }

  ghost function After(cfg: Config, s: State, steps: seq<Step>): State
    requires CanRun(cfg, s, steps)
    decreases |steps|
  {
    if steps == [] then s else After(cfg, Apply(cfg, s, steps[0]), steps[1..])
  }

  /* ----- reading the histories ----- */

  function PacketsIn(calls: seq<Call>): seq<ReceivedPacket> {
    if calls == [] then []
    else
      var before, c := PacketsIn(calls[..|calls| - 1]), calls[|calls| - 1];
      if c.PacketCall? then before + [c.packet] else before
  }

  /** The packets of the issues of one kind. */
  function Reported(calls: seq<Call>, kind: Health.IssueKind): seq<ReceivedPacket> {
    if calls == [] then []
    else
      var before, c := Reported(calls[..|calls| - 1], kind), calls[|calls| - 1];
      if c.IssueCall? && c.kind == kind then before + [c.packet] else before
  }

  function Submitted(outcomes: seq<Outcome>): seq<ReceivedPacket> {
    seq(|outcomes|, i requires 0 <= i < |outcomes| => outcomes[i].packet)
  }

  /** The packets whose submission was accepted, or was not. */
  function Chosen(outcomes: seq<Outcome>, accepted: bool): seq<ReceivedPacket> {
    if outcomes == [] then []
    else
      var before, o := Chosen(outcomes[..|outcomes| - 1], accepted), outcomes[|outcomes| - 1];
      if o.accepted == accepted then before + [o.packet] else before
  }

  /** The packets in the hands of workers whose job is at a chosen stage. */
  function Held(ws: seq<PS.Worker>, jobs: seq<Job>, stage: Job -> bool): multiset<ReceivedPacket>
    requires |ws| == |jobs|
  {
    if ws == [] then multiset{}
    else One(ws[0], jobs[0], stage) + Held(ws[1..], jobs[1..], stage)
  }

  function One(w: PS.Worker, job: Job, stage: Job -> bool): multiset<ReceivedPacket> {
    if w.Executing? && stage(job) then multiset{w.packet} else multiset{}
  }

  const BEGUN: Job -> bool := (j: Job) => !j.Fresh?
  const TO_TELL: Job -> bool := (j: Job) => j == Judged(true)

  lemma {:induction false} HeldUpdate(ws: seq<PS.Worker>, jobs: seq<Job>, i: nat, w: PS.Worker, j: Job, stage: Job -> bool)
    requires |ws| == |jobs| && i < |ws|
    ensures Held(ws[i := w], jobs[i := j], stage) + One(ws[i], jobs[i], stage)
         == Held(ws, jobs, stage) + One(w, j, stage)
  {
    hide One;
    if i == 0 {
      assert ws[i := w][1..] == ws[1..] && jobs[i := j][1..] == jobs[1..];
      var rest := Held(ws[1..], jobs[1..], stage);
      assert One(w, j, stage) + rest + One(ws[0], jobs[0], stage) == One(ws[0], jobs[0], stage) + rest + One(w, j, stage);
    } else {
      assert ws[i := w][1..] == ws[1..][i - 1 := w] && jobs[i := j][1..] == jobs[1..][i - 1 := j];
      HeldUpdate(ws[1..], jobs[1..], i - 1, w, j, stage);
      var first, rest := One(ws[0], jobs[0], stage), Held(ws[1..], jobs[1..], stage);
      var rest' := Held(ws[i := w][1..], jobs[i := j][1..], stage);
      assert first + rest' + One(ws[i], jobs[i], stage) == first + (rest' + One(ws[i], jobs[i], stage));
      assert first + rest + One(w, j, stage) == first + (rest + One(w, j, stage));
    }
  }

  /** Only workers that execute hold packets. */
  lemma {:induction false} HeldSame(ws: seq<PS.Worker>, ws': seq<PS.Worker>, jobs: seq<Job>, stage: Job -> bool)
    requires |ws| == |ws'| == |jobs|
    requires forall i :: 0 <= i < |ws| ==> ws[i] == ws'[i] || (!ws[i].Executing? && !ws'[i].Executing?)
    ensures Held(ws, jobs, stage) == Held(ws', jobs, stage)
  {
    if ws != [] {
      assert ws[0] == ws'[0] || (!ws[0].Executing? && !ws'[0].Executing?);
      forall i | 0 <= i < |ws[1..]|
        ensures ws[1..][i] == ws'[1..][i] || (!ws[1..][i].Executing? && !ws'[1..][i].Executing?)
      {
        assert ws[1..][i] == ws[i + 1] && ws'[1..][i] == ws'[i + 1];
      }
      HeldSame(ws[1..], ws'[1..], jobs[1..], stage);
    }
  }

  lemma {:induction false} HeldNone(ws: seq<PS.Worker>, jobs: seq<Job>, stage: Job -> bool)
    requires |ws| == |jobs| && forall i :: 0 <= i < |ws| ==> !ws[i].Executing?
    ensures Held(ws, jobs, stage) == multiset{}
  {
    if ws != [] {
      HeldNone(ws[1..], jobs[1..], stage);
    }
  }

  /* ----- the invariants ----- */

  /** The receiving thread's books. */
  ghost predicate Balanced(s: State) {
    var m := s.pipe.shared.metrics;
    && PacketsIn(s.calls) == Submitted(s.outcomes) + (if s.io.Observed? then [s.io.packet] else [])
    && s.received + (if s.io.Refused? then 1 else 0) == |s.outcomes|
    && s.pipe.accepted == Chosen(s.outcomes, true)
    && m.droppedQueueFull == |Chosen(s.outcomes, false)|
    && m.rejectedStopped == 0
    && multiset(Reported(s.calls, Health.QueueDropped)) + (if s.io.Refused? then multiset{s.io.packet} else multiset{})
       == multiset(Chosen(s.outcomes, false))
  }

  /** One caller submits and stops, and never submits once it stops. */
  ghost predicate Phased(cfg: Config, s: State) {
    && (s.io.Polling? || s.io.Observed? || s.io.Refused? ==> !s.pipe.shared.stopRequested && s.pipe.stopper.Idle?)
    && (s.io.Stopping? ==> !s.pipe.stopper.Idle?)
    && (s.io.Stopping? || s.io.Returned? ==> s.pipe.pendingOnes == 0)
    && (s.io.Returned? ==> s.pipe.stopper.Idle? && PipelineRuns.Drained(s.pipe))
    && (s.io.Observed? || s.io.Refused? ==> BelowLimit(cfg, s))
    && (cfg.limit.Some? ==> s.received <= cfg.limit.value)
  }

  /** The workers' books: every packet is examined once, and told once if its payload is rejected. */
  ghost predicate Worked(s: State) {
    && |s.jobs| == |s.pipe.workers|
    && multiset(s.examined) == multiset(s.pipe.finished) + Held(s.pipe.workers, s.jobs, BEGUN)
    && multiset(Reported(s.calls, Health.PayloadRejected)) + Held(s.pipe.workers, s.jobs, TO_TELL)
       == multiset(RejectedOf(s.examined))
    && s.pipe.shared.metrics.handlerFailures + |RejectedOf(s.pipe.finished)| <= |s.pipe.finished|
    && forall w :: 0 <= w < |s.jobs| ==> JobAgrees(s.pipe.workers[w], s.jobs[w])
  }

  predicate JobAgrees(w: PS.Worker, job: Job) {
    w.Executing? ==>
      match job
      case Fresh => true
      case Judged(rejected) => rejected == Rejects(w.packet)
      case Told => Rejects(w.packet)
  }

  ghost predicate Inv(cfg: Config, s: State) {
    PS.Inv(cfg.pipeline, s.pipe) && Balanced(s) && Phased(cfg, s) && Worked(s) && Grounded(s.calls)
  }

  lemma PipeInvStep(cfg: Config, s: State, step: Step)
    requires PS.Inv(cfg.pipeline, s.pipe) && Enabled(cfg, s, step)
    ensures PS.Inv(cfg.pipeline, Apply(cfg, s, step).pipe)
  {
    hide PS.Inv, PS.Enabled, PS.Apply;
    if q: PS.Step :| PipeStep(s, step) == Some(q) {
      PS.StepInv(cfg.pipeline, s.pipe, q);
    }
  }

  lemma ReportedSnoc(calls: seq<Call>, c: Call, kind: Health.IssueKind)
    ensures PacketsIn(calls + [c]) == PacketsIn(calls) + (if c.PacketCall? then [c.packet] else [])
    ensures Reported(calls + [c], kind)
         == Reported(calls, kind) + (if c.IssueCall? && c.kind == kind then [c.packet] else [])
  {
    assert (calls + [c])[..|calls|] == calls;
  }

  lemma ChosenSnoc(outcomes: seq<Outcome>, o: Outcome, accepted: bool)
    ensures Chosen(outcomes + [o], accepted)
         == Chosen(outcomes, accepted) + (if o.accepted == accepted then [o.packet] else [])
    ensures Submitted(outcomes + [o]) == Submitted(outcomes) + [o.packet]
  {
    assert (outcomes + [o])[..|outcomes|] == outcomes;
  }

  lemma SubmitEffect(cfg: Pipeline.Config, p: PS.State, packet: ReceivedPacket)
    ensures PS.Enabled(p, PS.Submit(packet))
    ensures var p', r := PS.Apply(cfg, p, PS.Submit(packet)), Pipeline.SubmitSection(cfg.capacity, p.shared, packet).1;
            var m, m' := p.shared.metrics, p'.shared.metrics;
            && (r == Pipeline.Stopped <==> !p.shared.accepting)
            && p'.accepted == (if r == Pipeline.Accepted then p.accepted + [packet] else p.accepted)
            && m'.droppedQueueFull == m.droppedQueueFull + (if r == Pipeline.QueueFull then 1 else 0)
            && m'.rejectedStopped == m.rejectedStopped + (if r == Pipeline.Stopped then 1 else 0)
  {
  }

  lemma BalancedSubmit(cfg: Config, s: State)
    requires PS.Bounded(cfg.pipeline, s.pipe) && Balanced(s) && Phased(cfg, s) && Enabled(cfg, s, Submit)
    ensures Balanced(Apply(cfg, s, Submit))
  {
    var p := s.io.packet;
    var r := Pipeline.SubmitSection(cfg.pipeline.capacity, s.pipe.shared, p).1;
    SubmitEffect(cfg.pipeline, s.pipe, p);
    ChosenSnoc(s.outcomes, Outcome(p, r == Pipeline.Accepted), true);
    ChosenSnoc(s.outcomes, Outcome(p, r == Pipeline.Accepted), false);
    hide Chosen, Submitted, Reported, PacketsIn, PS.Apply, PS.Enabled, Pipeline.SubmitSection;
  }

  lemma BalancedReceive(cfg: Config, s: State, p: ReceivedPacket)
    requires Balanced(s) && Enabled(cfg, s, Receive(p))
    ensures Balanced(Apply(cfg, s, Receive(p)))
  {
    hide Chosen, Submitted, Reported, PacketsIn, BelowLimit;
    ReportedSnoc(s.calls, PacketCall(p), Health.QueueDropped);
    var reported := Reported(s.calls, Health.QueueDropped);
    assert reported + [] == reported;
  }

  lemma BalancedReportDrop(cfg: Config, s: State)
    requires Balanced(s) && Enabled(cfg, s, ReportDrop)
    ensures Balanced(Apply(cfg, s, ReportDrop))
  {
    hide Chosen, Submitted, Reported, PacketsIn;
    ReportedSnoc(s.calls, IssueCall(s.io.packet, Health.QueueDropped), Health.QueueDropped);
    assert PacketsIn(s.calls) + [] == PacketsIn(s.calls);
    var reported := Reported(s.calls, Health.QueueDropped);
    assert multiset(reported + [s.io.packet]) == multiset(reported) + multiset{s.io.packet};
  }

  lemma BalancedTell(cfg: Config, s: State, w: nat)
    requires Balanced(s) && Enabled(cfg, s, Tell(w))
    ensures Balanced(Apply(cfg, s, Tell(w)))
  {
    hide Chosen, Submitted, Reported, PacketsIn;
    ReportedSnoc(s.calls, IssueCall(s.pipe.workers[w].packet, Health.PayloadRejected), Health.QueueDropped);
    assert PacketsIn(s.calls) + [] == PacketsIn(s.calls);
    var reported := Reported(s.calls, Health.QueueDropped);
    assert reported + [] == reported;
  }

  lemma BalancedStep(cfg: Config, s: State, step: Step)
    requires PS.Bounded(cfg.pipeline, s.pipe) && Balanced(s) && Phased(cfg, s) && Enabled(cfg, s, step)
    ensures Balanced(Apply(cfg, s, step))
  {
    hide Chosen, Submitted, Reported, PacketsIn, Held, PS.AnySleeper;
    if step.Submit? {
      BalancedSubmit(cfg, s);
    } else if step.Receive? {
      BalancedReceive(cfg, s, step.packet);
    } else if step.ReportDrop? {
      BalancedReportDrop(cfg, s);
    } else if step.Tell? {
      BalancedTell(cfg, s, step.worker);
    }
  }

  /** What a step of the pipeline does to the fields that tell how far a stop has come. */
  lemma StopEffect(cfg: Pipeline.Config, p: PS.State, q: PS.Step)
    requires PS.Enabled(p, q)
    ensures var p' := PS.Apply(cfg, p, q);
            && p'.shared.stopRequested == (p.shared.stopRequested || q.StopBegin?)
            && (p'.stopper.Idle? <==> q.StopReturn? || (p.stopper.Idle? && !q.StopBegin?))
            && (q.StopReturn? ==> p' == p.(stopper := PS.Idle))
            && (q.Submit? || p'.pendingOnes <= p.pendingOnes)
  {
    hide PS.AnySleeper;
  }

  /** Nothing happens after the return. */
  lemma ReturnedIsFinal(cfg: Config, s: State, step: Step)
    requires Phased(cfg, s) && s.io.Returned?
    ensures !Enabled(cfg, s, step)
  {
    if step.Pipe? && step.step.NotifyOne? {
      assert s.pipe.pendingOnes == 0;
    }
  }

  lemma PhasedQuiet(cfg: Config, s: State, step: Step)
    requires Phased(cfg, s) && Enabled(cfg, s, step) && PipeStep(s, step).None?
    ensures Phased(cfg, Apply(cfg, s, step))
  {
    hide PipelineRuns.Drained, Rejects;
  }

  lemma PhasedSubmit(cfg: Config, s: State)
    requires Phased(cfg, s) && Enabled(cfg, s, Submit)
    ensures Phased(cfg, Apply(cfg, s, Submit))
  {
    assert PS.Enabled(s.pipe, PS.Submit(s.io.packet));
    hide PipelineRuns.Drained, PS.Apply, PS.Enabled;
    StopEffect(cfg.pipeline, s.pipe, PS.Submit(s.io.packet));
  }

  lemma PhasedPipe(cfg: Config, s: State, q: PS.Step)
    requires cfg.Valid() && PS.Inv(cfg.pipeline, s.pipe) && Phased(cfg, s) && !s.io.Returned? && Enabled(cfg, s, Pipe(q))
    ensures Phased(cfg, Apply(cfg, s, Pipe(q)))
  {
    hide PS.Inv, PipelineRuns.Drained, PS.Apply, PS.Enabled;
    StopEffect(cfg.pipeline, s.pipe, q);
    if q.StopReturn? {
      PipelineRuns.StopDrained(cfg.pipeline, s.pipe);
      DrainedReturn(s.pipe);
    }
  }

  lemma PhasedFinish(cfg: Config, s: State, w: nat, ok: bool)
    requires Phased(cfg, s) && !s.io.Returned? && Enabled(cfg, s, Finish(w, ok))
    ensures Phased(cfg, Apply(cfg, s, Finish(w, ok)))
  {
    hide PipelineRuns.Drained, PS.Apply, PS.Enabled;
    StopEffect(cfg.pipeline, s.pipe, PS.Finish(w, ok));
  }

  lemma PhasedStop(cfg: Config, s: State)
    requires Phased(cfg, s) && Enabled(cfg, s, Stop)
    ensures Phased(cfg, Apply(cfg, s, Stop))
  {
    hide PipelineRuns.Drained, PS.Apply, PS.Enabled;
    StopEffect(cfg.pipeline, s.pipe, PS.StopBegin);
  }

  lemma PhasedStep(cfg: Config, s: State, step: Step)
    requires cfg.Valid() && PS.Inv(cfg.pipeline, s.pipe) && Phased(cfg, s) && Enabled(cfg, s, step)
    ensures Phased(cfg, Apply(cfg, s, step))
  {
    if s.io.Returned? {
      ReturnedIsFinal(cfg, s, step);
    } else {
      hide Phased, PS.Inv, Apply, PS.Enabled;
      match step
      case Submit => PhasedSubmit(cfg, s);
      case Stop => PhasedStop(cfg, s);
      case Pipe(q) => PhasedPipe(cfg, s, q);
      case Finish(w, ok) => PhasedFinish(cfg, s, w, ok);
      case _ => PhasedQuiet(cfg, s, step);
    }
  }

  lemma DrainedReturn(p: PS.State)
    requires PipelineRuns.Drained(p)
    ensures PipelineRuns.Drained(p.(stopper := PS.Idle))
  {
  }

  lemma WorkedIo(cfg: Config, s: State, step: Step)
    requires Worked(s) && Enabled(cfg, s, step) && (step.Receive? || step.Submit? || step.ReportDrop? || step.Stop?)
    ensures Worked(Apply(cfg, s, step))
  {
    hide Held, RejectedOf, Reported, JobAgrees, BelowLimit;
    var told := Reported(s.calls, Health.PayloadRejected);
    assert told + [] == told;
    match step
    case Receive(p) => ReportedSnoc(s.calls, PacketCall(p), Health.PayloadRejected);
    case ReportDrop => ReportedSnoc(s.calls, IssueCall(s.io.packet, Health.QueueDropped), Health.PayloadRejected);
    case _ =>
  }

  lemma WorkedPipe(cfg: Config, s: State, q: PS.Step)
    requires Worked(s) && Enabled(cfg, s, Pipe(q)) && !q.Lock?
    ensures Worked(Apply(cfg, s, Pipe(q)))
  {
    hide Held, RejectedOf, Reported, PS.AnySleeper;
    var s' := Apply(cfg, s, Pipe(q));
    HeldSame(s.pipe.workers, s'.pipe.workers, s.jobs, BEGUN);
    HeldSame(s.pipe.workers, s'.pipe.workers, s.jobs, TO_TELL);
  }

  /** How the packets at a stage change when worker w moves on. */
  lemma MoveOn(s: State, w: nat, worker: PS.Worker, job: Job, stage: Job -> bool)
    requires |s.jobs| == |s.pipe.workers| && w < |s.jobs|
    ensures var held := Held(s.pipe.workers, s.jobs, stage);
            var held' := Held(s.pipe.workers[w := worker], s.jobs[w := job], stage);
            var before, after := One(s.pipe.workers[w], s.jobs[w], stage), One(worker, job, stage);
            && (before == after ==> held' == held)
            && (before == multiset{} ==> held' == held + after)
            && (after == multiset{} ==> held == held' + before)
  {
    hide Held, One;
    HeldUpdate(s.pipe.workers, s.jobs, w, worker, job, stage);
    var held := Held(s.pipe.workers, s.jobs, stage);
    var held' := Held(s.pipe.workers[w := worker], s.jobs[w := job], stage);
    var before, after := One(s.pipe.workers[w], s.jobs[w], stage), One(worker, job, stage);
    assert held' == held' + before - before && held == held + after - after;
  }

  /** A worker that gets the lock waits, leaves, or begins to execute. */
  lemma LockEffect(cfg: Pipeline.Config, p: PS.State, w: nat)
    requires PS.Enabled(p, PS.Lock(w))
    ensures var p' := PS.Apply(cfg, p, PS.Lock(w));
            && w < |p.workers| && !p.workers[w].Executing?
            && |p'.workers| == |p.workers| && p'.workers == p.workers[w := p'.workers[w]]
            && p'.finished == p.finished && p'.shared.metrics == p.shared.metrics
  {
  }

  lemma WorkedLock(cfg: Config, s: State, w: nat)
    requires Worked(s) && Enabled(cfg, s, Pipe(PS.Lock(w)))
    ensures Worked(Apply(cfg, s, Pipe(PS.Lock(w))))
  {
    hide Held, RejectedOf, Reported, PS.Apply, PS.Enabled;
    LockEffect(cfg.pipeline, s.pipe, w);
    var s' := Apply(cfg, s, Pipe(PS.Lock(w)));
    MoveOn(s, w, s'.pipe.workers[w], Fresh, BEGUN);
    MoveOn(s, w, s'.pipe.workers[w], Fresh, TO_TELL);
  }

  lemma AddBoth(a: multiset<ReceivedPacket>, b: multiset<ReceivedPacket>, c: multiset<ReceivedPacket>, x: multiset<ReceivedPacket>)
    requires a == b + c
    ensures a + x == b + (c + x) == b + x + c
  {
  }

  lemma WorkedProcess(cfg: Config, s: State, w: nat)
    requires Worked(s) && Enabled(cfg, s, Process(w))
    ensures Worked(Apply(cfg, s, Process(w)))
  {
    hide Held, RejectedOf, Reported, Rejects;
    var p := s.pipe.workers[w].packet;
    var jobs := s.jobs[w := Judged(Rejects(p))];
    MoveOn(s, w, s.pipe.workers[w], Judged(Rejects(p)), BEGUN);
    MoveOn(s, w, s.pipe.workers[w], Judged(Rejects(p)), TO_TELL);
    assert s.pipe.workers[w := s.pipe.workers[w]] == s.pipe.workers;
    SamplesSnoc(s.examined, p);
    AddBoth(multiset(s.examined), multiset(s.pipe.finished), Held(s.pipe.workers, s.jobs, BEGUN), multiset{p});
    AddBoth(multiset(RejectedOf(s.examined)), multiset(Reported(s.calls, Health.PayloadRejected)),
            Held(s.pipe.workers, s.jobs, TO_TELL), One(s.pipe.workers[w], jobs[w], TO_TELL));
    assert multiset(s.examined + [p]) == multiset(s.examined) + multiset{p};
    assert multiset(RejectedOf(s.examined) + [p]) == multiset(RejectedOf(s.examined)) + multiset{p};
    assert Rejects(p) ==> One(s.pipe.workers[w], jobs[w], TO_TELL) == multiset{p};
    hide One;
  }

  lemma HeldAfterTell(s: State, w: nat)
    requires |s.jobs| == |s.pipe.workers| && w < |s.jobs| && s.pipe.workers[w].Executing? && s.jobs[w] == Judged(true)
    ensures var jobs := s.jobs[w := Told];
            && Held(s.pipe.workers, jobs, BEGUN) == Held(s.pipe.workers, s.jobs, BEGUN)
            && Held(s.pipe.workers, s.jobs, TO_TELL) == Held(s.pipe.workers, jobs, TO_TELL) + multiset{s.pipe.workers[w].packet}
  {
    hide Held;
    MoveOn(s, w, s.pipe.workers[w], Told, BEGUN);
    MoveOn(s, w, s.pipe.workers[w], Told, TO_TELL);
    assert s.pipe.workers[w := s.pipe.workers[w]] == s.pipe.workers;
  }

  lemma ToldBalance(told: seq<ReceivedPacket>, p: ReceivedPacket, held: multiset<ReceivedPacket>, held': multiset<ReceivedPacket>)
    requires held == held' + multiset{p}
    ensures multiset(told + [p]) + held' == multiset(told) + held
  {
    assert multiset(told + [p]) == multiset(told) + multiset{p};
  }

  lemma WorkedTell(cfg: Config, s: State, w: nat)
    requires Worked(s) && Enabled(cfg, s, Tell(w))
    ensures Worked(Apply(cfg, s, Tell(w)))
  {
    hide Held, RejectedOf, Reported, Rejects, One;
    var p := s.pipe.workers[w].packet;
    HeldAfterTell(s, w);
    ReportedSnoc(s.calls, IssueCall(p, Health.PayloadRejected), Health.PayloadRejected);
    ToldBalance(Reported(s.calls, Health.PayloadRejected), p,
                Held(s.pipe.workers, s.jobs, TO_TELL), Held(s.pipe.workers, s.jobs[w := Told], TO_TELL));
  }

  lemma WorkedFinish(cfg: Config, s: State, w: nat, ok: bool)
    requires Worked(s) && Enabled(cfg, s, Finish(w, ok))
    ensures Worked(Apply(cfg, s, Finish(w, ok)))
  {
    hide Held, RejectedOf, Reported, Rejects;
    var p, s' := s.pipe.workers[w].packet, Apply(cfg, s, Finish(w, ok));
    assert s'.pipe.finished == s.pipe.finished + [p] && s'.pipe.workers == s.pipe.workers[w := PS.AtLock];
    HeldAfterFinish(s, w);
    FailuresAfterFinish(s, s', p);
    assert multiset(s.pipe.finished + [p]) == multiset(s.pipe.finished) + multiset{p};
    hide Apply, Enabled;
  }

  lemma HeldAfterFinish(s: State, w: nat)
    requires |s.jobs| == |s.pipe.workers| && w < |s.jobs| && s.pipe.workers[w].Executing?
    requires s.jobs[w] == Judged(false) || s.jobs[w].Told?
    ensures var ws := s.pipe.workers[w := PS.AtLock];
            && Held(s.pipe.workers, s.jobs, BEGUN) == Held(ws, s.jobs, BEGUN) + multiset{s.pipe.workers[w].packet}
            && Held(ws, s.jobs, TO_TELL) == Held(s.pipe.workers, s.jobs, TO_TELL)
  {
    hide Held;
    MoveOn(s, w, PS.AtLock, s.jobs[w], BEGUN);
    MoveOn(s, w, PS.AtLock, s.jobs[w], TO_TELL);
    assert s.jobs[w := s.jobs[w]] == s.jobs;
  }

  lemma FailuresAfterFinish(s: State, s': State, p: ReceivedPacket)
    requires s'.pipe.finished == s.pipe.finished + [p]
    requires s.pipe.shared.metrics.handlerFailures + |RejectedOf(s.pipe.finished)| <= |s.pipe.finished|
    requires s'.pipe.shared.metrics.handlerFailures <= s.pipe.shared.metrics.handlerFailures + (if Rejects(p) then 0 else 1)
    ensures s'.pipe.shared.metrics.handlerFailures + |RejectedOf(s'.pipe.finished)| <= |s'.pipe.finished|
  {
    hide Rejects, RejectedOf;
    SamplesSnoc(s.pipe.finished, p);
  }

  lemma WorkedStep(cfg: Config, s: State, step: Step)
    requires Worked(s) && Enabled(cfg, s, step)
    ensures Worked(Apply(cfg, s, step))
  {
    hide Worked, Enabled, Apply;
    match step
    case Pipe(q) =>
      if q.Lock? {
        WorkedLock(cfg, s, q.worker);
      } else {
        WorkedPipe(cfg, s, q);
      }
    case Process(w) => WorkedProcess(cfg, s, w);
    case Tell(w) => WorkedTell(cfg, s, w);
    case Finish(w, ok) => WorkedFinish(cfg, s, w, ok);
    case _ => WorkedIo(cfg, s, step);
  }

  lemma GroundedSnoc(calls: seq<Call>, c: Call)
    requires Grounded(calls)
    requires c.IssueCall? ==> Numbers(Seen(calls), Tracker.IdentifySource(c.packet)) != []
    ensures Grounded(calls + [c])
  {
    hide Numbers, Seen;
    var all := calls + [c];
    forall k | 0 <= k < |all| && all[k].IssueCall?
      ensures Numbers(Seen(all[..k]), Tracker.IdentifySource(all[k].packet)) != []
    {
      assert all[..k] == calls[..k];
      assert calls[..|calls|] == calls;
    }
  }

  lemma {:induction false} PacketsSeen(calls: seq<Call>, p: ReceivedPacket)
    requires p in PacketsIn(calls)
    ensures Numbers(Seen(calls), Tracker.IdentifySource(p)) != []
  {
    var before, c := calls[..|calls| - 1], calls[|calls| - 1];
    assert calls == before + [c];
    SeenSnoc(before, c);
    if p in PacketsIn(before) {
      PacketsSeen(before, p);
    }
  }

  lemma {:induction false} ChosenSubmitted(outcomes: seq<Outcome>, accepted: bool, p: ReceivedPacket)
    requires p in Chosen(outcomes, accepted)
    ensures p in Submitted(outcomes)
  {
    var before, o := outcomes[..|outcomes| - 1], outcomes[|outcomes| - 1];
    assert Submitted(outcomes)[|before|] == o.packet;
    if p in Chosen(before, accepted) {
      ChosenSubmitted(before, accepted, p);
      assert Submitted(before) == Submitted(outcomes)[..|before|];
    }
  }

  /** Whatever a worker executes was observed before it was submitted. */
  lemma ExecutedWasSeen(cfg: Config, s: State, w: nat)
    requires PS.ExactlyOnce(s.pipe) && Balanced(s) && Executes(s, w)
    ensures Numbers(Seen(s.calls), Tracker.IdentifySource(s.pipe.workers[w].packet)) != []
  {
    hide Numbers, Seen, Reported;
    var p := s.pipe.workers[w].packet;
    PS.SumUpdate(s.pipe.workers, w, PS.AtLock, PS.Holding(p));
    assert multiset(s.pipe.taken)[p] > 0;
    assert p in s.pipe.taken;
    assert p in Chosen(s.outcomes, true);
    ChosenSubmitted(s.outcomes, true, p);
    PacketsSeen(s.calls, p);
  }

  lemma RefusedWasSeen(s: State)
    requires Balanced(s) && s.io.Refused?
    ensures Numbers(Seen(s.calls), Tracker.IdentifySource(s.io.packet)) != []
  {
    hide Numbers, Seen, Reported;
    var p := s.io.packet;
    assert p in multiset(Chosen(s.outcomes, false));
    ChosenSubmitted(s.outcomes, false, p);
    PacketsSeen(s.calls, p);
  }

  lemma GroundedStep(cfg: Config, s: State, step: Step)
    requires PS.ExactlyOnce(s.pipe) && Balanced(s) && Grounded(s.calls) && Enabled(cfg, s, step)
    ensures Grounded(Apply(cfg, s, step).calls)
  {
    hide PS.ExactlyOnce, Balanced, Grounded, BelowLimit, PS.Enabled, PS.Apply;
    match step
    case Receive(p) => GroundedSnoc(s.calls, PacketCall(p));
    case ReportDrop =>
      RefusedWasSeen(s);
      GroundedSnoc(s.calls, IssueCall(s.io.packet, Health.QueueDropped));
    case Tell(w) =>
      ExecutedWasSeen(cfg, s, w);
      GroundedSnoc(s.calls, IssueCall(s.pipe.workers[w].packet, Health.PayloadRejected));
    case _ =>
  }

  lemma InitInv(cfg: Config)
    requires cfg.Valid()
    ensures Inv(cfg, Init(cfg))
  {
    PS.InitInv(cfg.pipeline);
    HeldNone(Init(cfg).pipe.workers, Init(cfg).jobs, BEGUN);
    HeldNone(Init(cfg).pipe.workers, Init(cfg).jobs, TO_TELL);
  }

  lemma StepInv(cfg: Config, s: State, step: Step)
    requires cfg.Valid() && Inv(cfg, s) && Enabled(cfg, s, step)
    ensures Inv(cfg, Apply(cfg, s, step))
  {
    hide Balanced, Phased, Worked, Grounded, Enabled, Apply, PS.Bounded, PS.ExactlyOnce;
    PipeInvStep(cfg, s, step);
    BalancedStep(cfg, s, step);
    PhasedStep(cfg, s, step);
    WorkedStep(cfg, s, step);
    GroundedStep(cfg, s, step);
  }

  lemma {:induction false} RunInv(cfg: Config, s: State, steps: seq<Step>)
    requires cfg.Valid() && Inv(cfg, s) && CanRun(cfg, s, steps)
    ensures Inv(cfg, After(cfg, s, steps))
    decreases |steps|
  {
    hide Inv, Enabled, Apply;
    if steps != [] {
      StepInv(cfg, s, steps[0]);
      RunInv(cfg, Apply(cfg, s, steps[0]), steps[1..]);
    }
  }
}
