/** WorkerPipeline: a bounded queue, a mutex with a condition variable, and a fixed set of workers.

    The sections the source runs under `state_mutex_` are the methods of a class and, beside them,
    functions on the guarded data.  `PipelineSystem` interleaves those functions. */
module Pipeline {
  import opened Words
  import opened Types

  datatype Config = Config(workers: nat, capacity: nat) {
    predicate Valid() {
      workers > 0 && capacity > 0
    }
  }

  datatype SubmitResult = Accepted | QueueFull | Stopped

  datatype Metrics = Metrics(
    submitted: nat,
    processed: nat,
    droppedQueueFull: nat,
    rejectedStopped: nat,
    handlerFailures: nat,
    highWatermark: nat)

  const NO_METRICS := Metrics(0, 0, 0, 0, 0, 0)

  /** The data guarded by `state_mutex_`. */
  datatype Shared = Shared(queue: seq<ReceivedPacket>, metrics: Metrics, accepting: bool, stopRequested: bool)

  const FRESH := Shared([], NO_METRICS, true, false)

  /** The section of `try_submit`. */
  function SubmitSection(capacity: nat, sh: Shared, p: ReceivedPacket): (Shared, SubmitResult) {
    var m := sh.metrics;
    if !sh.accepting then
      (sh.(metrics := m.(rejectedStopped := m.rejectedStopped + 1)), Stopped)
    else if |sh.queue| >= capacity then
      (sh.(metrics := m.(droppedQueueFull := m.droppedQueueFull + 1)), QueueFull)
    else
      var queue := sh.queue + [p];
      (sh.(queue := queue,
           metrics := m.(submitted := m.submitted + 1, highWatermark := Max(m.highWatermark, |queue|))),
       Accepted)
  }

  /** What a worker does next after one look at the guarded data. */
  datatype Outlook = Wait | Leave | Work(packet: ReceivedPacket)

  /** The section of `worker_loop`: the wait predicate, then taking the front of the queue. */
  function TakeSection(sh: Shared): (Shared, Outlook) {
    if !(sh.stopRequested || sh.queue != []) then (sh, Wait)
    else if sh.queue == [] then (sh, Leave)
    else (sh.(queue := sh.queue[1..]), Work(sh.queue[0]))
  }

  /** The section that counts one finished processor call. */
  function FinishSection(sh: Shared, ok: bool): Shared {
    var m := sh.metrics;
    sh.(metrics := if ok then m.(processed := m.processed + 1)
                         else m.(handlerFailures := m.handlerFailures + 1))
  }

  /** The section of `request_stop`. */
  function StopSection(sh: Shared): Shared {
    sh.(accepting := false, stopRequested := true)
  }

  /** The guarded fields and the four critical sections, as the source updates them in place. */
  class WorkerPipeline {
    const config: Config
    var queue: seq<ReceivedPacket>
    var metrics: Metrics
    var accepting: bool
    var stopRequested: bool

    ghost function View(): Shared
      reads this
    {
      Shared(queue, metrics, accepting, stopRequested)
    }

    constructor (config: Config)
      requires config.Valid()
      ensures this.config == config && View() == FRESH
    {
      this.config := config;
      queue, metrics, accepting, stopRequested := [], NO_METRICS, true, false;
    }

    method TrySubmit(packet: ReceivedPacket) returns (r: SubmitResult)
      modifies this
      ensures (View(), r) == SubmitSection(config.capacity, old(View()), packet)
      ensures r == Stopped <==> !old(accepting)
      ensures r == Accepted <==> old(accepting) && |old(queue)| < config.capacity
      ensures queue == if r == Accepted then old(queue) + [packet] else old(queue)
    {
      if !accepting {
        metrics := metrics.(rejectedStopped := metrics.rejectedStopped + 1);
        return Stopped;
      }
      if |queue| >= config.capacity {
        metrics := metrics.(droppedQueueFull := metrics.droppedQueueFull + 1);
        return QueueFull;
      }
      queue := queue + [packet];
      metrics := metrics.(submitted := metrics.submitted + 1);
      metrics := metrics.(highWatermark := Max(metrics.highWatermark, |queue|));
      return Accepted;
    }

    method TakeOrWait() returns (outlook: Outlook)
      modifies this
      ensures (View(), outlook) == TakeSection(old(View()))
    {
      if !(stopRequested || queue != []) {
        return Wait;
      }
      if queue == [] {
        return Leave;
      }
      outlook := Work(queue[0]);
      queue := queue[1..];
    }

    method CountFinished(ok: bool)
      modifies this
      ensures View() == FinishSection(old(View()), ok)
      ensures metrics.processed - old(metrics.processed) == (if ok then 1 else 0)
      ensures metrics.handlerFailures - old(metrics.handlerFailures) == (if ok then 0 else 1)
    {
      if ok {
        metrics := metrics.(processed := metrics.processed + 1);
      } else {
        metrics := metrics.(handlerFailures := metrics.handlerFailures + 1);
      }
    }

    method RequestStop()
      modifies this
      ensures View() == StopSection(old(View()))
    {
      accepting := false;
      stopRequested := true;
    }
  }
}

/** Every interleaving of submitters, workers, notifications and one stop caller at a time. */
module PipelineSystem {
  import opened Types
  import opened Pipeline

  /** A worker about to take the lock, blocked on the condition variable, inside the processor, or
      returned from its loop. */
  datatype Worker = AtLock | Sleeping | Executing(packet: ReceivedPacket) | Exited

  /** The caller that holds `lifecycle_mutex_`: between its critical section and `notify_all`, or
      joining worker `next`. */
  datatype Stopper = Idle | Notifying | Joining(next: nat)

  /** `pendingOnes` counts the submitters between their critical section and `notify_one`.
      `accepted`, `taken` and `finished` record the packets in the order of those events. */
  datatype State = State(
    shared: Shared,
    workers: seq<Worker>,
    pendingOnes: nat,
    stopper: Stopper,
    accepted: seq<ReceivedPacket>,
    taken: seq<ReceivedPacket>,
    finished: seq<ReceivedPacket>)

  function Init(cfg: Config): State {
    State(FRESH, seq(cfg.workers, _ => AtLock), 0, Idle, [], [], [])
  }

  datatype Step =
    | Submit(packet: ReceivedPacket)
    | NotifyOne(woken: Option<nat>)
    | StopBegin
    | NotifyAll
    | SpuriousWake(worker: nat)
    | Lock(worker: nat)
    | Finish(worker: nat, ok: bool)
    | Join
    | StopReturn

  ghost predicate AnySleeper(ws: seq<Worker>) {
    exists i :: 0 <= i < |ws| && ws[i].Sleeping?
  }

  ghost predicate Enabled(s: State, step: Step) {
    match step
    case Submit(_) => true
    case NotifyOne(None) => s.pendingOnes > 0 && !AnySleeper(s.workers)
    case NotifyOne(Some(w)) => s.pendingOnes > 0 && w < |s.workers| && s.workers[w].Sleeping?
    case StopBegin => s.stopper.Idle?
    case NotifyAll => s.stopper.Notifying?
    case SpuriousWake(w) => w < |s.workers| && s.workers[w].Sleeping?
    case Lock(w) => w < |s.workers| && s.workers[w].AtLock?
    case Finish(w, _) => w < |s.workers| && s.workers[w].Executing?
    case Join => s.stopper.Joining? && s.stopper.next < |s.workers| && s.workers[s.stopper.next].Exited?
    case StopReturn => s.stopper.Joining? && s.stopper.next >= |s.workers|
  }

  function WakeAll(ws: seq<Worker>): (r: seq<Worker>)
    ensures |r| == |ws|
    ensures forall i :: 0 <= i < |ws| ==> r[i] == if ws[i].Sleeping? then AtLock else ws[i]
  {
    seq(|ws|, i requires 0 <= i < |ws| => if ws[i].Sleeping? then AtLock else ws[i])
  }

  ghost function Apply(cfg: Config, s: State, step: Step): State
    requires Enabled(s, step)
  {
    match step
    case Submit(p) =>
      var (shared, r) := SubmitSection(cfg.capacity, s.shared, p);
      if r == Accepted
      then s.(shared := shared, pendingOnes := s.pendingOnes + 1, accepted := s.accepted + [p])
      else s.(shared := shared)
    case NotifyOne(None) => s.(pendingOnes := s.pendingOnes - 1)
    case NotifyOne(Some(w)) => s.(pendingOnes := s.pendingOnes - 1, workers := s.workers[w := AtLock])
    case StopBegin => s.(shared := StopSection(s.shared), stopper := Notifying)
    case NotifyAll => s.(workers := WakeAll(s.workers), stopper := Joining(0))
    case SpuriousWake(w) => s.(workers := s.workers[w := AtLock])
    case Lock(w) =>
      (match TakeSection(s.shared)
       case (_, Wait) => s.(workers := s.workers[w := Sleeping])
       case (_, Leave) => s.(workers := s.workers[w := Exited])
       case (shared, Work(p)) =>
         s.(shared := shared, workers := s.workers[w := Executing(p)], taken := s.taken + [p]))
    case Finish(w, ok) =>
      s.(shared := FinishSection(s.shared, ok), workers := s.workers[w := AtLock],
         finished := s.finished + [s.workers[w].packet])
    case Join => s.(stopper := Joining(s.stopper.next + 1))
    case StopReturn => s.(stopper := Idle)
  }

  ghost predicate CanRun(cfg: Config, s: State, steps: seq<Step>)
    decreases |steps|
  {
    steps == [] || (Enabled(s, steps[0]) && CanRun(cfg, Apply(cfg, s, steps[0]), steps[1..]))
  }

  ghost function After(cfg: Config, s: State, steps: seq<Step>): State
    requires CanRun(cfg, s, steps)
    decreases |steps|
  {
    if steps == [] then s else After(cfg, Apply(cfg, s, steps[0]), steps[1..])
  }

  /* ----- counting workers ----- */

  function Sum(ws: seq<Worker>, weight: Worker -> nat): nat {
    if ws == [] then 0 else weight(ws[0]) + Sum(ws[1..], weight)
  }

  lemma {:induction false} SumUpdate(ws: seq<Worker>, i: nat, w: Worker, weight: Worker -> nat)
    requires i < |ws|
    ensures Sum(ws[i := w], weight) + weight(ws[i]) == Sum(ws, weight) + weight(w)
  {
    if i == 0 {
      assert ws[i := w][1..] == ws[1..];
    } else {
      assert ws[i := w][1..] == ws[1..][i - 1 := w];
      SumUpdate(ws[1..], i - 1, w, weight);
    }
  }

  lemma {:induction false} SumZero(ws: seq<Worker>, weight: Worker -> nat)
    requires forall i :: 0 <= i < |ws| ==> weight(ws[i]) == 0
    ensures Sum(ws, weight) == 0
  {
    if ws != [] {
      SumZero(ws[1..], weight);
    }
  }

  const HEADING_TO_QUEUE: Worker -> nat := (w: Worker) => if w.AtLock? then 1 else 0
  const IN_PROCESSOR: Worker -> nat := (w: Worker) => if w.Executing? then 1 else 0

  /** Counts the workers that execute packet p. */
  function Holding(p: ReceivedPacket): Worker -> nat {
    (w: Worker) => if w == Executing(p) then 1 else 0
  }

  lemma {:induction false} WakeAllKeeps(ws: seq<Worker>, weight: Worker -> nat)
    requires weight(AtLock) == weight(Sleeping)
    ensures Sum(WakeAll(ws), weight) == Sum(ws, weight)
  {
    if ws != [] {
      assert WakeAll(ws)[1..] == WakeAll(ws[1..]);
      WakeAllKeeps(ws[1..], weight);
    }
  }

  /* ----- the invariants ----- */

  ghost predicate Bounded(cfg: Config, s: State) {
    && |s.workers| == cfg.workers
    && |s.shared.queue| <= s.shared.metrics.highWatermark <= cfg.capacity
    && s.shared.accepting == !s.shared.stopRequested
  }

  /** Accepted packets leave in order, and each is waiting, in a worker's hands, or finished. */
  ghost predicate ExactlyOnce(s: State) {
    && s.accepted == s.taken + s.shared.queue
    && |s.accepted| == s.shared.metrics.submitted
    && |s.finished| == s.shared.metrics.processed + s.shared.metrics.handlerFailures
    && |s.taken| == |s.finished| + Sum(s.workers, IN_PROCESSOR)
    && forall p :: multiset(s.taken)[p] == multiset(s.finished)[p] + Sum(s.workers, Holding(p))
  }

  /** While a worker sleeps, every waiting packet has its own notification or awake worker. */
  ghost predicate NoLostWakeup(s: State) {
    AnySleeper(s.workers) ==> |s.shared.queue| <= s.pendingOnes + Sum(s.workers, HEADING_TO_QUEUE)
  }

  ghost predicate OrderlyStop(s: State) {
    && (s.shared.stopRequested && AnySleeper(s.workers) ==> s.stopper.Notifying?)
    && (forall i :: 0 <= i < |s.workers| && s.workers[i].Exited? ==> s.shared.stopRequested && s.shared.queue == [])
    && (!s.stopper.Idle? ==> s.shared.stopRequested)
    && (s.stopper.Joining? ==>
          && s.stopper.next <= |s.workers|
          && forall i :: 0 <= i < s.stopper.next ==> s.workers[i].Exited?)
  }

  /** With one worker the packets finish in the order in which they were accepted. */
  ghost predicate InOrderAlone(cfg: Config, s: State) {
    cfg.workers == 1 && |s.workers| == 1 ==>
      s.taken == s.finished + (if s.workers[0].Executing? then [s.workers[0].packet] else [])
  }

  ghost predicate Inv(cfg: Config, s: State) {
    Bounded(cfg, s) && ExactlyOnce(s) && NoLostWakeup(s) && OrderlyStop(s) && InOrderAlone(cfg, s)
  }

  lemma BoundedStep(cfg: Config, s: State, step: Step)
    requires Bounded(cfg, s) && Enabled(s, step)
    ensures Bounded(cfg, Apply(cfg, s, step))
  {
  }

  lemma ExactlyOnceStep(cfg: Config, s: State, step: Step)
    requires ExactlyOnce(s) && Enabled(s, step)
    ensures ExactlyOnce(Apply(cfg, s, step))
  {
    var s' := Apply(cfg, s, step);
    QueueStep(cfg, s, step);
    forall p
      ensures multiset(s'.taken)[p] == multiset(s'.finished)[p] + Sum(s'.workers, Holding(p))
    {
      CopiesStep(cfg, s, step, p);
    }
  }

  lemma QueueStep(cfg: Config, s: State, step: Step)
    requires ExactlyOnce(s) && Enabled(s, step)
    ensures var s' := Apply(cfg, s, step);
            && s'.accepted == s'.taken + s'.shared.queue
            && |s'.accepted| == s'.shared.metrics.submitted
            && |s'.finished| == s'.shared.metrics.processed + s'.shared.metrics.handlerFailures
            && |s'.taken| == |s'.finished| + Sum(s'.workers, IN_PROCESSOR)
  {
    WorkersStep(cfg, s, step, IN_PROCESSOR);
    if step.Lock? && s.shared.queue != [] {
      assert s.shared.queue == [s.shared.queue[0]] + s.shared.queue[1..];
    }
  }

  lemma CopiesSnoc(xs: seq<ReceivedPacket>, x: ReceivedPacket, p: ReceivedPacket)
    ensures multiset(xs + [x])[p] == multiset(xs)[p] + (if x == p then 1 else 0)
  {
  }

  /** A packet is in the hands of exactly the workers that took it and have not finished it. */
  lemma HandsStep(cfg: Config, s: State, step: Step, p: ReceivedPacket)
    requires Enabled(s, step)
    ensures var s' := Apply(cfg, s, step);
            match step
            case Lock(w) =>
              s'.finished == s.finished &&
              if s'.workers[w].Executing?
              then s'.taken == s.taken + [s'.workers[w].packet]
                   && Sum(s'.workers, Holding(p)) == Sum(s.workers, Holding(p)) + (if s'.workers[w].packet == p then 1 else 0)
              else s'.taken == s.taken && Sum(s'.workers, Holding(p)) == Sum(s.workers, Holding(p))
            case Finish(w, _) =>
              && s'.taken == s.taken && s'.finished == s.finished + [s.workers[w].packet]
              && Sum(s'.workers, Holding(p)) + (if s.workers[w].packet == p then 1 else 0) == Sum(s.workers, Holding(p))
            case _ =>
              s'.taken == s.taken && s'.finished == s.finished && Sum(s'.workers, Holding(p)) == Sum(s.workers, Holding(p))
  {
    WorkersStep(cfg, s, step, Holding(p));
  }

  lemma CopiesStep(cfg: Config, s: State, step: Step, p: ReceivedPacket)
    requires Enabled(s, step)
    requires multiset(s.taken)[p] == multiset(s.finished)[p] + Sum(s.workers, Holding(p))
    ensures var s' := Apply(cfg, s, step);
            multiset(s'.taken)[p] == multiset(s'.finished)[p] + Sum(s'.workers, Holding(p))
  {
    HandsStep(cfg, s, step, p);
    var s' := Apply(cfg, s, step);
    match step
    case Lock(w) =>
      if s'.workers[w].Executing? {
        CopiesSnoc(s.taken, s'.workers[w].packet, p);
      }
    case Finish(w, _) => CopiesSnoc(s.finished, s.workers[w].packet, p);
    case _ =>
    hide Apply, Enabled, Sum, Holding;
  }

  /** How a step changes a count of the workers that does not tell sleeping ones from waking ones. */
  lemma WorkersStep(cfg: Config, s: State, step: Step, weight: Worker -> nat)
    requires Enabled(s, step) && weight(AtLock) == weight(Sleeping)
    ensures var s' := Apply(cfg, s, step);
            Sum(s'.workers, weight) == Sum(s.workers, weight) +
              match step
              case Lock(w) => weight(s'.workers[w]) - weight(AtLock)
              case Finish(w, _) => weight(AtLock) - weight(s.workers[w])
              case _ => 0
  {
    match step
    case NotifyOne(Some(w)) => SumUpdate(s.workers, w, AtLock, weight);
    case NotifyAll => WakeAllKeeps(s.workers, weight);
    case SpuriousWake(w) => SumUpdate(s.workers, w, AtLock, weight);
    case Lock(w) => SumUpdate(s.workers, w, Apply(cfg, s, step).workers[w], weight);
    case Finish(w, _) => SumUpdate(s.workers, w, AtLock, weight);
    case _ =>
  }

  /** What a step does to the count of awake workers on their way to the queue. */
  lemma HeadingStep(cfg: Config, s: State, step: Step)
    requires Enabled(s, step)
    ensures var s' := Apply(cfg, s, step);
            step.NotifyAll? || Sum(s'.workers, HEADING_TO_QUEUE) == Sum(s.workers, HEADING_TO_QUEUE) +
              match step
              case NotifyOne(Some(_)) => 1
              case SpuriousWake(_) => 1
              case Lock(_) => -1
              case Finish(_, _) => 1
              case _ => 0
  {
    match step
    case NotifyOne(Some(w)) => SumUpdate(s.workers, w, AtLock, HEADING_TO_QUEUE);
    case SpuriousWake(w) => SumUpdate(s.workers, w, AtLock, HEADING_TO_QUEUE);
    case Lock(w) => SumUpdate(s.workers, w, Apply(cfg, s, step).workers[w], HEADING_TO_QUEUE);
    case Finish(w, _) => SumUpdate(s.workers, w, AtLock, HEADING_TO_QUEUE);
    case _ =>
  }

  /** A step leaves a sleeper only where there was one, or where a worker found nothing to do. */
  lemma SleeperStep(cfg: Config, s: State, step: Step)
    requires Enabled(s, step) && AnySleeper(Apply(cfg, s, step).workers)
    ensures AnySleeper(s.workers) || (step.Lock? && s.shared.queue == [])
    ensures !step.NotifyAll?
  {
    var ws := Apply(cfg, s, step).workers;
    var i :| 0 <= i < |ws| && ws[i].Sleeping?;
    if s.workers[i].Sleeping? {
      assert AnySleeper(s.workers);
    }
  }

  lemma NoLostWakeupStep(cfg: Config, s: State, step: Step)
    requires NoLostWakeup(s) && Enabled(s, step)
    ensures NoLostWakeup(Apply(cfg, s, step))
  {
    HeadingStep(cfg, s, step);
    if AnySleeper(Apply(cfg, s, step).workers) {
      SleeperStep(cfg, s, step);
      hide AnySleeper, Sum;
    }
  }

  lemma OrderlyStopStep(cfg: Config, s: State, step: Step)
    requires Bounded(cfg, s) && OrderlyStop(s) && Enabled(s, step)
    ensures OrderlyStop(Apply(cfg, s, step))
  {
    var s' := Apply(cfg, s, step);
    if AnySleeper(s'.workers) && !step.NotifyAll? && s'.shared.stopRequested && !step.StopBegin? {
      var i :| 0 <= i < |s'.workers| && s'.workers[i].Sleeping?;
      assert s.workers[i].Sleeping?;
    }
  }

  lemma InOrderAloneStep(cfg: Config, s: State, step: Step)
    requires InOrderAlone(cfg, s) && Enabled(s, step)
    ensures InOrderAlone(cfg, Apply(cfg, s, step))
  {
  }

  lemma InitInv(cfg: Config)
    requires cfg.Valid()
    ensures Inv(cfg, Init(cfg))
  {
    SumZero(Init(cfg).workers, IN_PROCESSOR);
    forall p
      ensures Sum(Init(cfg).workers, Holding(p)) == 0
    {
      SumZero(Init(cfg).workers, Holding(p));
    }
  }

  lemma StepInv(cfg: Config, s: State, step: Step)
    requires Inv(cfg, s) && Enabled(s, step)
    ensures Inv(cfg, Apply(cfg, s, step))
  {
    BoundedStep(cfg, s, step);
    ExactlyOnceStep(cfg, s, step);
    NoLostWakeupStep(cfg, s, step);
    OrderlyStopStep(cfg, s, step);
    InOrderAloneStep(cfg, s, step);
  }

  lemma {:induction false} RunInv(cfg: Config, s: State, steps: seq<Step>)
    requires Inv(cfg, s) && CanRun(cfg, s, steps)
    ensures Inv(cfg, After(cfg, s, steps))
    decreases |steps|
  {
    if steps != [] {
      StepInv(cfg, s, steps[0]);
      RunInv(cfg, Apply(cfg, s, steps[0]), steps[1..]);
    }
  }
}
