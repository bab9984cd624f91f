/** What every run of the runtime guarantees. */
module RuntimeRuns {
  import opened Words
  import opened Types
  import opened Tracker
  import opened TrackerRuns
  import opened Arrangements
  import opened Monitor
  import opened MonitorRuns
  import opened MonitorReport
  import opened SampleProcessor
  import opened RuntimeSystem

  ghost predicate IsRun(cfg: RuntimeSystem.Config, steps: seq<Step>) {
    cfg.Valid() && CanRun(cfg, RuntimeSystem.Init(cfg), steps)
  }

  /** `run` has returned. */
  ghost predicate IsCompleteRun(cfg: RuntimeSystem.Config, steps: seq<Step>) {
    IsRun(cfg, steps) && RuntimeSystem.After(cfg, RuntimeSystem.Init(cfg), steps).io.Returned?
  }

  ghost function Final(cfg: RuntimeSystem.Config, steps: seq<Step>): RuntimeSystem.State
    requires IsRun(cfg, steps)
  {
    RuntimeSystem.After(cfg, RuntimeSystem.Init(cfg), steps)
  }

  /** What `run` returns. */
  datatype Summary = Summary(received: nat, pipeline: Pipeline.Metrics, samples: Samples, report: Report)

  ghost function SummaryOf(cfg: RuntimeSystem.Config, s: RuntimeSystem.State, now: uint64): Summary {
    Summary(s.received, s.pipe.shared.metrics, SamplesOf(s.examined),
            ReportOf(cfg.health, Monitor.Run(cfg.health.maxSources, s.calls), now))
  }

  lemma FinalInv(cfg: RuntimeSystem.Config, steps: seq<Step>)
    requires IsRun(cfg, steps)
    ensures Inv(cfg, Final(cfg, steps))
  {
    hide Inv;
    RuntimeSystem.InitInv(cfg);
    RuntimeSystem.RunInv(cfg, RuntimeSystem.Init(cfg), steps);
  }

  /** At return every accepted packet has been examined and finished exactly once, and every rejection
      and every drop has been reported exactly once. */
  lemma AllDone(cfg: RuntimeSystem.Config, s: RuntimeSystem.State)
    requires Inv(cfg, s) && s.io.Returned?
    ensures multiset(s.examined) == multiset(s.pipe.finished) == multiset(Chosen(s.outcomes, true))
    ensures multiset(Reported(s.calls, Health.PayloadRejected)) == multiset(RejectedOf(Chosen(s.outcomes, true)))
    ensures multiset(Reported(s.calls, Health.QueueDropped)) == multiset(Chosen(s.outcomes, false))
    ensures PacketsIn(s.calls) == Submitted(s.outcomes)
  {
    hide Chosen, Submitted, Reported, RejectedOf, Held, Grounded, PacketsIn;
    HeldNone(s.pipe.workers, s.jobs, BEGUN);
    HeldNone(s.pipe.workers, s.jobs, TO_TELL);
    AllFinished(s.pipe);
    SamplesOrder(s.examined, Chosen(s.outcomes, true));
  }

  lemma AllFinished(s: PS.State)
    requires PS.ExactlyOnce(s) && PipelineRuns.Drained(s)
    ensures multiset(s.finished) == multiset(s.accepted)
    ensures s.shared.metrics.submitted == s.shared.metrics.processed + s.shared.metrics.handlerFailures == |s.finished|
  {
    PS.SumZero(s.workers, PS.IN_PROCESSOR);
    assert s.taken == s.accepted;
    forall p
      ensures multiset(s.finished)[p] == multiset(s.accepted)[p]
    {
      PS.SumZero(s.workers, PS.Holding(p));
    }
  }

  /* ----- the totals ----- */

  lemma {:induction false} SeenCounts(calls: seq<Call>)
    ensures |Seen(calls)| == |PacketsIn(calls)|
  {
    if calls != [] {
      SeenCounts(calls[..|calls| - 1]);
    }
  }

  lemma {:induction false} ChosenCounts(outcomes: seq<Outcome>)
    ensures |Chosen(outcomes, true)| + |Chosen(outcomes, false)| == |outcomes|
  {
    if outcomes != [] {
      ChosenCounts(outcomes[..|outcomes| - 1]);
    }
  }

  lemma TrackerCounts(max: nat, calls: seq<Call>)
    ensures Monitor.Run(max, calls).tracker.metrics.packets == |PacketsIn(calls)|
  {
    hide *;
    MonitorRefinesLogs(max, calls);
    TrackerOf(max, calls);
    Partition(max, Seen(calls));
    SeenCounts(calls);
  }

  lemma TrackerOf(max: nat, calls: seq<Call>)
    ensures Monitor.Run(max, calls).tracker == TrackerRuns.Run(max, Seen(calls))
  {
    MonitorRefinesLogs(max, calls);
  }

  /** Whole-run accounting: nothing received is lost, counted twice, or left unexplained. */
  lemma WholeRunAccounting(cfg: RuntimeSystem.Config, steps: seq<Step>, now: uint64)
    requires IsCompleteRun(cfg, steps)
    ensures var r := SummaryOf(cfg, Final(cfg, steps), now);
            && r.received == r.report.streams.packets
            && r.received == r.pipeline.submitted + r.pipeline.droppedQueueFull
            && r.pipeline.rejectedStopped == 0
            && r.pipeline.submitted == r.samples.examined
            && r.samples.examined == r.samples.decoded + r.samples.rejected
            && r.samples.decoded == r.samples.imu + r.samples.gnss + r.samples.camera
            && r.pipeline.submitted == r.pipeline.processed + r.pipeline.handlerFailures
            && r.pipeline.handlerFailures <= r.samples.decoded
            && r.pipeline.highWatermark <= cfg.pipeline.capacity
            && (cfg.limit.Some? ==> r.received <= cfg.limit.value)
  {
    var s := Final(cfg, steps);
    FinalInv(cfg, steps);
    hide IsRun, CanRun, RuntimeSystem.After, Chosen, Submitted, Reported, RejectedOf, Held, Grounded, PacketsIn, SamplesOf, Sorted,
      Snapshots, Monitor.Run, Seen;
    Totals(cfg, s);
    TrackerCounts(cfg.health.maxSources, s.calls);
    assert |PacketsIn(s.calls)| == s.received;
  }

  lemma Totals(cfg: RuntimeSystem.Config, s: RuntimeSystem.State)
    requires Inv(cfg, s) && s.io.Returned?
    ensures var m, c := s.pipe.shared.metrics, SamplesOf(s.examined);
            && s.received == m.submitted + m.droppedQueueFull == |PacketsIn(s.calls)|
            && m.rejectedStopped == 0
            && m.submitted == c.examined == c.decoded + c.rejected
            && c.decoded == c.imu + c.gnss + c.camera
            && m.submitted == m.processed + m.handlerFailures
            && m.handlerFailures <= c.decoded
            && m.highWatermark <= cfg.pipeline.capacity
  {
    hide Chosen, Reported, RejectedOf, Held, Grounded, PacketsIn, SamplesOf;
    AllDone(cfg, s);
    AllFinished(s.pipe);
    ChosenCounts(s.outcomes);
    SamplesPartition(s.examined);
    SamplesPartition(s.pipe.finished);
    SamplesOrder(s.examined, s.pipe.finished);
    assert |multiset(s.examined)| == |s.examined| && |multiset(s.pipe.finished)| == |s.pipe.finished|;
  }

  /* ----- source by source ----- */

  function CountFrom(ps: seq<ReceivedPacket>, source: SensorSource): nat {
    if ps == [] then 0
    else CountFrom(ps[..|ps| - 1], source) + (if IdentifySource(ps[|ps| - 1]) == source then 1 else 0)
  }

  function CountOthers(ps: seq<ReceivedPacket>, sources: seq<SensorSource>): nat {
    if ps == [] then 0
    else CountOthers(ps[..|ps| - 1], sources) + (if IdentifySource(ps[|ps| - 1]) in sources then 0 else 1)
  }

  function SumOver(ps: seq<ReceivedPacket>, sources: seq<SensorSource>): nat {
    if sources == [] then 0
    else SumOver(ps, sources[..|sources| - 1]) + CountFrom(ps, sources[|sources| - 1])
  }

  lemma {:induction false} SumOverStep(ps: seq<ReceivedPacket>, p: ReceivedPacket, sources: seq<SensorSource>)
    requires Distinct(sources)
    ensures SumOver(ps + [p], sources) == SumOver(ps, sources) + (if IdentifySource(p) in sources then 1 else 0)
  {
    hide IdentifySource;
    assert (ps + [p])[..|ps|] == ps;
    if sources != [] {
      var rest, s := sources[..|sources| - 1], sources[|sources| - 1];
      assert sources == rest + [s];
      assert s !in rest;
      SumOverStep(ps, p, rest);
    }
  }

  /** Per-source counts of distinct sources and the count of all others add up to the total. */
  lemma {:induction false} SourcesSum(ps: seq<ReceivedPacket>, sources: seq<SensorSource>)
    requires Distinct(sources)
    ensures SumOver(ps, sources) + CountOthers(ps, sources) == |ps|
  {
    hide IdentifySource, Distinct;
    if ps == [] {
      NothingToSum(sources);
    } else {
      var before, p := ps[..|ps| - 1], ps[|ps| - 1];
      SourcesSum(before, sources);
      SumOverStep(before, p, sources);
      assert ps == before + [p];
    }
  }

  lemma {:induction false} NothingToSum(sources: seq<SensorSource>)
    ensures SumOver([], sources) == 0
  {
    if sources != [] {
      NothingToSum(sources[..|sources| - 1]);
    }
  }

  lemma {:induction false} CountFromConcat(a: seq<ReceivedPacket>, b: seq<ReceivedPacket>, s: SensorSource)
    ensures CountFrom(a + b, s) == CountFrom(a, s) + CountFrom(b, s)
  {
    hide IdentifySource;
    if b == [] {
      assert a + b == a;
    } else {
      CountFromConcat(a, b[..|b| - 1], s);
      assert (a + b)[..|a + b| - 1] == a + b[..|b| - 1];
    }
  }

  lemma {:induction false} CountFromOrder(a: seq<ReceivedPacket>, b: seq<ReceivedPacket>, s: SensorSource)
    requires multiset(a) == multiset(b)
    ensures CountFrom(a, s) == CountFrom(b, s)
    decreases |a|
  {
    hide CountFrom;
    if a == [] {
      assert |multiset(b)| == |b|;
      assert b == [];
    } else {
      var before, p := a[..|a| - 1], a[|a| - 1];
      var k := SameLast(a, b);
      var left, right := b[..k], b[k + 1..];
      assert a == before + [p] && b == left + [p] + right;
      CountFromOrder(before, left + right, s);
      CountFromConcat(before, [p], s);
      CountFromConcat(left, right, s);
      CountFromConcat(left, [p], s);
      CountFromConcat(left + [p], right, s);
    }
  }

  /** What one more call adds to the history of a source. */
  lemma LogSnoc(before: seq<Call>, c: Call, s: SensorSource) returns (events: seq<Health.Event>)
    requires Grounded(before + [c])
    ensures LogOf(before + [c], s) == LogOf(before, s) + events
    ensures if IdentifySource(c.packet) != s then events == []
            else |events| == 1 && (if c.PacketCall? then events[0].Arrived? else events[0].Issue? && events[0].kind == c.kind)
  {
    var calls := before + [c];
    assert calls[..|before|] == before;
    LogBegins(before, s);
    assert c.IssueCall? ==> Numbers(Seen(calls[..|before|]), IdentifySource(calls[|before|].packet)) != [];
    hide Numbers, Seen, LastObservation, IdentifySource;
    events := LogOf(calls, s)[|LogOf(before, s)|..];
  }

  /** How many events of each kind one more call adds. */
  lemma CountEvents(log: seq<Health.Event>, events: seq<Health.Event>)
    requires |events| <= 1
    ensures Health.Arrivals(log + events) == Health.Arrivals(log) + (if events != [] && events[0].Arrived? then 1 else 0)
    ensures Health.Count(log + events, Health.IS_REJECTION)
         == Health.Count(log, Health.IS_REJECTION)
            + (if events != [] && events[0].Issue? && events[0].kind == Health.PayloadRejected then 1 else 0)
    ensures Health.Count(log + events, Health.IS_DROP)
         == Health.Count(log, Health.IS_DROP)
            + (if events != [] && events[0].Issue? && events[0].kind == Health.QueueDropped then 1 else 0)
  {
    if events == [] {
      assert log + events == log;
    } else {
      assert events == [events[0]];
      assert (log + [events[0]])[..|log|] == log;
    }
  }

  lemma CountFromSnoc(ps: seq<ReceivedPacket>, p: ReceivedPacket, s: SensorSource)
    ensures CountFrom(ps + [p], s) == CountFrom(ps, s) + (if IdentifySource(p) == s then 1 else 0)
    ensures CountFrom(ps + [], s) == CountFrom(ps, s)
  {
    assert (ps + [p])[..|ps|] == ps;
    assert ps + [] == ps;
  }

  /** The history of a source holds exactly its packets and the issues reported about it. */
  lemma {:induction false} LogCounts(calls: seq<Call>, s: SensorSource)
    requires Grounded(calls)
    ensures Health.Arrivals(LogOf(calls, s)) == CountFrom(PacketsIn(calls), s)
    ensures Health.Count(LogOf(calls, s), Health.IS_REJECTION) == CountFrom(Reported(calls, Health.PayloadRejected), s)
    ensures Health.Count(LogOf(calls, s), Health.IS_DROP) == CountFrom(Reported(calls, Health.QueueDropped), s)
  {
    hide *;
    if calls == [] {
      NoEvents(s);
    } else {
      var before, c := calls[..|calls| - 1], calls[|calls| - 1];
      assert calls == before + [c];
      GroundedPrefix(calls);
      LogCounts(before, s);
      var events := LogSnoc(before, c, s);
      CountEvents(LogOf(before, s), events);
      ReportedSnoc(before, c, Health.PayloadRejected);
      ReportedSnoc(before, c, Health.QueueDropped);
      CountFromSnoc(PacketsIn(before), c.packet, s);
      CountFromSnoc(Reported(before, Health.PayloadRejected), c.packet, s);
      CountFromSnoc(Reported(before, Health.QueueDropped), c.packet, s);
    }
  }

  lemma NoEvents(s: SensorSource)
    ensures Health.Arrivals(LogOf([], s)) == CountFrom(PacketsIn([]), s)
    ensures Health.Count(LogOf([], s), Health.IS_REJECTION) == CountFrom(Reported([], Health.PayloadRejected), s)
    ensures Health.Count(LogOf([], s), Health.IS_DROP) == CountFrom(Reported([], Health.QueueDropped), s)
  {
  }

  /** Each tracked source is credited with exactly its own packets, drops and rejections, as the
      submissions alone determine them. */
  lemma PerSourceCounts(cfg: RuntimeSystem.Config, steps: seq<Step>, i: nat)
    requires IsCompleteRun(cfg, steps)
    requires i < |Monitor.Run(cfg.health.maxSources, Final(cfg, steps).calls).sources|
    ensures var s := Final(cfg, steps);
            var st := Monitor.Run(cfg.health.maxSources, s.calls).sources[i];
            && st.packets == Min(CountFrom(Submitted(s.outcomes), st.source), MAX_64)
            && st.counters.queueDropped == Min(CountFrom(Chosen(s.outcomes, false), st.source), MAX_64)
            && st.counters.payloadsRejected
               == Min(CountFrom(RejectedOf(Chosen(s.outcomes, true)), st.source), MAX_64)
  {
    FinalInv(cfg, steps);
    hide IsRun;
    var s := Final(cfg, steps);
    AllDone(cfg, s);
    hide Final, Balanced, Worked, Phased, PS.Inv;
    var st := Monitor.Run(cfg.health.maxSources, s.calls).sources[i];
    var log := LogOf(s.calls, st.source);
    SourceOfRecord(cfg.health.maxSources, s.calls, i);
    LogTracked(s.calls, st.source);
    Health.StateSummarizes(st.source, log);
    Health.StateCounts(st.source, log);
    LogCounts(s.calls, st.source);
    CountFromOrder(Reported(s.calls, Health.PayloadRejected), RejectedOf(Chosen(s.outcomes, true)), st.source);
    CountFromOrder(Reported(s.calls, Health.QueueDropped), Chosen(s.outcomes, false), st.source);
  }

  /** The sources of the monitor's records, in table order. */
  ghost function Tracked(cfg: RuntimeSystem.Config, s: RuntimeSystem.State): seq<SensorSource> {
    Admitted(cfg.health.maxSources, Seen(s.calls))
  }

  /** Summed over the tracked sources, and with those of untracked sources added, the per-source packets,
      drops and rejections are the totals of the summary. */
  lemma SourcesAddUp(cfg: RuntimeSystem.Config, steps: seq<Step>, now: uint64)
    requires IsCompleteRun(cfg, steps)
    ensures var s := Final(cfg, steps);
            var r, tracked := SummaryOf(cfg, s, now), Tracked(cfg, s);
            var drops, rejections := Chosen(s.outcomes, false), RejectedOf(Chosen(s.outcomes, true));
            && SumOver(Submitted(s.outcomes), tracked) + r.report.streams.untracked == r.received
            && SumOver(drops, tracked) + CountOthers(drops, tracked) == r.pipeline.droppedQueueFull
            && SumOver(rejections, tracked) + CountOthers(rejections, tracked) == r.samples.rejected
  {
    var s := Final(cfg, steps);
    FinalInv(cfg, steps);
    AllDone(cfg, s);
    hide Final, Worked, Phased, PS.Inv, IsRun, Chosen, Reported, RejectedOf, PacketsIn, Monitor.Run, Admitted, Seen;
    var tracked := Tracked(cfg, s);
    AdmittedTable(cfg.health.maxSources, Seen(s.calls));
    SourcesSum(Submitted(s.outcomes), tracked);
    SourcesSum(Chosen(s.outcomes, false), tracked);
    SourcesSum(RejectedOf(Chosen(s.outcomes, true)), tracked);
    UntrackedCount(cfg.health.maxSources, s.calls);
    SamplesOrder(s.examined, Chosen(s.outcomes, true));
    SamplesPartition(Chosen(s.outcomes, true));
  }

  /* ----- the same for the fields of the report ----- */

  const PACKETS: Snapshot -> nat := (shot: Snapshot) => shot.packets
  const DROPS: Snapshot -> nat := (shot: Snapshot) => shot.counters.queueDropped
  const REJECTIONS: Snapshot -> nat := (shot: Snapshot) => shot.counters.payloadsRejected

  function SumOf(shots: seq<Snapshot>, field: Snapshot -> nat): nat {
    if shots == [] then 0 else SumOf(shots[..|shots| - 1], field) + field(shots[|shots| - 1])
  }

  lemma {:induction false} SumInserted(sorted: seq<Snapshot>, x: Snapshot, field: Snapshot -> nat)
    ensures SumOf(Insert(sorted, x), field) == SumOf(sorted, field) + field(x)
  {
    hide SourceBefore;
    if sorted == [] || SourceBefore(sorted[|sorted| - 1].source, x.source) {
      assert (sorted + [x])[..|sorted|] == sorted;
    } else {
      var most, last := sorted[..|sorted| - 1], sorted[|sorted| - 1];
      SumInserted(most, x, field);
      var r := Insert(most, x);
      assert (r + [last])[..|r|] == r;
    }
  }

  lemma {:induction false} SumSorted(shots: seq<Snapshot>, field: Snapshot -> nat)
    ensures SumOf(Sorted(shots), field) == SumOf(shots, field)
  {
    hide Insert;
    if shots != [] {
      SumSorted(shots[..|shots| - 1], field);
      SumInserted(Sorted(shots[..|shots| - 1]), shots[|shots| - 1], field);
    }
  }

  lemma {:induction false} SumMatches(shots: seq<Snapshot>, field: Snapshot -> nat, ps: seq<ReceivedPacket>,
                                      sources: seq<SensorSource>)
    requires |shots| == |sources|
    requires forall i :: 0 <= i < |shots| ==> field(shots[i]) == CountFrom(ps, sources[i])
    ensures SumOf(shots, field) == SumOver(ps, sources)
  {
    if shots != [] {
      SumMatches(shots[..|shots| - 1], field, ps, sources[..|sources| - 1]);
    }
  }

  lemma {:induction false} CountFromAtMost(ps: seq<ReceivedPacket>, s: SensorSource)
    ensures CountFrom(ps, s) <= |ps|
  {
    hide IdentifySource;
    if ps != [] {
      CountFromAtMost(ps[..|ps| - 1], s);
    }
  }

  /** A column of the report sums to the counts of the tracked sources. */
  lemma ColumnSum(cfg: RuntimeSystem.Config, s: RuntimeSystem.State, now: uint64, field: Snapshot -> nat,
                  ps: seq<ReceivedPacket>)
    requires forall i :: 0 <= i < |Monitor.Run(cfg.health.maxSources, s.calls).sources| ==>
               var st := Monitor.Run(cfg.health.maxSources, s.calls).sources[i];
               field(MakeSnapshot(cfg.health, st, now)) == CountFrom(ps, st.source)
    ensures SumOf(SummaryOf(cfg, s, now).report.sources, field) == SumOver(ps, Tracked(cfg, s))
  {
    var m := Monitor.Run(cfg.health.maxSources, s.calls);
    MonitorRefinesLogs(cfg.health.maxSources, s.calls);
    hide Monitor.Run, MakeSnapshot, Sorted, SumOf, CountFrom, Health.StateOf, LogOf, Admitted;
    var shots := Snapshots(cfg.health, m.sources, now);
    SumSorted(shots, field);
    SumMatches(shots, field, ps, Tracked(cfg, s));
  }

  /** While fewer than 2^64 packets arrive, the reported fields themselves add up to the totals. */
  lemma ReportAddsUp(cfg: RuntimeSystem.Config, steps: seq<Step>, now: uint64)
    requires IsCompleteRun(cfg, steps) && Final(cfg, steps).received <= MAX_64
    ensures var s := Final(cfg, steps);
            var r, tracked := SummaryOf(cfg, s, now), Tracked(cfg, s);
            && SumOf(r.report.sources, PACKETS) + r.report.streams.untracked == r.received
            && SumOf(r.report.sources, DROPS) + CountOthers(Chosen(s.outcomes, false), tracked)
               == r.pipeline.droppedQueueFull
            && SumOf(r.report.sources, REJECTIONS) + CountOthers(RejectedOf(Chosen(s.outcomes, true)), tracked)
               == r.samples.rejected
  {
    var s := Final(cfg, steps);
    SourcesAddUp(cfg, steps, now);
    WholeRunAccounting(cfg, steps, now);
    AtMostReceived(cfg, steps, now);
    hide *;
    var m := Monitor.Run(cfg.health.maxSources, s.calls);
    forall i | 0 <= i < |m.sources|
      ensures RecordFields(cfg, s, m.sources[i], now)
    {
      UncappedFields(cfg, steps, now, i);
    }
    Columns(cfg, s, now);
  }

  /** The fields of one record, exactly. */
  ghost predicate RecordFields(cfg: RuntimeSystem.Config, s: RuntimeSystem.State, st: Health.SourceState, now: uint64) {
    && Health.WellFormed(st.ring)
    && PACKETS(MakeSnapshot(cfg.health, st, now)) == CountFrom(Submitted(s.outcomes), st.source)
    && DROPS(MakeSnapshot(cfg.health, st, now)) == CountFrom(Chosen(s.outcomes, false), st.source)
    && REJECTIONS(MakeSnapshot(cfg.health, st, now)) == CountFrom(RejectedOf(Chosen(s.outcomes, true)), st.source)
  }

  lemma AtMostReceived(cfg: RuntimeSystem.Config, steps: seq<Step>, now: uint64)
    requires IsCompleteRun(cfg, steps)
    ensures var s := Final(cfg, steps);
            && |Submitted(s.outcomes)| <= s.received
            && |Chosen(s.outcomes, false)| <= s.received
            && |RejectedOf(Chosen(s.outcomes, true))| <= s.received
  {
    FinalInv(cfg, steps);
    var s := Final(cfg, steps);
    ChosenCounts(s.outcomes);
    SamplesPartition(Chosen(s.outcomes, true));
    hide Final, IsRun, Chosen, RejectedOf, Worked, PS.Inv, Grounded;
  }

  lemma UncappedFields(cfg: RuntimeSystem.Config, steps: seq<Step>, now: uint64, i: nat)
    requires IsCompleteRun(cfg, steps) && Final(cfg, steps).received <= MAX_64
    requires i < |Monitor.Run(cfg.health.maxSources, Final(cfg, steps).calls).sources|
    ensures var s := Final(cfg, steps);
            RecordFields(cfg, s, Monitor.Run(cfg.health.maxSources, s.calls).sources[i], now)
  {
    var s := Final(cfg, steps);
    var st := Monitor.Run(cfg.health.maxSources, s.calls).sources[i];
    PerSourceCounts(cfg, steps, i);
    AtMostReceived(cfg, steps, now);
    hide Final, IsCompleteRun, Monitor.Run, Chosen, RejectedOf, CountFrom, Health.CurrentRate, Health.EvaluateStatus;
    CountFromAtMost(Submitted(s.outcomes), st.source);
    CountFromAtMost(Chosen(s.outcomes, false), st.source);
    CountFromAtMost(RejectedOf(Chosen(s.outcomes, true)), st.source);
  }

  lemma Columns(cfg: RuntimeSystem.Config, s: RuntimeSystem.State, now: uint64)
    requires forall i :: 0 <= i < |Monitor.Run(cfg.health.maxSources, s.calls).sources| ==>
               RecordFields(cfg, s, Monitor.Run(cfg.health.maxSources, s.calls).sources[i], now)
    ensures var sources, tracked := SummaryOf(cfg, s, now).report.sources, Tracked(cfg, s);
            && SumOf(sources, PACKETS) == SumOver(Submitted(s.outcomes), tracked)
            && SumOf(sources, DROPS) == SumOver(Chosen(s.outcomes, false), tracked)
            && SumOf(sources, REJECTIONS) == SumOver(RejectedOf(Chosen(s.outcomes, true)), tracked)
  {
    hide Monitor.Run, MakeSnapshot, CountFrom, SumOf, SumOver, Chosen, RejectedOf, SummaryOf, PACKETS, DROPS, REJECTIONS;
    ColumnSum(cfg, s, now, PACKETS, Submitted(s.outcomes));
    ColumnSum(cfg, s, now, DROPS, Chosen(s.outcomes, false));
    ColumnSum(cfg, s, now, REJECTIONS, RejectedOf(Chosen(s.outcomes, true)));
  }

  /** The tracker's untracked observations are the packets of sources that have no record in the end. */
  lemma UntrackedCount(max: nat, calls: seq<Call>)
    ensures Monitor.Run(max, calls).tracker.metrics.untracked
         == CountOthers(PacketsIn(calls), Admitted(max, Seen(calls)))
  {
    TrackerOf(max, calls);
    hide *;
    Counters(max, Seen(calls));
    UntrackedFrom(max, calls);
    TalliedUntracked(max, Seen(calls));
  }

  lemma TalliedUntracked(max: nat, seen: seq<Arrival>)
    requires Tallied(TrackerRuns.Run(max, seen).metrics, Observations(max, seen))
    ensures TrackerRuns.Run(max, seen).metrics.untracked == Tally(Observations(max, seen), Untracked)
  {
  }

  lemma {:induction false} OthersExtend(calls: seq<Call>, admitted: seq<SensorSource>, s: SensorSource)
    requires Numbers(Seen(calls), s) == []
    ensures CountOthers(PacketsIn(calls), admitted + [s]) == CountOthers(PacketsIn(calls), admitted)
  {
    if calls != [] {
      var before, c := calls[..|calls| - 1], calls[|calls| - 1];
      assert calls == before + [c];
      SeenSnoc(before, c);
      OthersExtend(before, admitted, s);
    }
  }

  lemma {:induction false} UntrackedFrom(max: nat, calls: seq<Call>)
    ensures Tally(Observations(max, Seen(calls)), Untracked) == CountOthers(PacketsIn(calls), Admitted(max, Seen(calls)))
  {
    if calls == [] {
    } else {
      hide *;
      var before, c := calls[..|calls| - 1], calls[|calls| - 1];
      UntrackedFrom(max, before);
      assert calls == before + [c];
      if c.PacketCall? {
        UntrackedPacket(max, before, c.packet);
      } else {
        SeenSnoc(before, c);
        ReportedSnoc(before, c, Health.QueueDropped);
        assert Seen(before) + [] == Seen(before) && PacketsIn(before) + [] == PacketsIn(before);
      }
    }
  }

  lemma UntrackedPacket(max: nat, before: seq<Call>, p: ReceivedPacket)
    ensures var calls, s := before + [PacketCall(p)], IdentifySource(p);
            var admitted, admitted' := Admitted(max, Seen(before)), Admitted(max, Seen(calls));
            && CountOthers(PacketsIn(calls), admitted')
               == CountOthers(PacketsIn(before), admitted) + (if s in admitted' then 0 else 1)
            && Tally(Observations(max, Seen(calls)), Untracked)
               == Tally(Observations(max, Seen(before)), Untracked) + (if s in admitted' then 0 else 1)
  {
    hide Next, Numbers;
    var calls, s := before + [PacketCall(p)], IdentifySource(p);
    assert calls[..|before|] == before;
    var seen := Seen(before);
    assert Seen(calls) == seen + [ArrivalOf(p)];
    assert (seen + [ArrivalOf(p)])[..|seen|] == seen;
    PacketEffect(max, before, p);
    AdmittedTable(max, seen);
    if s !in Admitted(max, seen) && |Admitted(max, seen)| < max {
      OthersExtend(before, Admitted(max, seen), s);
    }
    var os, o := Observations(max, seen), Next(max, TrackerRuns.Run(max, seen), ArrivalOf(p)).1;
    assert Observations(max, Seen(calls)) == os + [o];
    assert (os + [o])[..|os|] == os;
    var ps := PacketsIn(before);
    assert (ps + [p])[..|ps|] == ps;
  }

  /* ----- one worker ----- */

  /** With one worker, the packets examined are those finished and the one in its hands, in order. */
  ghost predicate InOrder(s: RuntimeSystem.State) {
    |s.pipe.workers| == 1 && |s.jobs| == 1 ==>
      s.examined == s.pipe.finished +
        (if s.pipe.workers[0].Executing? && !s.jobs[0].Fresh? then [s.pipe.workers[0].packet] else [])
  }

  lemma InOrderStep(cfg: RuntimeSystem.Config, s: RuntimeSystem.State, step: Step)
    requires InOrder(s) && RuntimeSystem.Enabled(cfg, s, step)
    ensures InOrder(RuntimeSystem.Apply(cfg, s, step))
  {
    hide Rejects, PS.AnySleeper;
  }

  lemma {:induction false} InOrderRun(cfg: RuntimeSystem.Config, s: RuntimeSystem.State, steps: seq<Step>)
    requires InOrder(s) && CanRun(cfg, s, steps)
    ensures InOrder(RuntimeSystem.After(cfg, s, steps))
    decreases |steps|
  {
    hide InOrder, RuntimeSystem.Enabled, RuntimeSystem.Apply;
    if steps != [] {
      InOrderStep(cfg, s, steps[0]);
      InOrderRun(cfg, RuntimeSystem.Apply(cfg, s, steps[0]), steps[1..]);
    }
  }

  /** With one worker, a complete run examines and finishes the accepted packets in the order in which
      they were received. */
  lemma OneWorkerKeepsOrder(cfg: RuntimeSystem.Config, steps: seq<Step>)
    requires IsCompleteRun(cfg, steps) && cfg.pipeline.workers == 1
    ensures var s := Final(cfg, steps);
            s.examined == s.pipe.finished == Chosen(s.outcomes, true)
  {
    FinalInv(cfg, steps);
    InOrderRun(cfg, RuntimeSystem.Init(cfg), steps);
    var s := Final(cfg, steps);
    hide IsRun, RuntimeSystem.After, Chosen, Submitted, Reported, RejectedOf, Held, Grounded, PS.NoLostWakeup;
    assert s.pipe.workers[0].Exited?;
    assert s.pipe.taken == s.pipe.accepted;
  }

  /** The processor calls of a run that returned, or that ended with the handler's exception. */
  function Endings(steps: seq<Step>, ok: bool): nat {
    if steps == [] then 0
    else (if steps[0].Finish? && steps[0].ok == ok then 1 else 0) + Endings(steps[1..], ok)
  }

  /** The failures a summary reports are the calls whose handler threw, and no other. */
  lemma FailuresAreThrows(cfg: RuntimeSystem.Config, steps: seq<Step>)
    requires IsRun(cfg, steps)
    ensures var m := Final(cfg, steps).pipe.shared.metrics;
            m.processed == Endings(steps, true) && m.handlerFailures == Endings(steps, false)
  {
    EndingsFrom(cfg, RuntimeSystem.Init(cfg), steps);
  }

  lemma {:induction false} EndingsFrom(cfg: RuntimeSystem.Config, s: RuntimeSystem.State, steps: seq<Step>)
    requires CanRun(cfg, s, steps) && s.pipe.shared.accepting == !s.pipe.shared.stopRequested
    ensures var m, m' := s.pipe.shared.metrics, RuntimeSystem.After(cfg, s, steps).pipe.shared.metrics;
            && m'.processed == m.processed + Endings(steps, true)
            && m'.handlerFailures == m.handlerFailures + Endings(steps, false)
    decreases |steps|
  {
    hide RuntimeSystem.Apply, RuntimeSystem.Enabled;
    if steps != [] {
      EndingStep(cfg, s, steps[0]);
      EndingsFrom(cfg, RuntimeSystem.Apply(cfg, s, steps[0]), steps[1..]);
    }
  }

  lemma EndingStep(cfg: RuntimeSystem.Config, s: RuntimeSystem.State, step: Step)
    requires RuntimeSystem.Enabled(cfg, s, step) && s.pipe.shared.accepting == !s.pipe.shared.stopRequested
    ensures var sh, sh' := s.pipe.shared, RuntimeSystem.Apply(cfg, s, step).pipe.shared;
            && sh'.accepting == !sh'.stopRequested
            && sh'.metrics.processed == sh.metrics.processed + (if step.Finish? && step.ok then 1 else 0)
            && sh'.metrics.handlerFailures == sh.metrics.handlerFailures + (if step.Finish? && !step.ok then 1 else 0)
  {
    hide PS.Apply;
    var q := PipeStep(s, step);
    if q.Some? {
      PipelineRuns.CountersStep(cfg.pipeline, s.pipe, q.value);
    }
  }

  /* ----- schedule independence ----- */

  lemma {:induction false} CallsOfPackets(calls: seq<Call>)
    ensures |PacketCalls(calls)| == |PacketsIn(calls)|
    ensures forall i :: 0 <= i < |PacketsIn(calls)| ==> PacketCalls(calls)[i] == PacketCall(PacketsIn(calls)[i])
  {
    if calls != [] {
      CallsOfPackets(calls[..|calls| - 1]);
    }
  }

  lemma {:induction false} IssueCallCount(calls: seq<Call>, c: Call)
    ensures multiset(IssueCalls(calls))[c] == if c.IssueCall? then multiset(Reported(calls, c.kind))[c.packet] else 0
  {
    if calls != [] {
      IssueCallCount(calls[..|calls| - 1], c);
    }
  }

  lemma SameIssueCalls(a: seq<Call>, b: seq<Call>)
    requires multiset(Reported(a, Health.PayloadRejected)) == multiset(Reported(b, Health.PayloadRejected))
    requires multiset(Reported(a, Health.QueueDropped)) == multiset(Reported(b, Health.QueueDropped))
    ensures multiset(IssueCalls(a)) == multiset(IssueCalls(b))
  {
    forall c: Call
      ensures multiset(IssueCalls(a))[c] == multiset(IssueCalls(b))[c]
    {
      hide IssueCalls, Reported;
      IssueCallCount(a, c);
      IssueCallCount(b, c);
      if c.IssueCall? {
        assert c.kind == Health.PayloadRejected || c.kind == Health.QueueDropped;
      }
    }
  }

  /** The sequence metrics depend only on what was received, in which order: not on the queue, on the
      workers, or on what was accepted. */
  lemma SequenceMetricsDependOnReceiveOrder(cfg: RuntimeSystem.Config, a: seq<Step>, b: seq<Step>, now: uint64)
    requires IsCompleteRun(cfg, a) && IsCompleteRun(cfg, b)
    requires Submitted(Final(cfg, a).outcomes) == Submitted(Final(cfg, b).outcomes)
    ensures SummaryOf(cfg, Final(cfg, a), now).report.streams == SummaryOf(cfg, Final(cfg, b), now).report.streams
  {
    var s, t := Final(cfg, a), Final(cfg, b);
    FinalInv(cfg, a);
    FinalInv(cfg, b);
    AllDone(cfg, s);
    AllDone(cfg, t);
    hide *;
    SameStreams(cfg.health.maxSources, s.calls, t.calls);
    StreamsOfSummary(cfg, s, now);
    StreamsOfSummary(cfg, t, now);
  }

  lemma StreamsOfSummary(cfg: RuntimeSystem.Config, s: RuntimeSystem.State, now: uint64)
    ensures SummaryOf(cfg, s, now).report.streams == Monitor.Run(cfg.health.maxSources, s.calls).tracker.metrics
  {
    hide Sorted, Snapshots, Monitor.Run;
  }

  lemma SameStreams(max: nat, a: seq<Call>, b: seq<Call>)
    requires PacketsIn(a) == PacketsIn(b)
    ensures PacketCalls(a) == PacketCalls(b)
    ensures Monitor.Run(max, a).tracker == Monitor.Run(max, b).tracker
  {
    hide *;
    CallsOfPackets(a);
    CallsOfPackets(b);
    assert PacketCalls(a) == PacketCalls(b);
    SeenPackets(a);
    SeenPackets(b);
    TrackerOf(max, a);
    TrackerOf(max, b);
  }

  /** Two runs that received the same packets in the same order and accepted the same ones return the
      same summary whatever the workers' schedules were, except for the statuses of the sources, the
      watermark, and how many handlers threw. */
  lemma RuntimeScheduleIndependence(cfg: RuntimeSystem.Config, a: seq<Step>, b: seq<Step>, now: uint64)
    requires IsCompleteRun(cfg, a) && IsCompleteRun(cfg, b)
    requires Final(cfg, a).outcomes == Final(cfg, b).outcomes
    ensures var r, q := SummaryOf(cfg, Final(cfg, a), now), SummaryOf(cfg, Final(cfg, b), now);
            && r.received == q.received
            && r.samples == q.samples
            && r.pipeline.submitted == q.pipeline.submitted
            && r.pipeline.droppedQueueFull == q.pipeline.droppedQueueFull
            && r.pipeline.processed + r.pipeline.handlerFailures == q.pipeline.processed + q.pipeline.handlerFailures
            && r.report.streams == q.report.streams
            && Blank(r.report.sources) == Blank(q.report.sources)
  {
    var s, t := Final(cfg, a), Final(cfg, b);
    FinalInv(cfg, a);
    FinalInv(cfg, b);
    AllDone(cfg, s);
    AllDone(cfg, t);
    Totals(cfg, s);
    Totals(cfg, t);
    assert Grounded(s.calls) && Grounded(t.calls);
    assert s.received == t.received && s.pipe.shared.metrics.droppedQueueFull == t.pipe.shared.metrics.droppedQueueFull;
    hide IsRun, Final, Inv, Chosen, Reported, RejectedOf, PacketsIn, Submitted, SamplesOf, ReportOf, Grounded, PacketCalls,
      IssueCalls, Blank, Monitor.Run;
    SamplesOrder(s.examined, t.examined);
    SameStreams(cfg.health.maxSources, s.calls, t.calls);
    SameIssueCalls(s.calls, t.calls);
    ReportSchedule(cfg.health, s.calls, t.calls, now);
  }

  /** Two such runs keep the same records, last-issue times included, except for the clean packets counted
      since the last issue. */
  lemma ScheduleRecords(cfg: RuntimeSystem.Config, a: seq<Step>, b: seq<Step>)
    requires IsCompleteRun(cfg, a) && IsCompleteRun(cfg, b)
    requires Final(cfg, a).outcomes == Final(cfg, b).outcomes
    ensures var s, t := Final(cfg, a).calls, Final(cfg, b).calls;
            var m, n := Monitor.Run(cfg.health.maxSources, s), Monitor.Run(cfg.health.maxSources, t);
            && PacketCalls(s) == PacketCalls(t) && multiset(IssueCalls(s)) == multiset(IssueCalls(t))
            && Grounded(s) && Grounded(t)
            && |m.sources| == |n.sources|
            && forall i :: 0 <= i < |m.sources| ==>
                 && Core(m.sources[i]) == Core(n.sources[i])
                 && m.sources[i].trouble.last == n.sources[i].trouble.last
  {
    var s, t := Final(cfg, a), Final(cfg, b);
    FinalInv(cfg, a);
    FinalInv(cfg, b);
    AllDone(cfg, s);
    AllDone(cfg, t);
    assert Grounded(s.calls) && Grounded(t.calls);
    hide IsRun, Final, Inv, Chosen, Reported, RejectedOf, PacketsIn, Submitted, Grounded, PacketCalls, IssueCalls, Monitor.Run;
    SameStreams(cfg.health.maxSources, s.calls, t.calls);
    SameIssueCalls(s.calls, t.calls);
    ScheduleIndependence(cfg.health.maxSources, s.calls, t.calls);
    assert forall x, y :: Core(x) == Core(y) ==> x.trouble.last == y.trouble.last;
  }

  /** The statuses that two such runs report differ at most between HEALTHY and DEGRADED, and of a record
      exactly when the clean-packet count decides and has reached the threshold in one run only. */
  lemma ScheduleStatusesDiffer(cfg: RuntimeSystem.Config, a: seq<Step>, b: seq<Step>, now: uint64)
    requires IsCompleteRun(cfg, a) && IsCompleteRun(cfg, b)
    requires Final(cfg, a).outcomes == Final(cfg, b).outcomes
    ensures var m := Monitor.Run(cfg.health.maxSources, Final(cfg, a).calls);
            var n := Monitor.Run(cfg.health.maxSources, Final(cfg, b).calls);
            && |m.sources| == |n.sources|
            && forall i :: 0 <= i < |m.sources| ==>
                 (Health.EvaluateStatus(cfg.health, m.sources[i], now) != Health.EvaluateStatus(cfg.health, n.sources[i], now)
                  <==> && CountDecides(cfg.health, m.sources[i], now)
                       && (m.sources[i].trouble.healthySince < cfg.health.healthyAfterPackets)
                          != (n.sources[i].trouble.healthySince < cfg.health.healthyAfterPackets))
    ensures var x := SummaryOf(cfg, Final(cfg, a), now).report.sources;
            var y := SummaryOf(cfg, Final(cfg, b), now).report.sources;
            && |x| == |y|
            && forall k :: 0 <= k < |x| && x[k].status != y[k].status ==>
                 {x[k].status, y[k].status} == {Health.Healthy, Health.Degraded}
  {
    RuntimeScheduleIndependence(cfg, a, b, now);
    ScheduleRecords(cfg, a, b);
    var s, t := Final(cfg, a).calls, Final(cfg, b).calls;
    var m, n := Monitor.Run(cfg.health.maxSources, s), Monitor.Run(cfg.health.maxSources, t);
    assert cfg.health.Valid();
    hide IsCompleteRun, Final, Monitor.Run, ReportOf, Blank, Core, Health.EvaluateStatus, CountDecides, Grounded, PacketCalls,
      IssueCalls;
    forall i | 0 <= i < |m.sources|
      ensures Health.EvaluateStatus(cfg.health, m.sources[i], now) != Health.EvaluateStatus(cfg.health, n.sources[i], now)
              <==> && CountDecides(cfg.health, m.sources[i], now)
                   && (m.sources[i].trouble.healthySince < cfg.health.healthyAfterPackets)
                      != (n.sources[i].trouble.healthySince < cfg.health.healthyAfterPackets)
    {
      ScheduleStatuses(cfg.health, s, t, i, now);
    }
    var x, y := ReportOf(cfg.health, m, now).sources, ReportOf(cfg.health, n, now).sources;
    assert |x| == |Blank(x)| == |Blank(y)| == |y|;
    forall k | 0 <= k < |x| && x[k].status != y[k].status
      ensures {x[k].status, y[k].status} == {Health.Healthy, Health.Degraded}
    {
      ReportStatuses(cfg.health, s, t, now, k);
    }
  }

  /* ----- termination ----- */

  /** The remaining work of the runtime while it stops, job stages included. */
  function Residual(ws: seq<PS.Worker>, jobs: seq<Job>): nat
    requires |ws| == |jobs|
  {
    if ws == [] then 0 else Left(ws[0], jobs[0]) + Residual(ws[1..], jobs[1..])
  }

  function Left(w: PS.Worker, job: Job): nat {
    if !w.Executing? then 0
    else
      match job
      case Fresh => 2
      case Judged(_) => 1
      case Told => 0
  }

  function Effort(s: RuntimeSystem.State): nat
    requires |s.jobs| == |s.pipe.workers|
  {
    3 * PipelineRuns.Remaining(s.pipe) + Residual(s.pipe.workers, s.jobs)
  }

  lemma {:induction false} ResidualUpdate(ws: seq<PS.Worker>, jobs: seq<Job>, i: nat, w: PS.Worker, j: Job)
    requires |ws| == |jobs| && i < |ws|
    ensures Residual(ws[i := w], jobs[i := j]) + Left(ws[i], jobs[i]) == Residual(ws, jobs) + Left(w, j)
  {
    hide Left;
    if i == 0 {
      assert ws[i := w][1..] == ws[1..] && jobs[i := j][1..] == jobs[1..];
    } else {
      assert ws[i := w][1..] == ws[1..][i - 1 := w] && jobs[i := j][1..] == jobs[1..][i - 1 := j];
      ResidualUpdate(ws[1..], jobs[1..], i - 1, w, j);
    }
  }

  lemma {:induction false} ResidualSame(ws: seq<PS.Worker>, ws': seq<PS.Worker>, jobs: seq<Job>)
    requires |ws| == |ws'| == |jobs|
    requires forall i :: 0 <= i < |ws| ==> ws[i] == ws'[i] || (!ws[i].Executing? && !ws'[i].Executing?)
    ensures Residual(ws, jobs) == Residual(ws', jobs)
  {
    if ws != [] {
      assert ws[0] == ws'[0] || (!ws[0].Executing? && !ws'[0].Executing?);
      forall i | 0 <= i < |ws[1..]|
        ensures ws[1..][i] == ws'[1..][i] || (!ws[1..][i].Executing? && !ws'[1..][i].Executing?)
      {
        assert ws[1..][i] == ws[i + 1] && ws'[1..][i] == ws'[i + 1];
      }
      ResidualSame(ws[1..], ws'[1..], jobs[1..]);
    }
  }

  lemma ProgressLock(cfg: RuntimeSystem.Config, s: RuntimeSystem.State, w: nat)
    requires PS.Inv(cfg.pipeline, s.pipe) && |s.jobs| == |s.pipe.workers| && !s.pipe.stopper.Idle?
    requires RuntimeSystem.Enabled(cfg, s, Pipe(PS.Lock(w)))
    ensures var s' := RuntimeSystem.Apply(cfg, s, Pipe(PS.Lock(w)));
            |s'.jobs| == |s'.pipe.workers| && Effort(s') < Effort(s)
  {
    hide PS.Inv, Residual, PipelineRuns.Remaining;
    var s' := RuntimeSystem.Apply(cfg, s, Pipe(PS.Lock(w)));
    PipelineRuns.StopProgress(cfg.pipeline, s.pipe, PS.Lock(w));
    ResidualUpdate(s.pipe.workers, s.jobs, w, s'.pipe.workers[w], Fresh);
  }

  lemma ProgressPipe(cfg: RuntimeSystem.Config, s: RuntimeSystem.State, q: PS.Step)
    requires PS.Inv(cfg.pipeline, s.pipe) && |s.jobs| == |s.pipe.workers| && !s.pipe.stopper.Idle?
    requires RuntimeSystem.Enabled(cfg, s, Pipe(q)) && !q.Lock?
    ensures var s' := RuntimeSystem.Apply(cfg, s, Pipe(q));
            |s'.jobs| == |s'.pipe.workers| && Effort(s') < Effort(s)
  {
    hide PS.Inv, Residual, PipelineRuns.Remaining, PS.AnySleeper;
    var s' := RuntimeSystem.Apply(cfg, s, Pipe(q));
    PipelineRuns.StopProgress(cfg.pipeline, s.pipe, q);
    ResidualSame(s.pipe.workers, s'.pipe.workers, s.jobs);
  }

  lemma ProgressJob(cfg: RuntimeSystem.Config, s: RuntimeSystem.State, step: Step)
    requires PS.Inv(cfg.pipeline, s.pipe) && |s.jobs| == |s.pipe.workers| && !s.pipe.stopper.Idle?
    requires RuntimeSystem.Enabled(cfg, s, step) && (step.Process? || step.Tell?)
    ensures Effort(RuntimeSystem.Apply(cfg, s, step)) < Effort(s)
  {
    hide PS.Inv, Residual, PipelineRuns.Remaining;
    var s' := RuntimeSystem.Apply(cfg, s, step);
    var w := step.worker;
    assert s.pipe.workers[w := s.pipe.workers[w]] == s.pipe.workers;
    ResidualUpdate(s.pipe.workers, s.jobs, w, s.pipe.workers[w], s'.jobs[w]);
  }

  lemma ProgressFinish(cfg: RuntimeSystem.Config, s: RuntimeSystem.State, w: nat, ok: bool)
    requires PS.Inv(cfg.pipeline, s.pipe) && |s.jobs| == |s.pipe.workers| && !s.pipe.stopper.Idle?
    requires RuntimeSystem.Enabled(cfg, s, Finish(w, ok))
    ensures var s' := RuntimeSystem.Apply(cfg, s, Finish(w, ok));
            |s'.jobs| == |s'.pipe.workers| && Effort(s') < Effort(s)
  {
    hide PS.Inv, Residual, PipelineRuns.Remaining;
    PipelineRuns.StopProgress(cfg.pipeline, s.pipe, PS.Finish(w, ok));
    assert s.jobs[w := s.jobs[w]] == s.jobs;
    ResidualUpdate(s.pipe.workers, s.jobs, w, PS.AtLock, s.jobs[w]);
  }

  /** Once the loop has ended, every step, of any thread, brings the return nearer. */
  lemma StoppingProgress(cfg: RuntimeSystem.Config, s: RuntimeSystem.State, step: Step)
    requires cfg.Valid() && Inv(cfg, s) && s.io.Stopping? && RuntimeSystem.Enabled(cfg, s, step)
    ensures var s' := RuntimeSystem.Apply(cfg, s, step);
            |s'.jobs| == |s'.pipe.workers| && Effort(s') < Effort(s) && (s'.io.Stopping? || s'.io.Returned?)
  {
    hide PS.Inv, PS.Enabled, PS.Apply, Balanced, Effort, Held, Grounded;
    match step
    case Pipe(q) =>
      if q.Lock? {
        ProgressLock(cfg, s, q.worker);
      } else {
        ProgressPipe(cfg, s, q);
      }
    case Finish(w, ok) => ProgressFinish(cfg, s, w, ok);
    case _ => ProgressJob(cfg, s, step);
  }

  /** Steps that neither wait for a packet nor for a spurious wake-up. */
  predicate Deliberate(step: Step) {
    !step.Receive? && !(step.Pipe? && step.step.SpuriousWake?)
  }

  /** No reachable state before the return is stuck, even if no packet ever arrives again and no worker
      ever wakes without a notification. */
  lemma RuntimeNotStuck(cfg: RuntimeSystem.Config, s: RuntimeSystem.State)
    requires cfg.Valid() && Inv(cfg, s) && !s.io.Returned?
    ensures exists step: Step :: Deliberate(step) && RuntimeSystem.Enabled(cfg, s, step)
  {
    hide PS.Inv, Balanced, Grounded, Held, RejectedOf, PipelineRuns.Drained;
    match s.io
    case Observed(p) => assert RuntimeSystem.Enabled(cfg, s, Submit);
    case Refused(p) => assert RuntimeSystem.Enabled(cfg, s, ReportDrop);
    case Polling =>
      if s.pipe.pendingOnes == 0 {
        assert RuntimeSystem.Enabled(cfg, s, Stop);
      } else if PS.AnySleeper(s.pipe.workers) {
        var w: nat :| w < |s.pipe.workers| && s.pipe.workers[w].Sleeping?;
        assert RuntimeSystem.Enabled(cfg, s, Pipe(PS.NotifyOne(Some(w))));
      } else {
        assert RuntimeSystem.Enabled(cfg, s, Pipe(PS.NotifyOne(None)));
      }
    case Stopping =>
      PipelineRuns.NotStuck(cfg.pipeline, s.pipe);
      var q :| PipelineRuns.Deliberate(q) && PS.Enabled(s.pipe, q);
      if q.Finish? {
        JobStep(cfg, s, q.worker);
      } else {
        assert RuntimeSystem.Enabled(cfg, s, Pipe(q));
      }
  }

  lemma JobStep(cfg: RuntimeSystem.Config, s: RuntimeSystem.State, w: nat)
    requires |s.jobs| == |s.pipe.workers| && w < |s.jobs| && s.pipe.workers[w].Executing?
    ensures exists step: Step ::
              Deliberate(step) && !step.Stop? && !step.Submit? && !step.ReportDrop? && RuntimeSystem.Enabled(cfg, s, step)
  {
    match s.jobs[w]
    case Fresh => assert RuntimeSystem.Enabled(cfg, s, Process(w));
    case Judged(rejected) =>
      if rejected {
        assert RuntimeSystem.Enabled(cfg, s, Tell(w));
      } else {
        assert RuntimeSystem.Enabled(cfg, s, Finish(w, true));
      }
    case Told => assert RuntimeSystem.Enabled(cfg, s, Finish(w, true));
  }

  /** While packets wait, the pipeline and its workers have a step of their own to take, whatever the
      receiving thread does. */
  lemma WorkersNotStuck(cfg: RuntimeSystem.Config, s: RuntimeSystem.State)
    requires cfg.Valid() && Inv(cfg, s) && s.pipe.shared.queue != []
    ensures exists step: Step ::
              Deliberate(step) && !step.Stop? && !step.Submit? && !step.ReportDrop? && RuntimeSystem.Enabled(cfg, s, step)
  {
    hide PS.Inv, Balanced, Grounded, Held, RejectedOf, PipelineRuns.Drained;
    PipelineRuns.NotStuck(cfg.pipeline, s.pipe);
    var q :| PipelineRuns.Deliberate(q) && PS.Enabled(s.pipe, q);
    if q.Finish? {
      JobStep(cfg, s, q.worker);
    } else {
      assert RuntimeSystem.Enabled(cfg, s, Pipe(q));
    }
  }

  /** `run` terminates under every schedule: after the loop has ended at most `Effort` steps remain, and
      the only state in which no further step is possible, spurious wake-ups aside, is the one in which
      `run` has returned. */
  lemma {:induction false} StoppingReturns(cfg: RuntimeSystem.Config, s: RuntimeSystem.State, steps: seq<Step>)
    requires cfg.Valid() && Inv(cfg, s) && (s.io.Stopping? || s.io.Returned?) && CanRun(cfg, s, steps)
    ensures |steps| <= (if s.io.Returned? then 0 else Effort(s))
    ensures var s' := RuntimeSystem.After(cfg, s, steps);
            s'.io.Returned? <==> forall step :: Deliberate(step) ==> !RuntimeSystem.Enabled(cfg, s', step)
    decreases |steps|
  {
    if steps == [] {
      if s.io.Returned? {
        forall step
          ensures !RuntimeSystem.Enabled(cfg, s, step)
        {
          ReturnedIsFinal(cfg, s, step);
        }
      } else {
        RuntimeNotStuck(cfg, s);
      }
    } else {
      hide RuntimeSystem.Enabled, RuntimeSystem.Apply, PS.Inv, Balanced, Phased, Grounded, Effort;
      if s.io.Returned? {
        ReturnedIsFinal(cfg, s, steps[0]);
      } else {
        StoppingProgress(cfg, s, steps[0]);
        RuntimeSystem.StepInv(cfg, s, steps[0]);
        StoppingReturns(cfg, RuntimeSystem.Apply(cfg, s, steps[0]), steps[1..]);
      }
    }
  }
}
