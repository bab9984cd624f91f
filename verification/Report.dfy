/** The monitor's report: one snapshot per tracked source, sorted by the identity of the source. */
module MonitorReport {
  import opened Words
  import opened Types
  import opened Tracker
  import TrackerRuns
  import opened Health
  import opened Monitor
  import opened MonitorRuns
  import opened Arrangements
  import PacketCodec

  datatype Snapshot = Snapshot(
    source: SensorSource,
    status: HealthStatus,
    packets: uint64,
    firstReceive: uint64,
    lastReceive: uint64,
    inactivity: uint64,
    rate: real,
    latency: Latency,
    counters: Counters)

  datatype Report = Report(streams: Metrics, sources: seq<Snapshot>)

  function MakeSnapshot(cfg: Config, st: SourceState, now: uint64): Snapshot
    requires WellFormed(st.ring)
  {
    Snapshot(st.source, EvaluateStatus(cfg, st, now), st.packets, st.firstReceive, st.lastReceive,
             ElapsedOrZero(now, st.lastReceive), CurrentRate(st.ring), st.latency, st.counters)
  }

  /* ----- the order of sources ----- */

  /** Lexicographic order of strings, a proper prefix first. */
  predicate TextBefore(a: string, b: string) {
    b != [] && (a == [] || a[0] < b[0] || (a[0] == b[0] && TextBefore(a[1..], b[1..])))
  }

  predicate EndpointBefore(a: Endpoint, b: Endpoint) {
    TextBefore(a.address, b.address) || (a.address == b.address && a.port < b.port)
  }

  /** The order of the tuple (remote address, remote port, listener address, listener port, type code). */
  predicate SourceBefore(a: SensorSource, b: SensorSource) {
    || EndpointBefore(a.remote, b.remote)
    || (a.remote == b.remote && EndpointBefore(a.listener, b.listener))
    || (a.remote == b.remote && a.listener == b.listener
        && PacketCodec.Code(a.messageType) < PacketCodec.Code(b.messageType))
  }

  /** Position k is the first at which the strings differ, or the end of the first one. */
  ghost predicate PartAt(a: string, b: string, k: nat) {
    k <= |a| && k < |b| && a[..k] == b[..k] && (k < |a| ==> a[k] != b[k])
  }

  /** The first difference decides, the smaller character first and the end of a string before any. */
  lemma {:induction false} FirstDifferenceDecides(a: string, b: string, k: nat)
    requires PartAt(a, b, k)
    ensures TextBefore(a, b) <==> k == |a| || a[k] < b[k]
    decreases k
  {
    if k > 0 {
      assert a[0] == a[..k][0] == b[..k][0] == b[0];
      assert a[1..][..k - 1] == a[..k][1..] == b[..k][1..] == b[1..][..k - 1];
      FirstDifferenceDecides(a[1..], b[1..], k - 1);
    }
  }

  /** The first component in which two sources differ decides, ascending. */
  lemma FirstComponentDecides(a: SensorSource, b: SensorSource)
    ensures var x, y := a.remote, b.remote;
            && (x.address != y.address ==> (SourceBefore(a, b) <==> TextBefore(x.address, y.address)))
            && (x.address == y.address && x.port != y.port ==> (SourceBefore(a, b) <==> x.port < y.port))
    ensures var x, y := a.listener, b.listener;
            a.remote == b.remote ==>
              && (x.address != y.address ==> (SourceBefore(a, b) <==> TextBefore(x.address, y.address)))
              && (x.address == y.address && x.port != y.port ==> (SourceBefore(a, b) <==> x.port < y.port))
    ensures a.remote == b.remote && a.listener == b.listener ==>
              (SourceBefore(a, b) <==> (a.messageType.Imu? && !b.messageType.Imu?)
                                       || (a.messageType.Gnss? && b.messageType.CameraMeta?))
  {
    hide TextBefore;
    TextTotal(a.remote.address, b.remote.address);
    TextTotal(a.listener.address, b.listener.address);
  }

  lemma {:induction false} TextTotal(a: string, b: string)
    ensures (TextBefore(a, b) && a != b && !TextBefore(b, a))
         || (TextBefore(b, a) && a != b && !TextBefore(a, b))
         || (a == b && !TextBefore(a, b))
  {
    if a != [] && b != [] {
      TextTotal(a[1..], b[1..]);
      assert a == [a[0]] + a[1..] && b == [b[0]] + b[1..];
    }
  }

  lemma {:induction false} TextTransitive(a: string, b: string, c: string)
    requires TextBefore(a, b) && TextBefore(b, c)
    ensures TextBefore(a, c)
  {
    if a != [] && a[0] == b[0] == c[0] {
      TextTransitive(a[1..], b[1..], c[1..]);
    }
  }

  lemma EndpointTotal(a: Endpoint, b: Endpoint)
    ensures (EndpointBefore(a, b) && a != b && !EndpointBefore(b, a))
         || (EndpointBefore(b, a) && a != b && !EndpointBefore(a, b))
         || (a == b && !EndpointBefore(a, b))
  {
    hide TextBefore;
    TextTotal(a.address, b.address);
  }

  lemma EndpointTransitive(a: Endpoint, b: Endpoint, c: Endpoint)
    requires EndpointBefore(a, b) && EndpointBefore(b, c)
    ensures EndpointBefore(a, c)
  {
    hide TextBefore;
    if TextBefore(a.address, b.address) && TextBefore(b.address, c.address) {
      TextTransitive(a.address, b.address, c.address);
    }
  }

  /** A strict total order: of two sources exactly one comes first, unless they are the same. */
  lemma SourceTotal(a: SensorSource, b: SensorSource)
    ensures (SourceBefore(a, b) && a != b && !SourceBefore(b, a))
         || (SourceBefore(b, a) && a != b && !SourceBefore(a, b))
         || (a == b && !SourceBefore(a, b))
  {
    hide EndpointBefore;
    EndpointTotal(a.remote, b.remote);
    EndpointTotal(a.listener, b.listener);
  }

  lemma SourceTransitive(a: SensorSource, b: SensorSource, c: SensorSource)
    requires SourceBefore(a, b) && SourceBefore(b, c)
    ensures SourceBefore(a, c)
  {
    hide EndpointBefore;
    if EndpointBefore(a.remote, b.remote) && EndpointBefore(b.remote, c.remote) {
      EndpointTransitive(a.remote, b.remote, c.remote);
    }
    if EndpointBefore(a.listener, b.listener) && EndpointBefore(b.listener, c.listener) {
      EndpointTransitive(a.listener, b.listener, c.listener);
    }
  }

  ghost predicate Ascending(shots: seq<Snapshot>) {
    forall i, j :: 0 <= i < j < |shots| ==> SourceBefore(shots[i].source, shots[j].source)
  }

  /** What sorting may return: an ascending arrangement.  There is at most one, so the report does not
      depend on the sorting algorithm. */
  lemma {:induction false} SortedUnique(a: seq<Snapshot>, b: seq<Snapshot>)
    requires Ascending(a) && Ascending(b) && multiset(a) == multiset(b)
    ensures a == b
    decreases |a|
  {
    hide SourceBefore;
    assert |a| == |multiset(a)| == |multiset(b)| == |b|;
    if a != [] {
      var k := SameLast(a, b);
      LastOfBoth(a, b, k);
      assert b[..k] + b[k + 1..] == b[..|b| - 1];
      SortedUnique(a[..|a| - 1], b[..|b| - 1]);
      assert a == a[..|a| - 1] + [a[|a| - 1]] && b == b[..|b| - 1] + [a[|a| - 1]];
    }
  }

  /** The last of one ascending arrangement is the last of any other. */
  lemma LastOfBoth(a: seq<Snapshot>, b: seq<Snapshot>, k: nat)
    requires Ascending(a) && Ascending(b) && multiset(a) == multiset(b)
    requires a != [] && k < |b| && b[k] == a[|a| - 1]
    ensures k == |b| - 1
  {
    hide SourceBefore;
    var x, y := a[|a| - 1], b[|b| - 1];
    InMultiset(b, a, y);
    var j :| 0 <= j < |a| && a[j] == y;
    SourceTotal(x.source, y.source);
    assert j < |a| - 1 ==> SourceBefore(y.source, x.source);
    assert k < |b| - 1 ==> SourceBefore(x.source, y.source);
  }

  /** The snapshots in ascending order: what `std::ranges::sort` makes of them. */
  function Sorted(shots: seq<Snapshot>): (r: seq<Snapshot>) {
    if shots == [] then [] else Insert(Sorted(shots[..|shots| - 1]), shots[|shots| - 1])
  }

  function Insert(sorted: seq<Snapshot>, x: Snapshot): seq<Snapshot> {
    if sorted == [] || SourceBefore(sorted[|sorted| - 1].source, x.source) then sorted + [x]
    else Insert(sorted[..|sorted| - 1], x) + [sorted[|sorted| - 1]]
  }

  lemma {:induction false} InsertKeeps(sorted: seq<Snapshot>, x: Snapshot)
    ensures multiset(Insert(sorted, x)) == multiset(sorted) + multiset{x}
    ensures |Insert(sorted, x)| == |sorted| + 1
  {
    hide SourceBefore;
    if sorted != [] && !SourceBefore(sorted[|sorted| - 1].source, x.source) {
      InsertKeeps(sorted[..|sorted| - 1], x);
      assert sorted == sorted[..|sorted| - 1] + [sorted[|sorted| - 1]];
    }
  }

  lemma {:induction false} InsertAscends(sorted: seq<Snapshot>, x: Snapshot)
    requires Ascending(sorted)
    requires forall i :: 0 <= i < |sorted| ==> sorted[i].source != x.source
    ensures Ascending(Insert(sorted, x))
  {
    hide SourceBefore;
    if sorted != [] {
      var most, last := sorted[..|sorted| - 1], sorted[|sorted| - 1];
      SourceTotal(last.source, x.source);
      if SourceBefore(last.source, x.source) {
        forall i | 0 <= i < |most|
          ensures SourceBefore(most[i].source, x.source)
        {
          SourceTransitive(most[i].source, last.source, x.source);
        }
      } else {
        InsertAscends(most, x);
        var r := Insert(most, x);
        InsertKeeps(most, x);
        forall i | 0 <= i < |r|
          ensures SourceBefore(r[i].source, last.source)
        {
          assert r[i] in multiset(most) + multiset{x};
        }
      }
    }
  }

  ghost predicate DistinctSources(shots: seq<Snapshot>) {
    forall i, j :: 0 <= i < j < |shots| ==> shots[i].source != shots[j].source
  }

  lemma {:induction false} SortedAscends(shots: seq<Snapshot>)
    requires DistinctSources(shots)
    ensures Ascending(Sorted(shots)) && multiset(Sorted(shots)) == multiset(shots)
  {
    hide SourceBefore;
    if shots != [] {
      var before, x := shots[..|shots| - 1], shots[|shots| - 1];
      SortedAscends(before);
      var sorted := Sorted(before);
      assert shots == before + [x];
      InsertKeeps(sorted, x);
      forall i | 0 <= i < |sorted|
        ensures sorted[i].source != x.source
      {
        assert sorted[i] in multiset(before);
        assert sorted[i] in before;
      }
      InsertAscends(sorted, x);
    }
  }

  /* ----- the report ----- */

  function Snapshots(cfg: Config, sources: seq<SourceState>, now: uint64): (shots: seq<Snapshot>)
    requires WellFormedAll(sources)
    ensures |shots| == |sources|
  {
    seq(|sources|, i requires 0 <= i < |sources| => MakeSnapshot(cfg, sources[i], now))
  }

  function ReportOf(cfg: Config, m: MonitorState, now: uint64): Report
    requires WellFormedAll(m.sources)
  {
    Report(m.tracker.metrics, Sorted(Snapshots(cfg, m.sources, now)))
  }

  method MakeReport(monitor: SourceHealthMonitor, now: uint64) returns (report: Report)
    requires monitor.Valid()
    ensures report == ReportOf(monitor.config, monitor.View(), now)
  {
    hide Sorted, CurrentRate, EvaluateStatus;
    var shots: seq<Snapshot> := [];
    var i := 0;
    while i < |monitor.sources|
      invariant i == |shots| <= |monitor.sources|
      invariant shots == Snapshots(monitor.config, monitor.sources, now)[..i]
    {
      shots := shots + [MakeSnapshot(monitor.config, monitor.sources[i], now)];
      i := i + 1;
    }
    assert shots == Snapshots(monitor.config, monitor.sources, now);
    report := Report(monitor.tracker.metrics, Sorted(shots));
  }

  lemma SnapshotsDistinct(cfg: Config, calls: seq<Call>, now: uint64)
    ensures DistinctSources(Snapshots(cfg, Monitor.Run(cfg.maxSources, calls).sources, now))
  {
    hide Monitor.Run, CurrentRate, EvaluateStatus;
    TwinTables(cfg.maxSources, calls);
  }

  /** The report lists exactly the snapshots of the tracked sources, each once, in the one possible
      ascending order. */
  lemma ReportIsUnique(cfg: Config, calls: seq<Call>, now: uint64, shots: seq<Snapshot>)
    ensures var m := Monitor.Run(cfg.maxSources, calls);
            shots == ReportOf(cfg, m, now).sources
            <==> Ascending(shots) && multiset(shots) == multiset(Snapshots(cfg, m.sources, now))
  {
    hide Monitor.Run, Snapshots, Sorted, Ascending, WellFormedAll;
    var m := Monitor.Run(cfg.maxSources, calls);
    SnapshotsDistinct(cfg, calls, now);
    SortedAscends(Snapshots(cfg, m.sources, now));
    if Ascending(shots) && multiset(shots) == multiset(Snapshots(cfg, m.sources, now)) {
      SortedUnique(shots, Sorted(Snapshots(cfg, m.sources, now)));
    }
  }

  /** The report is about the admitted sources: about each, and about no other. */
  lemma ReportSources(cfg: Config, calls: seq<Call>, now: uint64)
    ensures var shots := ReportOf(cfg, Monitor.Run(cfg.maxSources, calls), now).sources;
            && Ascending(shots)
            && forall s :: (exists k :: 0 <= k < |shots| && shots[k].source == s)
                           <==> s in TrackerRuns.Admitted(cfg.maxSources, Seen(calls))
  {
    hide *;
    var m := Monitor.Run(cfg.maxSources, calls);
    var shots := ReportOf(cfg, m, now).sources;
    ReportIsUnique(cfg, calls, now, shots);
    forall s
      ensures (exists k :: 0 <= k < |shots| && shots[k].source == s) <==> s in TrackerRuns.Admitted(cfg.maxSources, Seen(calls))
    {
      if k :| 0 <= k < |shots| && shots[k].source == s {
        var i := FromSnapshot(cfg, calls, now, k);
        SnapshotFields(cfg, m.sources, i, now);
        AdmittedRecord(cfg.maxSources, calls, i);
      }
      if s in TrackerRuns.Admitted(cfg.maxSources, Seen(calls)) {
        var i: nat :| i < |TrackerRuns.Admitted(cfg.maxSources, Seen(calls))| && TrackerRuns.Admitted(cfg.maxSources, Seen(calls))[i] == s;
        AdmittedRecord(cfg.maxSources, calls, i);
        var k := ToSnapshot(cfg, calls, now, i);
      }
    }
  }

  lemma AdmittedRecord(max: nat, calls: seq<Call>, i: nat)
    ensures |Monitor.Run(max, calls).sources| == |TrackerRuns.Admitted(max, Seen(calls))|
    ensures i < |Monitor.Run(max, calls).sources| ==> Monitor.Run(max, calls).sources[i].source == TrackerRuns.Admitted(max, Seen(calls))[i]
  {
    MonitorRefinesLogs(max, calls);
    hide Monitor.Run, TrackerRuns.Admitted, LogOf;
  }

  lemma ToSnapshot(cfg: Config, calls: seq<Call>, now: uint64, i: nat) returns (k: nat)
    requires i < |Monitor.Run(cfg.maxSources, calls).sources|
    ensures var m := Monitor.Run(cfg.maxSources, calls);
            k < |ReportOf(cfg, m, now).sources| && ReportOf(cfg, m, now).sources[k].source == m.sources[i].source
  {
    hide Monitor.Run, Sorted, MakeSnapshot, WellFormedAll, Ascending;
    var m := Monitor.Run(cfg.maxSources, calls);
    var shots := Snapshots(cfg, m.sources, now);
    SnapshotsDistinct(cfg, calls, now);
    SortedAscends(shots);
    SnapshotFields(cfg, m.sources, i, now);
    assert shots[i] in multiset(shots);
    assert shots[i] in multiset(Sorted(shots));
    assert shots[i] in Sorted(shots);
    k :| 0 <= k < |Sorted(shots)| && Sorted(shots)[k] == shots[i];
  }

  /** What a snapshot says of a source with the given history. */
  ghost predicate Tells(cfg: Config, shot: Snapshot, log: seq<Event>, now: uint64) {
    var recent, last := LastUpTo(Clamped(log), 64), LastArrived(log);
    var k := |recent|;
    && shot.status == StatusOf(cfg, log, now)
    && shot.packets == Min(Arrivals(log), MAX_64)
    && Clamped(log) != [] && shot.firstReceive == Clamped(log)[0]
    && shot.lastReceive == LatestArrival(log)
    && shot.inactivity == ElapsedOrZero(now, LatestArrival(log))
    && (k >= 2 ==> recent[0] <= recent[k - 1])
    && shot.rate == (if k < 2 || recent[k - 1] == recent[0] then 0.0
                     else (k - 1) as real * 1_000_000_000.0 / (recent[k - 1] - recent[0]) as real)
    && shot.latency.latest == (if last.Some? && Timely(last.value) then last.value.received - last.value.sent else 0)
    && IsMaximum(log, shot.latency.maximum)
    && CountersTell(shot.counters, log)
  }

  ghost predicate CountersTell(c: Counters, log: seq<Event>) {
    && c.anomalies == Min(Health.Count(log, IS_ANOMALY), MAX_64)
    && c.gaps == Min(Health.Count(log, IS_GAP), MAX_64)
    && c.duplicates == Min(Health.Count(log, IS_DUPLICATE), MAX_64)
    && c.reordered == Min(Health.Count(log, IS_REORDERED), MAX_64)
    && c.missing == Min(MissingIn(log), MAX_64)
    && c.payloadsRejected == Min(Health.Count(log, IS_REJECTION), MAX_64)
    && c.queueDropped == Min(Health.Count(log, IS_DROP), MAX_64)
  }

  /** Every field of every snapshot in a report, after any calls, tells the history of its source. */
  lemma ReportTellsHistories(cfg: Config, calls: seq<Call>, now: uint64, k: nat)
    requires k < |ReportOf(cfg, Monitor.Run(cfg.maxSources, calls), now).sources|
    ensures var shot := ReportOf(cfg, Monitor.Run(cfg.maxSources, calls), now).sources[k];
            LogOf(calls, shot.source) != [] && Tells(cfg, shot, LogOf(calls, shot.source), now)
  {
    hide *;
    var m := Monitor.Run(cfg.maxSources, calls);
    var i := FromSnapshot(cfg, calls, now, k);
    var s := m.sources[i].source;
    SourceOfRecord(cfg.maxSources, calls, i);
    LogTracked(calls, s);
    LogHasArrival(calls, s);
    SnapshotTells(cfg, s, LogOf(calls, s), now);
    SnapshotFields(cfg, m.sources, i, now);
  }

  lemma SnapshotTells(cfg: Config, s: SensorSource, log: seq<Event>, now: uint64)
    requires Health.Tracked(log) && Arrivals(log) > 0
    ensures Tells(cfg, MakeSnapshot(cfg, StateOf(s, log), now), log, now)
  {
    StateSummarizes(s, log);
    StateCounts(s, log);
    StatusRefines(cfg, s, log, now);
    FirstArrivalStays(s, log);
    LatencyTells(s, log);
    RateIsHonest(s, log);
    hide StateOf, EvaluateStatus, StatusOf, CurrentRate, Clamped, Arrivals, LastUpTo, Health.Count, MissingIn, IsMaximum,
      LastArrived, LatestArrival;
  }

  lemma FromSnapshot(cfg: Config, calls: seq<Call>, now: uint64, k: nat) returns (i: nat)
    requires k < |ReportOf(cfg, Monitor.Run(cfg.maxSources, calls), now).sources|
    ensures var m := Monitor.Run(cfg.maxSources, calls);
            i < |m.sources| && ReportOf(cfg, m, now).sources[k] == MakeSnapshot(cfg, m.sources[i], now)
  {
    hide Monitor.Run, Sorted, MakeSnapshot, WellFormedAll, Ascending;
    var m := Monitor.Run(cfg.maxSources, calls);
    var shots := Snapshots(cfg, m.sources, now);
    SnapshotsDistinct(cfg, calls, now);
    SortedAscends(shots);
    var shot := ReportOf(cfg, m, now).sources[k];
    assert shot in multiset(Sorted(shots));
    assert shot in multiset(shots);
    assert shot in shots;
    i :| 0 <= i < |shots| && shots[i] == shot;
  }

  /** A report with the statuses left out. */
  function Blank(shots: seq<Snapshot>): (r: seq<Snapshot>)
    ensures |r| == |shots|
  {
    seq(|shots|, i requires 0 <= i < |shots| => shots[i].(status := Unknown))
  }

  lemma {:induction false} BlankSorted(shots: seq<Snapshot>)
    ensures Blank(Sorted(shots)) == Sorted(Blank(shots))
  {
    hide SourceBefore;
    if shots != [] {
      var before, x := shots[..|shots| - 1], shots[|shots| - 1];
      BlankSorted(before);
      BlankInsert(Sorted(before), x);
      assert Blank(shots)[..|shots| - 1] == Blank(before);
    }
  }

  lemma {:induction false} BlankInsert(sorted: seq<Snapshot>, x: Snapshot)
    ensures Blank(Insert(sorted, x)) == Insert(Blank(sorted), x.(status := Unknown))
  {
    hide SourceBefore;
    if sorted != [] && !SourceBefore(sorted[|sorted| - 1].source, x.source) {
      BlankInsert(sorted[..|sorted| - 1], x);
      assert Blank(sorted)[..|sorted| - 1] == Blank(sorted[..|sorted| - 1]);
    }
  }

  /** The report is independent of when issues are reported, except for the statuses. */
  lemma ReportSchedule(cfg: Config, a: seq<Call>, b: seq<Call>, now: uint64)
    requires PacketCalls(a) == PacketCalls(b) && multiset(IssueCalls(a)) == multiset(IssueCalls(b))
    requires Grounded(a) && Grounded(b)
    ensures var r := ReportOf(cfg, Monitor.Run(cfg.maxSources, a), now);
            var q := ReportOf(cfg, Monitor.Run(cfg.maxSources, b), now);
            r.streams == q.streams && Blank(r.sources) == Blank(q.sources)
  {
    hide Monitor.Run, Sorted, CurrentRate, EvaluateStatus, PacketCalls, IssueCalls, Grounded, Core, MakeSnapshot;
    var m, n := Monitor.Run(cfg.maxSources, a), Monitor.Run(cfg.maxSources, b);
    ScheduleIndependence(cfg.maxSources, a, b);
    var x, y := Snapshots(cfg, m.sources, now), Snapshots(cfg, n.sources, now);
    BlankSorted(x);
    BlankSorted(y);
    forall i | 0 <= i < |x|
      ensures Blank(x)[i] == Blank(y)[i]
    {
      SameButStatus(cfg, m.sources[i], n.sources[i], now);
    }
    assert Blank(x) == Blank(y);
  }

  /** How the statuses in two such reports may differ, source by source. */
  lemma ReportStatuses(cfg: Config, a: seq<Call>, b: seq<Call>, now: uint64, k: nat)
    requires cfg.Valid()
    requires PacketCalls(a) == PacketCalls(b) && multiset(IssueCalls(a)) == multiset(IssueCalls(b))
    requires Grounded(a) && Grounded(b)
    requires k < |ReportOf(cfg, Monitor.Run(cfg.maxSources, a), now).sources|
    requires k < |ReportOf(cfg, Monitor.Run(cfg.maxSources, b), now).sources|
    ensures var x := ReportOf(cfg, Monitor.Run(cfg.maxSources, a), now).sources[k].status;
            var y := ReportOf(cfg, Monitor.Run(cfg.maxSources, b), now).sources[k].status;
            x != y ==> {x, y} == {Healthy, Degraded}
  {
    hide *;
    var m, n := Monitor.Run(cfg.maxSources, a), Monitor.Run(cfg.maxSources, b);
    var i := FromSnapshot(cfg, a, now, k);
    var j := FromSnapshot(cfg, b, now, k);
    ReportSchedule(cfg, a, b, now);
    ScheduleIndependence(cfg.maxSources, a, b);
    BlankSource(ReportOf(cfg, m, now).sources, ReportOf(cfg, n, now).sources, k);
    SnapshotFields(cfg, m.sources, i, now);
    SnapshotFields(cfg, n.sources, j, now);
    TwinTables(cfg.maxSources, b);
    CoreSource(m.sources[i], n.sources[i]);
    ScheduleStatuses(cfg, a, b, i, now);
  }

  lemma BlankSource(x: seq<Snapshot>, y: seq<Snapshot>, k: nat)
    requires Blank(x) == Blank(y) && k < |x| && k < |y|
    ensures x[k].source == y[k].source
  {
    assert Blank(x)[k] == Blank(y)[k];
  }

  lemma SnapshotFields(cfg: Config, sources: seq<SourceState>, i: nat, now: uint64)
    requires WellFormedAll(sources) && i < |sources|
    ensures WellFormed(sources[i].ring)
    ensures var shot := MakeSnapshot(cfg, sources[i], now);
            shot.source == sources[i].source && shot.status == EvaluateStatus(cfg, sources[i], now)
  {
  }

  lemma CoreSource(a: SourceState, b: SourceState)
    requires Core(a) == Core(b)
    ensures a.source == b.source
  {
  }

  lemma SameButStatus(cfg: Config, a: SourceState, b: SourceState, now: uint64)
    requires WellFormed(a.ring) && WellFormed(b.ring) && Core(a) == Core(b)
    ensures MakeSnapshot(cfg, a, now).(status := Unknown) == MakeSnapshot(cfg, b, now).(status := Unknown)
  {
  }
}
