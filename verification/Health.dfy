/** The per-source state of SourceHealthMonitor and the status read from it. */
module Health {
  import opened Words
  import opened Types
  import opened Tracker

  const RING := 64

  /** The durations are nanosecond counts of std::chrono, so they fit a signed 64-bit integer. */
  datatype Config = Config(
    maxSources: nat,
    healthyAfterPackets: uint64,
    degradedAfter: nat,
    offlineAfter: nat,
    recoveryAfter: nat)
  {
    predicate Valid() {
      && maxSources > 0
      && healthyAfterPackets > 0
      && 0 < degradedAfter < offlineAfter < TWO_63
      && 0 < recoveryAfter < TWO_63
    }
  }

  datatype HealthStatus = Unknown | Healthy | Degraded | Offline

  datatype IssueKind = PayloadRejected | QueueDropped

  /** `recent_timestamps` with its count and its write index. */
  datatype Ring = Ring(slots: seq<uint64>, count: nat, next: nat)

  datatype Latency = Latency(latest: uint64, maximum: uint64)

  datatype Counters = Counters(
    anomalies: uint64,
    gaps: uint64,
    duplicates: uint64,
    reordered: uint64,
    missing: uint64,
    payloadsRejected: uint64,
    queueDropped: uint64)

  /** `issue_seen`, `last_issue_timestamp_ns` and `healthy_packets_since_issue`. */
  datatype Trouble = Trouble(seen: bool, last: uint64, healthySince: uint64)

  /** The fields of the source's record, in groups. */
  datatype SourceState = SourceState(
    source: SensorSource,
    ring: Ring,
    packets: uint64,
    firstReceive: uint64,
    lastReceive: uint64,
    latency: Latency,
    counters: Counters,
    trouble: Trouble)

  function NewSource(s: SensorSource): SourceState {
    SourceState(s, Ring(seq(RING, _ => 0), 0, 0), 0, 0, 0, Latency(0, 0), Counters(0, 0, 0, 0, 0, 0, 0),
                Trouble(false, 0, 0))
  }

  predicate WellFormed(ring: Ring) {
    |ring.slots| == RING && ring.next < RING && ring.count <= RING
  }

  function Increment(x: uint64): uint64 {
    if x != MAX_64 then x + 1 else x
  }

  function MarkIssue(t: Trouble, time: uint64): Trouble {
    Trouble(true, Max(t.last, time), 0)
  }

  function RecordTimestamp(r: Ring, time: uint64): (r': Ring)
    requires WellFormed(r)
    ensures WellFormed(r')
  {
    Ring(r.slots[r.next := time], Min(r.count + 1, RING), (r.next + 1) % RING)
  }

  /** A source clock ahead of the receive clock is an anomaly and yields no latency. */
  function RecordLatency(l: Latency, received: uint64, sent: uint64): Latency {
    if sent > received then l.(latest := 0)
    else Latency(received - sent, Max(l.maximum, received - sent))
  }

  /** The counters after a packet. */
  function CountPacket(c: Counters, anomaly: bool, status: Status, missing: uint64): Counters {
    var c1 := if anomaly then c.(anomalies := Increment(c.anomalies)) else c;
    match status
    case Gap => c1.(gaps := Increment(c.gaps), missing := SaturatingAdd(c.missing, missing))
    case Duplicate => c1.(duplicates := Increment(c.duplicates))
    case Reordered => c1.(reordered := Increment(c.reordered))
    case _ => c1
  }

  function CountIssue(c: Counters, kind: IssueKind): Counters {
    match kind
    case PayloadRejected => c.(payloadsRejected := Increment(c.payloadsRejected))
    case QueueDropped => c.(queueDropped := Increment(c.queueDropped))
  }

  /** `record_packet` for an observation of a tracked source. */
  function RecordPacket(st: SourceState, received: uint64, sent: uint64, status: Status, missing: uint64): SourceState
    requires WellFormed(st.ring)
  {
    var time: uint64 := Max(received, st.lastReceive);
    var anomaly := sent > received;
    SourceState(
      st.source,
      RecordTimestamp(st.ring, time),
      Increment(st.packets),
      if st.packets == 0 then time else st.firstReceive,
      time,
      RecordLatency(st.latency, received, sent),
      CountPacket(st.counters, anomaly, status, missing),
      if status == Untracked then st.trouble
      else if anomaly || status == Gap || status == Duplicate || status == Reordered then MarkIssue(st.trouble, time)
      else st.trouble.(healthySince := Increment(st.trouble.healthySince)))
  }

  function RecordIssue(st: SourceState, kind: IssueKind, time: uint64): SourceState {
    st.(counters := CountIssue(st.counters, kind), trouble := MarkIssue(st.trouble, time))
  }

  function ElapsedOrZero(now: uint64, then_: uint64): uint64 {
    if now >= then_ then now - then_ else 0
  }

  function EvaluateStatus(cfg: Config, st: SourceState, now: uint64): HealthStatus {
    var inactivity := ElapsedOrZero(now, st.lastReceive);
    if inactivity >= cfg.offlineAfter then Offline
    else if inactivity >= cfg.degradedAfter then Degraded
    else if st.trouble.seen
            && (ElapsedOrZero(now, st.trouble.last) < cfg.recoveryAfter
                || st.trouble.healthySince < cfg.healthyAfterPackets) then Degraded
    else if st.packets < cfg.healthyAfterPackets then Unknown
    else Healthy
  }

  /** Arrivals per second over the ring; the subtraction is the 64-bit unsigned one. */
  function CurrentRate(r: Ring): real
    requires WellFormed(r)
  {
    if r.count < 2 then 0.0
    else
      var oldest := if r.count < RING then 0 else r.next;
      var newest := (r.next + RING - 1) % RING;
      var elapsed := (r.slots[newest] - r.slots[oldest]) % TWO_64;
      if elapsed == 0 then 0.0 else (r.count - 1) as real * 1_000_000_000.0 / elapsed as real
  }

  /* ----- the reference: the whole history of one source ----- */

  datatype Event =
    | Arrived(received: uint64, sent: uint64, status: Status, missing: uint64)
    | Issue(kind: IssueKind, time: uint64)

  function Apply(st: SourceState, e: Event): (st': SourceState)
    requires WellFormed(st.ring)
    ensures WellFormed(st'.ring) && st'.source == st.source
  {
    match e
    case Arrived(received, sent, status, missing) => RecordPacket(st, received, sent, status, missing)
    case Issue(kind, time) => RecordIssue(st, kind, time)
  }

  function StateOf(s: SensorSource, log: seq<Event>): (st: SourceState)
    ensures WellFormed(st.ring) && st.source == s
  {
    if log == [] then NewSource(s) else Apply(StateOf(s, log[..|log| - 1]), log[|log| - 1])
  }

  function Arrivals(log: seq<Event>): nat {
    if log == [] then 0 else Arrivals(log[..|log| - 1]) + (if log[|log| - 1].Arrived? then 1 else 0)
  }

  /** The latest receive time so far: what later arrivals are clamped to. */
  function LatestArrival(log: seq<Event>): uint64 {
    if log == [] then 0
    else
      var before, e := LatestArrival(log[..|log| - 1]), log[|log| - 1];
      if e.Arrived? then Max(before, e.received) else before
  }

  /** The clamped receive times. */
  function Clamped(log: seq<Event>): (ts: seq<uint64>)
    ensures |ts| == Arrivals(log)
  {
    if log == [] then []
    else Clamped(log[..|log| - 1]) + (if log[|log| - 1].Arrived? then [LatestArrival(log)] else [])
  }

  predicate Troubled(e: Event) {
    e.Issue? || e.sent > e.received || e.status in {Gap, Duplicate, Reordered}
  }

  predicate EverTroubled(log: seq<Event>) {
    log != [] && (EverTroubled(log[..|log| - 1]) || Troubled(log[|log| - 1]))
  }

  /** The clean arrivals since the last trouble. */
  function CleanSince(log: seq<Event>): nat {
    if log == [] || Troubled(log[|log| - 1]) then 0 else CleanSince(log[..|log| - 1]) + 1
  }

  /** The largest time of any trouble: a packet's clamped arrival, or the time an issue carries. */
  function LatestTrouble(log: seq<Event>): uint64 {
    if log == [] then 0
    else
      var before, e := LatestTrouble(log[..|log| - 1]), log[|log| - 1];
      if !Troubled(e) then before
      else Max(before, if e.Issue? then e.time else LatestArrival(log))
  }

  function Count(log: seq<Event>, p: Event -> bool): nat {
    if log == [] then 0 else Count(log[..|log| - 1], p) + (if p(log[|log| - 1]) then 1 else 0)
  }

  function MissingIn(log: seq<Event>): nat {
    if log == [] then 0
    else
      var e := log[|log| - 1];
      MissingIn(log[..|log| - 1]) + (if e.Arrived? && e.status == Gap then e.missing else 0)
  }

  const IS_GAP := (e: Event) => e.Arrived? && e.status == Gap
  const IS_DUPLICATE := (e: Event) => e.Arrived? && e.status == Duplicate
  const IS_REORDERED := (e: Event) => e.Arrived? && e.status == Reordered
  const IS_ANOMALY := (e: Event) => e.Arrived? && e.sent > e.received
  const IS_REJECTION := (e: Event) => e.Issue? && e.kind == PayloadRejected
  const IS_DROP := (e: Event) => e.Issue? && e.kind == QueueDropped

  /** Events of admitted sources are never untracked. */
  ghost predicate Tracked(log: seq<Event>) {
    forall i :: 0 <= i < |log| ==> !(log[i].Arrived? && log[i].status == Untracked)
  }

  /** The summary fields that the status is evaluated from. */
  ghost predicate Summarizes(st: SourceState, log: seq<Event>) {
    && st.packets == Min(Arrivals(log), MAX_64)
    && st.lastReceive == LatestArrival(log)
    && st.trouble.seen == EverTroubled(log)
    && st.trouble.last == LatestTrouble(log)
    && st.trouble.healthySince == Min(CleanSince(log), MAX_64)
  }

  /** What one event does to the summary fields. */
  lemma ApplySummary(st: SourceState, e: Event)
    requires WellFormed(st.ring) && !(e.Arrived? && e.status == Untracked)
    ensures var st' := Apply(st, e);
            && st'.packets == (if e.Arrived? then Increment(st.packets) else st.packets)
            && st'.lastReceive == (if e.Arrived? then Max(e.received, st.lastReceive) else st.lastReceive)
            && st'.trouble.seen == (st.trouble.seen || Troubled(e))
            && st'.trouble.last == (if !Troubled(e) then st.trouble.last
                                 else Max(st.trouble.last, if e.Issue? then e.time else st'.lastReceive))
            && st'.trouble.healthySince == (if Troubled(e) then 0 else Increment(st.trouble.healthySince))
  {
  }

  lemma SummarizesStep(st: SourceState, log: seq<Event>, e: Event)
    requires WellFormed(st.ring) && Summarizes(st, log) && !(e.Arrived? && e.status == Untracked)
    ensures Summarizes(Apply(st, e), log + [e])
  {
    hide Apply;
    ApplySummary(st, e);
    assert (log + [e])[..|log|] == log;
  }

  lemma {:induction false} StateSummarizes(s: SensorSource, log: seq<Event>)
    requires Tracked(log)
    ensures Summarizes(StateOf(s, log), log)
  {
    hide Apply, Summarizes;
    if log == [] {
      EmptySummarizes(s);
    } else {
      var before, e := log[..|log| - 1], log[|log| - 1];
      StateSummarizes(s, before);
      SummarizesStep(StateOf(s, before), before, e);
      assert log == before + [e];
    }
  }

  lemma EmptySummarizes(s: SensorSource)
    ensures Summarizes(StateOf(s, []), [])
  {
  }

  ghost predicate Tallies(st: SourceState, log: seq<Event>) {
    && st.counters.gaps == Min(Count(log, IS_GAP), MAX_64)
    && st.counters.duplicates == Min(Count(log, IS_DUPLICATE), MAX_64)
    && st.counters.reordered == Min(Count(log, IS_REORDERED), MAX_64)
    && st.counters.anomalies == Min(Count(log, IS_ANOMALY), MAX_64)
    && st.counters.payloadsRejected == Min(Count(log, IS_REJECTION), MAX_64)
    && st.counters.queueDropped == Min(Count(log, IS_DROP), MAX_64)
    && st.counters.missing == Min(MissingIn(log), MAX_64)
  }

  function IncrementIf(x: uint64, b: bool): uint64 {
    if b then Increment(x) else x
  }

  lemma ApplyCounts(st: SourceState, e: Event)
    requires WellFormed(st.ring)
    ensures var st' := Apply(st, e);
            && st'.counters.gaps == IncrementIf(st.counters.gaps, IS_GAP(e))
            && st'.counters.duplicates == IncrementIf(st.counters.duplicates, IS_DUPLICATE(e))
            && st'.counters.reordered == IncrementIf(st.counters.reordered, IS_REORDERED(e))
            && st'.counters.anomalies == IncrementIf(st.counters.anomalies, IS_ANOMALY(e))
            && st'.counters.payloadsRejected == IncrementIf(st.counters.payloadsRejected, IS_REJECTION(e))
            && st'.counters.queueDropped == IncrementIf(st.counters.queueDropped, IS_DROP(e))
            && st'.counters.missing == (if IS_GAP(e) then SaturatingAdd(st.counters.missing, e.missing) else st.counters.missing)
  {
  }

  lemma CountStep(log: seq<Event>, e: Event, p: Event -> bool)
    ensures Count(log + [e], p) == Count(log, p) + (if p(e) then 1 else 0)
  {
    assert (log + [e])[..|log|] == log;
  }

  lemma TalliesStep(st: SourceState, log: seq<Event>, e: Event)
    requires WellFormed(st.ring) && Tallies(st, log)
    ensures Tallies(Apply(st, e), log + [e])
  {
    hide Apply, Count;
    ApplyCounts(st, e);
    CountStep(log, e, IS_GAP);
    CountStep(log, e, IS_DUPLICATE);
    CountStep(log, e, IS_REORDERED);
    CountStep(log, e, IS_ANOMALY);
    CountStep(log, e, IS_REJECTION);
    CountStep(log, e, IS_DROP);
    assert (log + [e])[..|log|] == log;
  }

  /** Each counter is the number of its events in the log, capped. */
  lemma {:induction false} StateCounts(s: SensorSource, log: seq<Event>)
    ensures Tallies(StateOf(s, log), log)
  {
    hide Apply, Tallies;
    if log == [] {
      EmptyTallies(s);
    } else {
      var before, e := log[..|log| - 1], log[|log| - 1];
      StateCounts(s, before);
      TalliesStep(StateOf(s, before), before, e);
      assert log == before + [e];
    }
  }

  lemma EmptyTallies(s: SensorSource)
    ensures Tallies(StateOf(s, []), [])
  {
  }

  predicate Timely(e: Event) {
    e.Arrived? && e.sent <= e.received
  }

  /** The largest latency of the timely arrivals: an upper bound that one of them attains. */
  ghost predicate IsMaximum(log: seq<Event>, maximum: uint64) {
    && (forall i :: 0 <= i < |log| && Timely(log[i]) ==> log[i].received - log[i].sent <= maximum)
    && (maximum == 0 || exists i :: 0 <= i < |log| && Timely(log[i]) && log[i].received - log[i].sent == maximum)
  }

  /** The last arrival, if any. */
  function LastArrived(log: seq<Event>): (r: Option<Event>)
    ensures r.Some? ==> r.value.Arrived?
  {
    if log == [] then None
    else if log[|log| - 1].Arrived? then Some(log[|log| - 1])
    else LastArrived(log[..|log| - 1])
  }

  lemma MaximumStep(log: seq<Event>, e: Event, maximum: uint64)
    requires IsMaximum(log, maximum)
    ensures IsMaximum(log + [e], if Timely(e) then Max(maximum, e.received - e.sent) else maximum)
  {
    var all, m: uint64 := log + [e], if Timely(e) then Max(maximum, e.received - e.sent) else maximum;
    if m == maximum {
      if i :| 0 <= i < |log| && Timely(log[i]) && log[i].received - log[i].sent == maximum {
        assert all[i] == log[i];
      }
    } else {
      assert all[|log|] == e;
    }
  }

  /** Latency fields: the latest is the last arrival's, zero if its source clock ran ahead, and the
      maximum is that of all timely arrivals. */
  lemma {:induction false} LatencyTells(s: SensorSource, log: seq<Event>)
    ensures var l, last := StateOf(s, log).latency, LastArrived(log);
            && l.latest == (if last.Some? && Timely(last.value) then last.value.received - last.value.sent else 0)
            && IsMaximum(log, l.maximum)
  {
    if log != [] {
      var before, e := log[..|log| - 1], log[|log| - 1];
      LatencyTells(s, before);
      hide IsMaximum;
      MaximumStep(before, e, StateOf(s, before).latency.maximum);
      assert log == before + [e];
    }
  }

  /** `first_receive_timestamp_ns` is the first clamped arrival for ever: the saturating packet counter
      never returns to the zero that would set it again. */
  lemma {:induction false} FirstArrivalStays(s: SensorSource, log: seq<Event>)
    requires Tracked(log)
    ensures Clamped(log) != [] ==> StateOf(s, log).firstReceive == Clamped(log)[0]
  {
    if log != [] {
      var before, e := log[..|log| - 1], log[|log| - 1];
      FirstArrivalStays(s, before);
      StateSummarizes(s, before);
      hide RecordTimestamp, RecordLatency, CountPacket, MarkIssue;
    }
  }

  /* ----- the ring ----- */

  /** The ring read from oldest to newest. */
  function Recent(r: Ring): (ts: seq<uint64>)
    requires WellFormed(r)
    ensures |ts| == r.count
  {
    var oldest := if r.count < RING then 0 else r.next;
    seq(r.count, i requires 0 <= i < r.count => r.slots[(oldest + i) % RING])
  }

  function LastUpTo(ts: seq<uint64>, k: nat): seq<uint64> {
    if |ts| <= k then ts else ts[|ts| - k..]
  }

  ghost predicate RingHolds(r: Ring, ts: seq<uint64>) {
    && WellFormed(r)
    && r.count == Min(|ts|, RING)
    && r.next == |ts| % RING
    && forall j :: Max(0, |ts| - RING) <= j < |ts| ==> r.slots[j % RING] == ts[j]
  }

  lemma RingStep(r: Ring, ts: seq<uint64>, t: uint64)
    requires RingHolds(r, ts)
    ensures RingHolds(RecordTimestamp(r, t), ts + [t])
  {
    var r', ts' := RecordTimestamp(r, t), ts + [t];
    forall j | Max(0, |ts'| - RING) <= j < |ts'|
      ensures r'.slots[j % RING] == ts'[j]
    {
      SlotsApart(j, |ts|);
    }
    NextSlot(|ts|);
  }

  lemma SlotsApart(j: nat, n: nat)
    ensures j <= n < j + RING ==> (j % RING == n % RING <==> j == n)
  {
    var q, q' := j / RING, n / RING;
    assert j == RING * q + j % RING && n == RING * q' + n % RING;
  }

  lemma NextSlot(n: nat)
    ensures (n % RING + 1) % RING == (n + 1) % RING
  {
  }

  lemma {:induction false} RingFollows(s: SensorSource, log: seq<Event>)
    ensures RingHolds(StateOf(s, log).ring, Clamped(log))
    ensures StateOf(s, log).lastReceive == LatestArrival(log)
  {
    if log == [] {
    } else {
      var before, e := log[..|log| - 1], log[|log| - 1];
      RingFollows(s, before);
      if e.Arrived? {
        hide RecordTimestamp, RingHolds;
        RingStep(StateOf(s, before).ring, Clamped(before), LatestArrival(log));
      } else {
        assert Clamped(log) == Clamped(before);
      }
    }
  }

  ghost predicate NonDecreasing(ts: seq<uint64>) {
    forall i, j :: 0 <= i <= j < |ts| ==> ts[i] <= ts[j]
  }

  lemma {:induction false} ClampedSorted(log: seq<Event>)
    ensures NonDecreasing(Clamped(log))
    ensures forall i :: 0 <= i < |Clamped(log)| ==> Clamped(log)[i] <= LatestArrival(log)
  {
    if log != [] {
      ClampedSorted(log[..|log| - 1]);
    }
  }

  /** For arbitrary receive times the ring holds the last 64 clamped arrivals, oldest first. */
  lemma RingIsRecent(s: SensorSource, log: seq<Event>)
    ensures Recent(StateOf(s, log).ring) == LastUpTo(Clamped(log), RING)
    ensures NonDecreasing(Recent(StateOf(s, log).ring))
  {
    RingFollows(s, log);
    ClampedSorted(log);
    hide StateOf, Clamped;
    RecentIsLast(StateOf(s, log).ring, Clamped(log));
  }

  lemma RecentIsLast(r: Ring, ts: seq<uint64>)
    requires RingHolds(r, ts)
    ensures Recent(r) == LastUpTo(ts, RING)
  {
    var first := Max(0, |ts| - RING);
    var recent, last := Recent(r), LastUpTo(ts, RING);
    forall i | 0 <= i < |recent|
      ensures recent[i] == last[i]
    {
      RingIndex(|ts|, i);
      assert r.slots[(first + i) % RING] == ts[first + i];
    }
  }

  /** Where the i-th oldest of n arrivals is stored. */
  lemma RingIndex(n: nat, i: nat)
    requires i < Min(n, RING)
    ensures (Max(0, n - RING) + i) % RING == ((if Min(n, RING) < RING then 0 else n % RING) + i) % RING
  {
  }

  /** The rate is intervals over elapsed time of the last 64 clamped arrivals, and the unsigned
      subtraction behind it never wraps. */
  lemma RateIsHonest(s: SensorSource, log: seq<Event>)
    ensures var ts := LastUpTo(Clamped(log), RING);
            var k := |ts|;
            && (k >= 2 ==> ts[0] <= ts[k - 1])
            && CurrentRate(StateOf(s, log).ring)
               == (if k < 2 || ts[k - 1] == ts[0] then 0.0
                   else (k - 1) as real * 1_000_000_000.0 / (ts[k - 1] - ts[0]) as real)
  {
    RingFollows(s, log);
    RingIsRecent(s, log);
    hide StateOf, Clamped, Recent, CurrentRate, LastUpTo;
    RateOfRecent(StateOf(s, log).ring, |Clamped(log)|);
  }

  lemma RateOfRecent(r: Ring, n: nat)
    requires WellFormed(r) && r.count == Min(n, RING) && r.next == n % RING
    requires NonDecreasing(Recent(r))
    ensures var ts := Recent(r);
            var k := |ts|;
            && (k >= 2 ==> ts[0] <= ts[k - 1])
            && CurrentRate(r) == (if k < 2 || ts[k - 1] == ts[0] then 0.0
                                  else (k - 1) as real * 1_000_000_000.0 / (ts[k - 1] - ts[0]) as real)
  {
    if r.count >= 2 {
      hide Recent, Min;
      RecentEnds(r, n);
      var recent, last := Recent(r), r.count - 1;
      assert recent[0] <= recent[last];
      SmallMod(recent[last] - recent[0], TWO_64);
    }
  }

  /** Where the oldest and the newest arrival are stored. */
  lemma RecentEnds(r: Ring, n: nat)
    requires WellFormed(r) && 2 <= r.count == Min(n, RING) && r.next == n % RING
    ensures Recent(r)[0] == r.slots[if r.count < RING then 0 else r.next]
    ensures Recent(r)[r.count - 1] == r.slots[(r.next + RING - 1) % RING]
  {
    NewestIndex(n);
  }

  lemma NewestIndex(n: nat)
    requires n >= 1
    ensures var count := Min(n, RING);
            (n % RING + RING - 1) % RING == ((if count < RING then 0 else n % RING) + (count - 1)) % RING
  {
  }

  /* ----- the status ----- */

  /** The status as a function of the whole history. */
  function StatusOf(cfg: Config, log: seq<Event>, now: uint64): HealthStatus {
    var silent := ElapsedOrZero(now, LatestArrival(log));
    if silent >= cfg.offlineAfter then Offline
    else if silent >= cfg.degradedAfter then Degraded
    else if EverTroubled(log)
            && (ElapsedOrZero(now, LatestTrouble(log)) < cfg.recoveryAfter
                || CleanSince(log) < cfg.healthyAfterPackets) then Degraded
    else if Arrivals(log) < cfg.healthyAfterPackets then Unknown
    else Healthy
  }

  /** The lazily evaluated status is the status of the history; the capped counters do not blur it. */
  lemma StatusRefines(cfg: Config, s: SensorSource, log: seq<Event>, now: uint64)
    requires Tracked(log)
    ensures EvaluateStatus(cfg, StateOf(s, log), now) == StatusOf(cfg, log, now)
  {
    StateSummarizes(s, log);
  }

  /** The four statuses as windows of time after the latest arrival and the latest trouble. */
  lemma StatusExactly(cfg: Config, log: seq<Event>, now: uint64)
    requires cfg.Valid()
    ensures var status, silentAt, offlineAt := StatusOf(cfg, log, now), LatestArrival(log) + cfg.degradedAfter,
              LatestArrival(log) + cfg.offlineAfter;
            var recovering := EverTroubled(log) && (now < LatestTrouble(log) + cfg.recoveryAfter
                                                    || CleanSince(log) < cfg.healthyAfterPackets);
            && (status == Offline <==> offlineAt <= now)
            && (status == Degraded <==> silentAt <= now < offlineAt || (now < silentAt && recovering))
            && (status == Unknown <==> now < silentAt && !recovering && Arrivals(log) < cfg.healthyAfterPackets)
            && (status == Healthy <==> now < silentAt && !recovering && Arrivals(log) >= cfg.healthyAfterPackets)
  {
  }

  lemma {:induction false} CleanAtMostArrivals(log: seq<Event>)
    ensures CleanSince(log) <= Arrivals(log)
  {
    if log != [] {
      CleanAtMostArrivals(log[..|log| - 1]);
    }
  }

  lemma {:induction false} TroubleAndArrivalsStay(log: seq<Event>, later: seq<Event>)
    ensures EverTroubled(log) ==> EverTroubled(log + later)
    ensures Arrivals(log) <= Arrivals(log + later)
  {
    if later == [] {
      assert log + later == log;
    } else {
      assert (log + later)[..|log + later| - 1] == log + later[..|later| - 1];
      TroubleAndArrivalsStay(log, later[..|later| - 1]);
    }
  }

  /** After any trouble, or after enough packets, a source is never UNKNOWN again. */
  lemma NeverUnknownAgain(cfg: Config, log: seq<Event>, later: seq<Event>, now: uint64)
    requires EverTroubled(log) || Arrivals(log) >= cfg.healthyAfterPackets
    ensures StatusOf(cfg, log + later, now) != Unknown
  {
    TroubleAndArrivalsStay(log, later);
    CleanAtMostArrivals(log + later);
  }

  /** UNKNOWN at some moment means exactly: no trouble so far, and too few packets. */
  lemma UnknownExactlyWhen(cfg: Config, log: seq<Event>)
    requires cfg.Valid()
    ensures (exists now: uint64 :: StatusOf(cfg, log, now) == Unknown)
            <==> !EverTroubled(log) && Arrivals(log) < cfg.healthyAfterPackets
  {
    CleanAtMostArrivals(log);
    assert StatusOf(cfg, log, 0) == Unknown <==> !EverTroubled(log) && Arrivals(log) < cfg.healthyAfterPackets;
  }

  /** Recovering, settled, silent, offline. */
  function Stage(cfg: Config, st: SourceState, now: uint64): nat {
    var silent := ElapsedOrZero(now, st.lastReceive);
    if silent >= cfg.offlineAfter then 3
    else if silent >= cfg.degradedAfter then 2
    else if st.trouble.seen && (ElapsedOrZero(now, st.trouble.last) < cfg.recoveryAfter
                             || st.trouble.healthySince < cfg.healthyAfterPackets) then 0
    else 1
  }

  function Settled(cfg: Config, st: SourceState): HealthStatus {
    if st.packets < cfg.healthyAfterPackets then Unknown else Healthy
  }

  /** While nothing arrives, time only moves a source forward through: recovering (DEGRADED), settled
      (always the same one of HEALTHY and UNKNOWN), silent (DEGRADED), OFFLINE. */
  lemma StatusOverTime(cfg: Config, st: SourceState, now: uint64, later: uint64)
    requires cfg.Valid() && now <= later
    ensures Stage(cfg, st, now) <= Stage(cfg, st, later) <= 3
    ensures EvaluateStatus(cfg, st, now)
         == [Degraded, Settled(cfg, st), Degraded, Offline][Stage(cfg, st, now)]
    ensures EvaluateStatus(cfg, st, now) == Offline ==> EvaluateStatus(cfg, st, later) == Offline
  {
  }
}
