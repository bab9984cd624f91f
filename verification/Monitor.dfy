/** SourceHealthMonitor: the sequence tracker and one health record per tracked source, in step. */
module Monitor {
  import opened Words
  import opened Types
  import opened Tracker
  import opened TrackerRuns
  import opened Health

  /** The state behind the monitor's mutex. */
  datatype MonitorState = MonitorState(tracker: Tracker.State, sources: seq<SourceState>)

  const NOTHING := MonitorState(EMPTY, [])

  ghost predicate WellFormedAll(sources: seq<SourceState>) {
    forall i :: 0 <= i < |sources| ==> WellFormed(sources[i].ring)
  }

  /** The index of the first record of the source, or the number of records. */
  function FindRecord(sources: seq<SourceState>, s: SensorSource): (i: nat)
    ensures i <= |sources|
    ensures i < |sources| ==> sources[i].source == s
    ensures forall k :: 0 <= k < i ==> sources[k].source != s
  {
    if sources == [] || sources[0].source == s then 0
    else
      var i := FindRecord(sources[1..], s);
      assert forall k :: 0 < k < i + 1 ==> sources[k] == sources[1..][k - 1];
      i + 1
  }

  /** The event a packet is to its source, given the tracker's answer. */
  function ArrivedEvent(p: ReceivedPacket, o: Observation): Event {
    Arrived(p.receiveTimestamp, p.packet.header.sourceTimestamp, o.status, o.missing)
  }

  /** The records with event e applied to the one of source s, which is made if there is none. */
  function Recorded(sources: seq<SourceState>, s: SensorSource, e: Event): seq<SourceState>
    requires WellFormedAll(sources)
  {
    var i := FindRecord(sources, s);
    var all := if i == |sources| then sources + [NewSource(s)] else sources;
    all[i := Apply(all[i], e)]
  }

  /** `observe_packet` as a function of the state before. */
  function AfterPacket(max: nat, m: MonitorState, p: ReceivedPacket): (MonitorState, Observation)
    requires WellFormedAll(m.sources)
  {
    var (tracker, o) := Next(max, m.tracker, ArrivalOf(p));
    var s := IdentifySource(p);
    if o.status == Untracked then (MonitorState(tracker, m.sources), o)
    else (MonitorState(tracker, Recorded(m.sources, s, ArrivedEvent(p, o))), o)
  }

  /** `observe_issue` as a function of the state before. */
  function AfterIssue(m: MonitorState, p: ReceivedPacket, kind: IssueKind): MonitorState
    requires WellFormedAll(m.sources)
  {
    var i := FindRecord(m.sources, IdentifySource(p));
    if i == |m.sources| then m
    else m.(sources := m.sources[i := Apply(m.sources[i], Issue(kind, p.receiveTimestamp))])
  }

  /* ----- any sequence of calls ----- */

  datatype Call = PacketCall(packet: ReceivedPacket) | IssueCall(packet: ReceivedPacket, kind: IssueKind)

  function AfterCall(max: nat, m: MonitorState, c: Call): (m': MonitorState)
    requires WellFormedAll(m.sources)
    ensures WellFormedAll(m'.sources)
  {
    match c
    case PacketCall(p) => AfterPacket(max, m, p).0
    case IssueCall(p, kind) => AfterIssue(m, p, kind)
  }

  function Run(max: nat, calls: seq<Call>): (m: MonitorState)
    ensures WellFormedAll(m.sources)
  {
    if calls == [] then NOTHING else AfterCall(max, Run(max, calls[..|calls| - 1]), calls[|calls| - 1])
  }

  /** What the tracker saw of the calls. */
  function Seen(calls: seq<Call>): seq<Arrival> {
    if calls == [] then []
    else
      var before, c := Seen(calls[..|calls| - 1]), calls[|calls| - 1];
      if c.PacketCall? then before + [ArrivalOf(c.packet)] else before
  }

  /** The history of one source, read off the calls about that source alone: its packets, each with
      the answer of a tracker that knows only this source, and the issues after its first packet. */
  function LogOf(calls: seq<Call>, s: SensorSource): seq<Event> {
    if calls == [] then []
    else
      var before, c := LogOf(calls[..|calls| - 1], s), calls[|calls| - 1];
      if IdentifySource(c.packet) != s then before
      else
        match c
        case PacketCall(p) =>
          SeenNumbers(calls);
          before + [ArrivedEvent(p, LastObservation(Numbers(Seen(calls), s)))]
        case IssueCall(p, kind) =>
          if before == [] then [] else before + [Issue(kind, p.receiveTimestamp)]
  }

  lemma SeenNumbers(calls: seq<Call>)
    requires calls != [] && calls[|calls| - 1].PacketCall?
    ensures Numbers(Seen(calls), IdentifySource(calls[|calls| - 1].packet)) != []
  {
  }

  /** The calls about one source. */
  function CallsOf(calls: seq<Call>, s: SensorSource): seq<Call> {
    if calls == [] then []
    else
      var before, c := CallsOf(calls[..|calls| - 1], s), calls[|calls| - 1];
      if IdentifySource(c.packet) == s then before + [c] else before
  }

  /** A source has a history exactly when one of its packets was seen. */
  lemma {:induction false} LogBegins(calls: seq<Call>, s: SensorSource)
    ensures LogOf(calls, s) == [] <==> Numbers(Seen(calls), s) == []
  {
    if calls != [] {
      LogBegins(calls[..|calls| - 1], s);
    }
  }

  /** No event of a log is untracked, so the branch of `record_packet` for that status is dead. */
  lemma {:induction false} LogTracked(calls: seq<Call>, s: SensorSource)
    ensures Tracked(LogOf(calls, s))
  {
    if calls != [] {
      LogTracked(calls[..|calls| - 1], s);
      if calls[|calls| - 1].PacketCall? && IdentifySource(calls[|calls| - 1].packet) == s {
        SeenNumbers(calls);
        NeverUntracked(Numbers(Seen(calls), s));
      }
    }
  }

  lemma NeverUntracked(ns: seq<uint64>)
    requires ns != []
    ensures LastObservation(ns).status != Untracked
  {
  }

  /** The tables of the tracker and of the monitor hold the same sources in the same order, and each
      record is what its source's own history makes of it. */
  ghost predicate Mirrored(max: nat, calls: seq<Call>, m: MonitorState) {
    var admitted := Admitted(max, Seen(calls));
    && m.tracker == TrackerRuns.Run(max, Seen(calls))
    && |m.sources| == |admitted|
    && forall i :: 0 <= i < |admitted| ==> m.sources[i] == StateOf(admitted[i], LogOf(calls, admitted[i]))
  }

  lemma FindAdmitted(admitted: seq<SensorSource>, sources: seq<SourceState>, s: SensorSource)
    requires |sources| == |admitted| && forall i :: 0 <= i < |admitted| ==> sources[i].source == admitted[i]
    ensures FindRecord(sources, s) < |sources| <==> s in admitted
  {
    var i := FindRecord(sources, s);
    if i == |sources| {
      forall k | 0 <= k < |admitted|
        ensures admitted[k] != s
      {
        assert sources[k].source != s;
      }
    } else {
      assert admitted[i] == s;
    }
  }

  lemma StateExtends(s: SensorSource, log: seq<Event>, e: Event)
    ensures StateOf(s, log + [e]) == Apply(StateOf(s, log), e)
    ensures StateOf(s, []) == NewSource(s)
  {
    assert (log + [e])[..|log|] == log;
  }

  /** What a packet call adds to the trackers' view, to the admitted sources and to the logs. */
  lemma PacketEffect(max: nat, before: seq<Call>, p: ReceivedPacket)
    ensures var calls, s := before + [PacketCall(p)], IdentifySource(p);
            var (tracker, o) := Next(max, TrackerRuns.Run(max, Seen(before)), ArrivalOf(p));
            var admitted, admitted' := Admitted(max, Seen(before)), Admitted(max, Seen(calls));
            && tracker == TrackerRuns.Run(max, Seen(calls))
            && (o.status == Untracked <==> s !in admitted')
            && admitted' == (if s in admitted || |admitted| >= max then admitted else admitted + [s])
            && (s in admitted' ==> LogOf(calls, s) == LogOf(before, s) + [ArrivedEvent(p, o)])
            && (s in admitted' && s !in admitted ==> LogOf(before, s) == [])
            && forall t :: t != s ==> LogOf(calls, t) == LogOf(before, t)
  {
    var calls, s := before + [PacketCall(p)], IdentifySource(p);
    assert calls[..|before|] == before;
    var seen, seen' := Seen(before), Seen(calls);
    assert seen' == seen + [ArrivalOf(p)];
    assert seen'[..|seen|] == seen;
    var o := Next(max, TrackerRuns.Run(max, seen), ArrivalOf(p)).1;
    assert o == Observations(max, seen')[|seen|];
    hide Next, StreamPerSource;
    Streams(max, seen');
    AdmittedTable(max, seen);
    LogBegins(before, s);
    SeenNumbers(calls);
    NeverUntracked(Numbers(seen', s));
  }

  lemma RecordedEffect(sources: seq<SourceState>, admitted: seq<SensorSource>, s: SensorSource, e: Event)
    requires WellFormedAll(sources) && Distinct(admitted)
    requires |sources| == |admitted| && forall i :: 0 <= i < |admitted| ==> sources[i].source == admitted[i]
    ensures var r := Recorded(sources, s, e);
            var admitted' := if s in admitted then admitted else admitted + [s];
            && |r| == |admitted'|
            && forall k :: 0 <= k < |r| ==>
                 if admitted'[k] == s
                 then r[k] == Apply(if k < |sources| then sources[k] else NewSource(s), e)
                 else k < |sources| && r[k] == sources[k]
  {
    hide Apply, NewSource;
    FindAdmitted(admitted, sources, s);
  }

  lemma PacketStep(max: nat, before: seq<Call>, p: ReceivedPacket, m: MonitorState)
    requires WellFormedAll(m.sources) && Mirrored(max, before, m)
    ensures Mirrored(max, before + [PacketCall(p)], AfterPacket(max, m, p).0)
  {
    hide Next, Apply, StateOf, Admitted, LogOf, Seen, TrackerRuns.Run, Recorded, NewSource, ArrivedEvent, FindRecord,
      WellFormedAll, IdentifySource, ArrivalOf, WellFormed;
    var calls, s := before + [PacketCall(p)], IdentifySource(p);
    var admitted, admitted' := Admitted(max, Seen(before)), Admitted(max, Seen(calls));
    var e := ArrivedEvent(p, Next(max, m.tracker, ArrivalOf(p)).1);
    assert Distinct(admitted) by {
      AdmittedTable(max, Seen(before));
    }
    PacketEffect(max, before, p);
    if s in admitted' {
      RecordedEffect(m.sources, admitted, s, e);
      StateExtends(s, LogOf(before, s), e);
      var sources' := Recorded(m.sources, s, e);
      forall k | 0 <= k < |admitted'|
        ensures sources'[k] == StateOf(admitted'[k], LogOf(calls, admitted'[k]))
      {
        if admitted'[k] == s {
          assert k < |admitted| ==> admitted[k] == s && s in admitted;
        }
      }
    }
  }

  lemma IssueStep(max: nat, before: seq<Call>, p: ReceivedPacket, kind: IssueKind, m: MonitorState)
    requires WellFormedAll(m.sources) && Mirrored(max, before, m)
    ensures Mirrored(max, before + [IssueCall(p, kind)], AfterIssue(m, p, kind))
  {
    var calls, s := before + [IssueCall(p, kind)], IdentifySource(p);
    assert calls[..|before|] == before;
    AdmittedTable(max, Seen(before));
    FindAdmitted(Admitted(max, Seen(before)), m.sources, s);
    LogBegins(before, s);
    StateExtends(s, LogOf(before, s), Issue(kind, p.receiveTimestamp));
    hide Numbers, Apply, StateOf;
  }

  /** After any mix of packets and issues, of any sources, in any order. */
  lemma {:induction false} MonitorRefinesLogs(max: nat, calls: seq<Call>)
    ensures Mirrored(max, calls, Run(max, calls))
  {
    if calls == [] {
    } else {
      hide Mirrored, AfterPacket, AfterIssue;
      var before, c := calls[..|calls| - 1], calls[|calls| - 1];
      MonitorRefinesLogs(max, before);
      assert calls == before + [c];
      match c
      case PacketCall(p) => PacketStep(max, before, p, Run(max, before));
      case IssueCall(p, kind) => IssueStep(max, before, p, kind, Run(max, before));
    }
  }

  /* ----- the monitor as the source updates it ----- */

  class SourceHealthMonitor {
    const config: Config
    const tracker: SensorStreamTracker
    var sources: seq<SourceState>

    ghost predicate Valid()
      reads this
    {
      config.Valid() && tracker.maxSources == config.maxSources && WellFormedAll(sources)
    }

    ghost function View(): MonitorState
      reads this, tracker
    {
      MonitorState(tracker.View(), sources)
    }

    constructor (config: Config)
      requires config.Valid()
      ensures this.config == config && Valid() && fresh(tracker) && View() == NOTHING
    {
      this.config := config;
      tracker := new SensorStreamTracker(config.maxSources);
      sources := [];
    }

    method FindSource(source: SensorSource) returns (i: nat)
      ensures i == FindRecord(sources, source)
    {
      i := 0;
      while i < |sources| && sources[i].source != source
        invariant i <= |sources|
        invariant forall k :: 0 <= k < i ==> sources[k].source != source
      {
        i := i + 1;
      }
    }

    method ObservePacket(packet: ReceivedPacket) returns (o: Observation)
      requires Valid()
      modifies this, tracker
      ensures Valid()
      ensures (View(), o) == AfterPacket(config.maxSources, old(View()), packet)
    {
      o := tracker.Observe(packet);
      if o.status == Untracked {
        return;
      }
      var source := IdentifySource(packet);
      var i := FindSource(source);
      if i == |sources| {
        sources := sources + [NewSource(source)];
      }
      var state := Record(sources[i], packet, o);
      sources := sources[i := state];
    }

    /** `record_packet`, assignment by assignment. */
    static method Record(before: SourceState, packet: ReceivedPacket, o: Observation) returns (state: SourceState)
      requires WellFormed(before.ring) && o.status != Untracked
      ensures state == Apply(before, ArrivedEvent(packet, o))
    {
      state := before;
      var received, sent := packet.receiveTimestamp, packet.packet.header.sourceTimestamp;
      var time := if received < state.lastReceive then state.lastReceive else received;
      if state.packets == 0 {
        state := state.(firstReceive := time);
      }
      state := state.(lastReceive := time);
      state := state.(packets := Increment(state.packets));
      state := state.(ring := RecordTimestamp(state.ring, time));
      var troubled := sent > received;
      if troubled {
        state := state.(latency := state.latency.(latest := 0),
                        counters := state.counters.(anomalies := Increment(state.counters.anomalies)));
      } else {
        state := state.(latency := Latency(received - sent, Max(state.latency.maximum, received - sent)));
      }
      if o.status == Gap {
        state := state.(counters := state.counters.(
                          gaps := Increment(state.counters.gaps),
                          missing := SaturatingAdd(state.counters.missing, o.missing)));
        troubled := true;
      } else if o.status == Duplicate {
        state := state.(counters := state.counters.(duplicates := Increment(state.counters.duplicates)));
        troubled := true;
      } else if o.status == Reordered {
        state := state.(counters := state.counters.(reordered := Increment(state.counters.reordered)));
        troubled := true;
      }
      if troubled {
        state := state.(trouble := MarkIssue(state.trouble, time));
      } else {
        state := state.(trouble := state.trouble.(healthySince := Increment(state.trouble.healthySince)));
      }
    }

    method ObserveIssue(packet: ReceivedPacket, kind: IssueKind)
      requires Valid()
      modifies this
      ensures Valid()
      ensures View() == AfterIssue(old(View()), packet, kind)
    {
      var i := FindSource(IdentifySource(packet));
      if i == |sources| {
        return;
      }
      var state := sources[i];
      if kind == PayloadRejected {
        state := state.(counters := state.counters.(payloadsRejected := Increment(state.counters.payloadsRejected)));
      } else {
        state := state.(counters := state.counters.(queueDropped := Increment(state.counters.queueDropped)));
      }
      sources := sources[i := state.(trouble := MarkIssue(state.trouble, packet.receiveTimestamp))];
    }
  }
}
