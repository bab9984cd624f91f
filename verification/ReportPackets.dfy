/** The monitor's report read against the packets themselves. */
module ReportPackets {
  import opened Words
  import opened Types
  import opened Tracker
  import opened Health
  import opened Monitor
  import opened MonitorReport

  /** The packet came from this sender, on this listener, with this type of message. */
  predicate From(p: ReceivedPacket, s: SensorSource) {
    p.source == s.remote && p.listener == s.listener && p.packet.header.messageType == s.messageType
  }

  function PacketsFrom(calls: seq<Call>, s: SensorSource): seq<ReceivedPacket> {
    if calls == [] then []
    else
      var before, c := PacketsFrom(calls[..|calls| - 1], s), calls[|calls| - 1];
      if c.PacketCall? && From(c.packet, s) then before + [c.packet] else before
  }

  /** The source's clock was behind the receiver's, or equal. */
  predicate InTime(p: ReceivedPacket) {
    p.packet.header.sourceTimestamp <= p.receiveTimestamp
  }

  function CountAhead(ps: seq<ReceivedPacket>): nat {
    if ps == [] then 0 else CountAhead(ps[..|ps| - 1]) + (if InTime(ps[|ps| - 1]) then 0 else 1)
  }

  /** The latest receive time. */
  ghost predicate IsLatest(ps: seq<ReceivedPacket>, time: uint64) {
    && (forall i :: 0 <= i < |ps| ==> ps[i].receiveTimestamp <= time)
    && (ps == [] || exists i :: 0 <= i < |ps| && ps[i].receiveTimestamp == time)
  }

  /** The longest travel of the packets in time; zero if there is none. */
  ghost predicate IsLongest(ps: seq<ReceivedPacket>, travel: uint64) {
    && (forall i :: 0 <= i < |ps| && InTime(ps[i]) ==> ps[i].receiveTimestamp - ps[i].packet.header.sourceTimestamp <= travel)
    && (travel == 0 || exists i :: 0 <= i < |ps| && InTime(ps[i])
                                   && ps[i].receiveTimestamp - ps[i].packet.header.sourceTimestamp == travel)
  }

  /** A history's arrivals are these packets, with their times. */
  ghost predicate MadeOf(log: seq<Event>, ps: seq<ReceivedPacket>) {
    && |ArrivalEvents(log)| == |ps|
    && forall i :: 0 <= i < |ps| ==>
         && ArrivalEvents(log)[i].received == ps[i].receiveTimestamp
         && ArrivalEvents(log)[i].sent == ps[i].packet.header.sourceTimestamp
  }

  function ArrivalEvents(log: seq<Event>): (es: seq<Event>)
    ensures forall i :: 0 <= i < |es| ==> es[i].Arrived?
  {
    if log == [] then []
    else if log[|log| - 1].Arrived? then ArrivalEvents(log[..|log| - 1]) + [log[|log| - 1]]
    else ArrivalEvents(log[..|log| - 1])
  }

  lemma {:induction false} LogArrived(calls: seq<Call>, s: SensorSource)
    ensures MadeOf(LogOf(calls, s), PacketsFrom(calls, s))
  {
    hide LastObservation, Seen;
    if calls != [] {
      var before, c := calls[..|calls| - 1], calls[|calls| - 1];
      LogArrived(before, s);
      var log := LogOf(before, s);
      if LogOf(calls, s) != log {
        assert LogOf(calls, s)[..|log|] == log;
      }
    }
  }

  /** And its issues are those reported about packets of the source, each at its packet's receive time. */
  lemma {:induction false} LogIssues(calls: seq<Call>, s: SensorSource, e: Event)
    requires e.Issue? && e in LogOf(calls, s)
    ensures exists i :: 0 <= i < |calls| && calls[i].IssueCall? && From(calls[i].packet, s)
                        && e == Issue(calls[i].kind, calls[i].packet.receiveTimestamp)
  {
    hide LastObservation, Seen;
    var before, c := calls[..|calls| - 1], calls[|calls| - 1];
    if e in LogOf(before, s) {
      LogIssues(before, s, e);
      var i :| 0 <= i < |before| && before[i].IssueCall? && From(before[i].packet, s)
               && e == Issue(before[i].kind, before[i].packet.receiveTimestamp);
      assert calls[i] == before[i];
    } else {
      assert calls[|before|] == c;
    }
  }

  /** What depends on the arrivals alone. */
  lemma {:induction false} ArrivalsTell(log: seq<Event>)
    ensures var es := ArrivalEvents(log);
            && Arrivals(log) == |es|
            && (es != [] ==> Clamped(log)[0] == es[0].received)
            && LastArrived(log) == if es == [] then None else Some(es[|es| - 1])
  {
    if log != [] {
      ArrivalsTell(log[..|log| - 1]);
      if ArrivalEvents(log[..|log| - 1]) == [] {
        LatestTells(log[..|log| - 1]);
      }
    }
  }

  ghost predicate LatestOf(es: seq<Event>, time: uint64)
    requires forall i :: 0 <= i < |es| ==> es[i].Arrived?
  {
    && (forall i :: 0 <= i < |es| ==> es[i].received <= time)
    && (if es == [] then time == 0 else exists i :: 0 <= i < |es| && es[i].received == time)
  }

  lemma {:induction false} LatestTells(log: seq<Event>)
    ensures LatestOf(ArrivalEvents(log), LatestArrival(log))
  {
    if log != [] {
      var before, e := log[..|log| - 1], log[|log| - 1];
      LatestTells(before);
      if e.Arrived? {
        LatestStep(ArrivalEvents(before), LatestArrival(before), e);
      }
    }
  }

  lemma LatestStep(es: seq<Event>, time: uint64, e: Event)
    requires forall i :: 0 <= i < |es| ==> es[i].Arrived?
    requires e.Arrived? && LatestOf(es, time)
    ensures LatestOf(es + [e], Max(time, e.received))
  {
    var all := es + [e];
    assert all[|es|] == e;
    if es != [] && e.received < time {
      var i :| 0 <= i < |es| && es[i].received == time;
      assert all[i] == es[i];
    }
  }

  lemma {:induction false} ArrivesFrom(log: seq<Event>)
    ensures forall e :: e in ArrivalEvents(log) <==> e in log && e.Arrived?
  {
    if log != [] {
      ArrivesFrom(log[..|log| - 1]);
      assert log == log[..|log| - 1] + [log[|log| - 1]];
    }
  }

  lemma {:induction false} AnomaliesAhead(log: seq<Event>, ps: seq<ReceivedPacket>)
    requires MadeOf(log, ps)
    ensures Health.Count(log, IS_ANOMALY) == CountAhead(ps)
    decreases |log|
  {
    if log != [] {
      var before, e := log[..|log| - 1], log[|log| - 1];
      if e.Arrived? {
        AnomaliesAhead(before, ps[..|ps| - 1]);
      } else {
        AnomaliesAhead(before, ps);
      }
    }
  }

  lemma LongestTravel(log: seq<Event>, ps: seq<ReceivedPacket>, travel: uint64)
    requires MadeOf(log, ps) && IsMaximum(log, travel)
    ensures IsLongest(ps, travel)
  {
    ArrivesFrom(log);
    var es := ArrivalEvents(log);
    hide ArrivalEvents;
    forall i | 0 <= i < |ps| && InTime(ps[i])
      ensures ps[i].receiveTimestamp - ps[i].packet.header.sourceTimestamp <= travel
    {
      assert es[i] in log && Timely(es[i]);
    }
    if travel != 0 {
      var i :| 0 <= i < |log| && Timely(log[i]) && log[i].received - log[i].sent == travel;
      assert log[i] in es;
      var j :| 0 <= j < |es| && es[j] == log[i];
      assert InTime(ps[j]);
    }
  }

  /** A snapshot in terms of the packets of its sender, listener and type: their number, the first and
      the latest receive time, the travel time of the last packet and the longest one, and how often the
      source's clock was ahead. */
  lemma SnapshotPackets(cfg: Config, calls: seq<Call>, now: uint64, k: nat)
    requires k < |ReportOf(cfg, Monitor.Run(cfg.maxSources, calls), now).sources|
    ensures var shot := ReportOf(cfg, Monitor.Run(cfg.maxSources, calls), now).sources[k];
            var ps := PacketsFrom(calls, shot.source);
            && ps != [] && shot.packets == Min(|ps|, MAX_64)
            && shot.firstReceive == ps[0].receiveTimestamp
            && IsLatest(ps, shot.lastReceive)
            && shot.inactivity == (if now >= shot.lastReceive then now - shot.lastReceive else 0)
            && shot.latency.latest == Travel(ps[|ps| - 1])
            && IsLongest(ps, shot.latency.maximum)
            && shot.counters.anomalies == Min(CountAhead(ps), MAX_64)
  {
    var shot := ReportOf(cfg, Monitor.Run(cfg.maxSources, calls), now).sources[k];
    hide *;
    ReportTellsHistories(cfg, calls, now, k);
    var log, ps := LogOf(calls, shot.source), PacketsFrom(calls, shot.source);
    LogArrived(calls, shot.source);
    TellsPackets(cfg, shot, log, ps, now);
  }

  function Travel(p: ReceivedPacket): uint64 {
    if InTime(p) then p.receiveTimestamp - p.packet.header.sourceTimestamp else 0
  }

  lemma TellsPackets(cfg: Config, shot: Snapshot, log: seq<Event>, ps: seq<ReceivedPacket>, now: uint64)
    requires Tells(cfg, shot, log, now) && MadeOf(log, ps)
    ensures ps != [] && shot.packets == Min(|ps|, MAX_64)
    ensures shot.firstReceive == ps[0].receiveTimestamp
    ensures IsLatest(ps, shot.lastReceive)
    ensures shot.inactivity == if now >= shot.lastReceive then now - shot.lastReceive else 0
    ensures shot.latency.latest == Travel(ps[|ps| - 1])
    ensures IsLongest(ps, shot.latency.maximum)
    ensures shot.counters.anomalies == Min(CountAhead(ps), MAX_64)
  {
    ArrivalsTell(log);
    LatestTells(log);
    AnomaliesAhead(log, ps);
    LongestTravel(log, ps, shot.latency.maximum);
    hide ArrivalEvents, LatestArrival, LastArrived, LastUpTo, Clamped, Arrivals, StatusOf, IsMaximum, IsLongest, CountAhead,
      Health.Count, MissingIn;
    var i :| 0 <= i < |ps| && ArrivalEvents(log)[i].received == LatestArrival(log);
    assert ps[i].receiveTimestamp == shot.lastReceive;
  }
}
