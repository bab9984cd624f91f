/** What every sequence of calls on the health monitor guarantees. */
module MonitorRuns {
  import opened Words
  import opened Tracker
  import opened TrackerRuns
  import opened Health
  import opened Monitor
  import opened Arrangements

  /** The two tables never drift apart: the same distinct sources, in the same order, within the limit. */
  lemma {:induction false} TwinTables(max: nat, calls: seq<Call>)
    ensures var m := Monitor.Run(max, calls);
            && |m.sources| == |m.tracker.entries| <= max
            && (forall i :: 0 <= i < |m.sources| ==> m.sources[i].source == m.tracker.entries[i].source)
            && (forall i, j :: 0 <= i < j < |m.sources| ==> m.sources[i].source != m.sources[j].source)
  {
    MonitorRefinesLogs(max, calls);
    Streams(max, Seen(calls));
    AdmittedTable(max, Seen(calls));
  }

  /** The status of every record is the status of its source's own history. */
  lemma MonitorStatus(cfg: Config, calls: seq<Call>, i: nat, now: uint64)
    requires i < |Monitor.Run(cfg.maxSources, calls).sources|
    ensures var st := Monitor.Run(cfg.maxSources, calls).sources[i];
            EvaluateStatus(cfg, st, now) == StatusOf(cfg, LogOf(calls, st.source), now)
  {
    MonitorRefinesLogs(cfg.maxSources, calls);
    var s := Admitted(cfg.maxSources, Seen(calls))[i];
    LogTracked(calls, s);
    hide EvaluateStatus, StatusOf;
    StatusRefines(cfg, s, LogOf(calls, s), now);
  }

  lemma {:induction false} OwnNumbers(calls: seq<Call>, s: SensorSource)
    ensures Numbers(Seen(CallsOf(calls, s)), s) == Numbers(Seen(calls), s)
  {
    if calls != [] {
      var before, c := calls[..|calls| - 1], calls[|calls| - 1];
      OwnNumbers(before, s);
      if IdentifySource(c.packet) == s {
        SeenSnoc(CallsOf(before, s), c);
      }
      SeenSnoc(before, c);
      assert calls == before + [c];
    }
  }

  lemma SeenSnoc(calls: seq<Call>, c: Call)
    ensures Seen(calls + [c]) == Seen(calls) + (if c.PacketCall? then [ArrivalOf(c.packet)] else [])
    ensures forall s :: Numbers(Seen(calls + [c]), s)
                     == Numbers(Seen(calls), s)
                        + (if c.PacketCall? && IdentifySource(c.packet) == s
                           then [c.packet.packet.header.sequenceNumber] else [])
  {
    assert (calls + [c])[..|calls|] == calls;
    var seen := Seen(calls);
    if c.PacketCall? {
      assert (seen + [ArrivalOf(c.packet)])[..|seen|] == seen;
    }
  }

  /** Non-interference: the history of a source, and so its record, its status and its counters, are
      the ones it would have if the monitor were called about no other source. */
  lemma {:induction false} OwnLog(calls: seq<Call>, s: SensorSource)
    ensures LogOf(CallsOf(calls, s), s) == LogOf(calls, s)
  {
    if calls != [] {
      var before, c := calls[..|calls| - 1], calls[|calls| - 1];
      OwnLog(before, s);
      if IdentifySource(c.packet) == s {
        var own := CallsOf(before, s);
        OwnNumbers(calls, s);
        assert CallsOf(calls, s) == own + [c];
        assert (own + [c])[..|own|] == own;
      }
    }
  }

  /* ----- the order of issues does not matter, except for the count of clean packets ----- */

  /** A record without the one field that depends on when the workers report. */
  function Core(st: SourceState): SourceState {
    st.(trouble := st.trouble.(healthySince := 0))
  }

  lemma CoreApply(a: SourceState, b: SourceState, e: Event)
    requires WellFormed(a.ring) && WellFormed(b.ring) && Core(a) == Core(b)
    ensures Core(Apply(a, e)) == Core(Apply(b, e))
  {
  }

  /** An issue may be reported before or after any tracked event. */
  lemma IssueCommutes(st: SourceState, issue: Event, e: Event)
    requires WellFormed(st.ring) && issue.Issue? && !(e.Arrived? && e.status == Untracked)
    ensures Core(Apply(Apply(st, issue), e)) == Core(Apply(Apply(st, e), issue))
  {
  }

  function ApplyAll(st: SourceState, log: seq<Event>): (st': SourceState)
    requires WellFormed(st.ring)
    ensures WellFormed(st'.ring)
  {
    if log == [] then st else Apply(ApplyAll(st, log[..|log| - 1]), log[|log| - 1])
  }

  function Packets(log: seq<Event>): seq<Event> {
    if log == [] then []
    else
      var before, e := Packets(log[..|log| - 1]), log[|log| - 1];
      if e.Arrived? then before + [e] else before
  }

  function Issues(log: seq<Event>): (issues: seq<Event>)
    ensures forall i :: 0 <= i < |issues| ==> issues[i].Issue?
  {
    if log == [] then []
    else
      var before, e := Issues(log[..|log| - 1]), log[|log| - 1];
      if e.Issue? then before + [e] else before
  }

  ghost predicate AllIssues(issues: seq<Event>) {
    forall i :: 0 <= i < |issues| ==> issues[i].Issue?
  }

  lemma ApplyAllSnoc(st: SourceState, log: seq<Event>, e: Event)
    requires WellFormed(st.ring)
    ensures ApplyAll(st, log + [e]) == Apply(ApplyAll(st, log), e)
  {
    assert (log + [e])[..|log|] == log;
  }

  lemma {:induction false} IssuesCommute(st: SourceState, issues: seq<Event>, e: Event)
    requires WellFormed(st.ring) && AllIssues(issues) && !(e.Arrived? && e.status == Untracked)
    ensures Core(Apply(ApplyAll(st, issues), e)) == Core(ApplyAll(Apply(st, e), issues))
  {
    hide Apply, Core;
    if issues != [] {
      var before, issue := issues[..|issues| - 1], issues[|issues| - 1];
      IssuesCommute(st, before, e);
      IssueCommutes(ApplyAll(st, before), issue, e);
      CoreApply(Apply(ApplyAll(st, before), e), ApplyAll(Apply(st, e), before), issue);
    }
  }

  /** All the packets first and then all the issues: the same record, up to the clean-packet count. */
  lemma {:induction false} PacketsThenIssues(s: SensorSource, log: seq<Event>)
    requires Tracked(log)
    ensures Core(StateOf(s, log)) == Core(ApplyAll(StateOf(s, Packets(log)), Issues(log)))
  {
    hide Apply, Core;
    if log != [] {
      var before, e := log[..|log| - 1], log[|log| - 1];
      PacketsThenIssues(s, before);
      var packets := StateOf(s, Packets(before));
      var both := ApplyAll(packets, Issues(before));
      CoreApply(StateOf(s, before), both, e);
      if e.Issue? {
        ApplyAllSnoc(packets, Issues(before), e);
      } else {
        IssuesCommute(packets, Issues(before), e);
        StateExtends(s, Packets(before), e);
      }
    }
  }

  /** Moving one issue to the end. */
  lemma {:induction false} IssueLast(st: SourceState, left: seq<Event>, issue: Event, right: seq<Event>)
    requires WellFormed(st.ring) && issue.Issue? && AllIssues(left) && AllIssues(right)
    ensures Core(ApplyAll(st, left + [issue] + right)) == Core(ApplyAll(st, left + right + [issue]))
  {
    hide Apply, Core;
    if right == [] {
      assert left + [issue] + right == left + right + [issue];
    } else {
      var most, last := right[..|right| - 1], right[|right| - 1];
      IssueLast(st, left, issue, most);
      var a, b := left + [issue] + most, left + most;
      assert left + [issue] + right == a + [last];
      assert left + right + [issue] == b + [last] + [issue];
      ApplyAllSnoc(st, a, last);
      ApplyAllSnoc(st, b, issue);
      ApplyAllSnoc(st, b, last);
      ApplyAllSnoc(st, b + [last], issue);
      CoreApply(ApplyAll(st, a), ApplyAll(st, b + [issue]), last);
      IssueCommutes(ApplyAll(st, b), issue, last);
    }
  }

  lemma {:induction false} IssueOrder(st: SourceState, a: seq<Event>, b: seq<Event>)
    requires WellFormed(st.ring) && AllIssues(a) && AllIssues(b) && multiset(a) == multiset(b)
    ensures Core(ApplyAll(st, a)) == Core(ApplyAll(st, b))
    decreases |a|
  {
    hide Apply, Core, ApplyAll;
    if a == [] {
      assert b == [] by {
        assert |multiset(b)| == |b|;
      }
    } else {
      var before, issue := a[..|a| - 1], a[|a| - 1];
      var k := SameLast(a, b);
      var left, right := b[..k], b[k + 1..];
      assert a == before + [issue] && b == left + [issue] + right;
      IssueOrder(st, before, left + right);
      ApplyAllSnoc(st, before, issue);
      ApplyAllSnoc(st, left + right, issue);
      CoreApply(ApplyAll(st, before), ApplyAll(st, left + right), issue);
      IssueLast(st, left, issue, right);
    }
  }

  /** Two histories with the same packets in the same order and the same issues at any places lead to
      the same record, except for the clean packets counted since the last issue. */
  lemma LogSchedule(s: SensorSource, a: seq<Event>, b: seq<Event>)
    requires Tracked(a) && Tracked(b)
    requires Packets(a) == Packets(b) && multiset(Issues(a)) == multiset(Issues(b))
    ensures Core(StateOf(s, a)) == Core(StateOf(s, b))
  {
    hide *;
    PacketsThenIssues(s, a);
    PacketsThenIssues(s, b);
    AllIssuesOf(a);
    AllIssuesOf(b);
    IssueOrder(StateOf(s, Packets(a)), Issues(a), Issues(b));
  }

  lemma AllIssuesOf(log: seq<Event>)
    ensures AllIssues(Issues(log))
  {
  }

  /* ----- the same for the calls on the monitor ----- */

  function PacketCalls(calls: seq<Call>): seq<Call> {
    if calls == [] then []
    else
      var before, c := PacketCalls(calls[..|calls| - 1]), calls[|calls| - 1];
      if c.PacketCall? then before + [c] else before
  }

  function IssueCalls(calls: seq<Call>): seq<Call> {
    if calls == [] then []
    else
      var before, c := IssueCalls(calls[..|calls| - 1]), calls[|calls| - 1];
      if c.IssueCall? then before + [c] else before
  }

  /** The issues among the calls that concern one source. */
  function IssuesAbout(calls: seq<Call>, s: SensorSource): seq<Event> {
    if calls == [] then []
    else
      var before, c := IssuesAbout(calls[..|calls| - 1], s), calls[|calls| - 1];
      if c.IssueCall? && IdentifySource(c.packet) == s then before + [Issue(c.kind, c.packet.receiveTimestamp)]
      else before
  }

  /** Every issue is about a source of which a packet was observed before, as in a run of the runtime. */
  ghost predicate Grounded(calls: seq<Call>) {
    forall k :: 0 <= k < |calls| && calls[k].IssueCall? ==>
      Numbers(Seen(calls[..k]), IdentifySource(calls[k].packet)) != []
  }

  lemma GroundedPrefix(calls: seq<Call>)
    requires calls != [] && Grounded(calls)
    ensures Grounded(calls[..|calls| - 1])
  {
    var before := calls[..|calls| - 1];
    forall k | 0 <= k < |before| && before[k].IssueCall?
      ensures Numbers(Seen(before[..k]), IdentifySource(before[k].packet)) != []
    {
      assert before[..k] == calls[..k];
    }
  }

  lemma {:induction false} SeenPackets(calls: seq<Call>)
    ensures Seen(PacketCalls(calls)) == Seen(calls)
  {
    if calls != [] {
      var before, c := calls[..|calls| - 1], calls[|calls| - 1];
      SeenPackets(before);
      SeenSnoc(PacketCalls(before), c);
    }
  }

  /** The two parts of a history come from the two kinds of calls. */
  lemma {:induction false} LogParts(calls: seq<Call>, s: SensorSource)
    requires Grounded(calls)
    ensures Packets(LogOf(calls, s)) == LogOf(PacketCalls(calls), s)
    ensures Issues(LogOf(calls, s)) == IssuesAbout(calls, s)
  {
    if calls != [] {
      var before, c := calls[..|calls| - 1], calls[|calls| - 1];
      GroundedPrefix(calls);
      LogParts(before, s);
      LogBegins(before, s);
      SeenPackets(calls);
      var log, packets := LogOf(before, s), PacketCalls(before);
      assert (packets + [c])[..|packets|] == packets;
      if IdentifySource(c.packet) == s {
        assert LogOf(calls, s)[..|log|] == log;
      }
    }
  }

  lemma {:induction false} IssuesAboutCalls(calls: seq<Call>, s: SensorSource)
    ensures IssuesAbout(calls, s) == IssuesAbout(IssueCalls(calls), s)
  {
    if calls != [] {
      var before, c := calls[..|calls| - 1], calls[|calls| - 1];
      IssuesAboutCalls(before, s);
      var issues := IssueCalls(before);
      assert (issues + [c])[..|issues|] == issues;
    }
  }

  lemma {:induction false} IssuesAboutConcat(a: seq<Call>, b: seq<Call>, s: SensorSource)
    ensures IssuesAbout(a + b, s) == IssuesAbout(a, s) + IssuesAbout(b, s)
  {
    if b == [] {
      assert a + b == a;
    } else {
      IssuesAboutConcat(a, b[..|b| - 1], s);
      assert (a + b)[..|a + b| - 1] == a + b[..|b| - 1];
    }
  }

  lemma {:induction false} IssuesAboutOrder(a: seq<Call>, b: seq<Call>, s: SensorSource)
    requires multiset(a) == multiset(b)
    ensures multiset(IssuesAbout(a, s)) == multiset(IssuesAbout(b, s))
    decreases |a|
  {
    hide IssuesAbout;
    if a == [] {
      assert b == [] by {
        assert |multiset(b)| == |b|;
      }
    } else {
      var before, c := a[..|a| - 1], a[|a| - 1];
      var k := SameLast(a, b);
      var left, right := b[..k], b[k + 1..];
      assert a == before + [c] && b == left + [c] + right;
      IssuesAboutOrder(before, left + right, s);
      IssuesAboutConcat(before, [c], s);
      IssuesAboutConcat(left, right, s);
      IssuesAboutConcat(left, [c], s);
      IssuesAboutConcat(left + [c], right, s);
    }
  }

  /** Schedule independence: the packets observed in the same order and the same issues reported at any
      times, each after a packet of its source, leave the same sequence tracking and the same records,
      except for the clean packets counted since the last issue. */
  lemma ScheduleIndependence(max: nat, a: seq<Call>, b: seq<Call>)
    requires PacketCalls(a) == PacketCalls(b) && multiset(IssueCalls(a)) == multiset(IssueCalls(b))
    requires Grounded(a) && Grounded(b)
    ensures var m, n := Monitor.Run(max, a), Monitor.Run(max, b);
            && m.tracker == n.tracker
            && |m.sources| == |n.sources|
            && forall i :: 0 <= i < |m.sources| ==> Core(m.sources[i]) == Core(n.sources[i])
  {
    SeenPackets(a);
    SeenPackets(b);
    MonitorRefinesLogs(max, a);
    MonitorRefinesLogs(max, b);
    var admitted := Admitted(max, Seen(a));
    hide Core, StateOf, LogOf, Packets, Issues;
    forall i | 0 <= i < |admitted|
      ensures Core(StateOf(admitted[i], LogOf(a, admitted[i]))) == Core(StateOf(admitted[i], LogOf(b, admitted[i])))
    {
      LogsAgree(a, b, admitted[i]);
    }
  }

  lemma LogsAgree(a: seq<Call>, b: seq<Call>, s: SensorSource)
    requires PacketCalls(a) == PacketCalls(b) && multiset(IssueCalls(a)) == multiset(IssueCalls(b))
    requires Grounded(a) && Grounded(b)
    ensures Core(StateOf(s, LogOf(a, s))) == Core(StateOf(s, LogOf(b, s)))
  {
    hide *;
    LogParts(a, s);
    LogParts(b, s);
    IssuesAboutCalls(a, s);
    IssuesAboutCalls(b, s);
    IssuesAboutOrder(IssueCalls(a), IssueCalls(b), s);
    LogTracked(a, s);
    LogTracked(b, s);
    LogSchedule(s, LogOf(a, s), LogOf(b, s));
  }

  lemma SourceOfRecord(max: nat, calls: seq<Call>, i: nat)
    requires i < |Monitor.Run(max, calls).sources|
    ensures var st := Monitor.Run(max, calls).sources[i];
            st == StateOf(st.source, LogOf(calls, st.source)) && LogOf(calls, st.source) != []
  {
    MonitorRefinesLogs(max, calls);
    AdmittedTable(max, Seen(calls));
    LogBegins(calls, Admitted(max, Seen(calls))[i]);
  }

  /** The history of a source begins with a packet. */
  lemma {:induction false} LogHasArrival(calls: seq<Call>, s: SensorSource)
    ensures LogOf(calls, s) != [] ==> Arrivals(LogOf(calls, s)) > 0
  {
    if calls != [] {
      var before, log := calls[..|calls| - 1], LogOf(calls[..|calls| - 1], s);
      LogHasArrival(before, s);
      hide Numbers, Seen, LastObservation;
      if |LogOf(calls, s)| > |log| {
        assert LogOf(calls, s)[..|log|] == log;
      }
    }
  }

  /** Clean packets since the last issue are packets received. */
  lemma CleanWithinReceived(max: nat, calls: seq<Call>, i: nat)
    requires i < |Monitor.Run(max, calls).sources|
    ensures var st := Monitor.Run(max, calls).sources[i];
            st.trouble.healthySince <= st.packets
  {
    var st := Monitor.Run(max, calls).sources[i];
    var log := LogOf(calls, st.source);
    SourceOfRecord(max, calls, i);
    LogTracked(calls, st.source);
    StateSummarizes(st.source, log);
    CleanAtMostArrivals(log);
    hide Monitor.Run, StateOf, LogOf;
  }

  /** The window in which the count of clean packets decides: the source sends, and its last issue is far
      enough in the past. */
  predicate CountDecides(cfg: Config, st: SourceState, now: uint64) {
    && ElapsedOrZero(now, st.lastReceive) < cfg.degradedAfter
    && st.trouble.seen && ElapsedOrZero(now, st.trouble.last) >= cfg.recoveryAfter
  }

  /** Records that agree but for the clean-packet count have different statuses exactly when that count
      decides and has reached the threshold in one of them only; then that one is HEALTHY and the other
      DEGRADED. */
  lemma StatusDiffersExactlyWhen(cfg: Config, a: SourceState, b: SourceState, now: uint64)
    requires cfg.Valid() && Core(a) == Core(b)
    requires a.trouble.healthySince <= a.packets && b.trouble.healthySince <= b.packets
    ensures EvaluateStatus(cfg, a, now) != EvaluateStatus(cfg, b, now)
            <==> CountDecides(cfg, a, now)
                 && (a.trouble.healthySince < cfg.healthyAfterPackets) != (b.trouble.healthySince < cfg.healthyAfterPackets)
    ensures EvaluateStatus(cfg, a, now) != EvaluateStatus(cfg, b, now) ==>
              {EvaluateStatus(cfg, a, now), EvaluateStatus(cfg, b, now)} == {Healthy, Degraded}
  {
    assert a.lastReceive == b.lastReceive && a.packets == b.packets;
    assert a.trouble.seen == b.trouble.seen && a.trouble.last == b.trouble.last;
  }

  /** How the statuses of two schedules may differ. */
  lemma ScheduleStatuses(cfg: Config, a: seq<Call>, b: seq<Call>, i: nat, now: uint64)
    requires cfg.Valid()
    requires PacketCalls(a) == PacketCalls(b) && multiset(IssueCalls(a)) == multiset(IssueCalls(b))
    requires Grounded(a) && Grounded(b)
    requires i < |Monitor.Run(cfg.maxSources, a).sources| == |Monitor.Run(cfg.maxSources, b).sources|
    ensures var x, y := Monitor.Run(cfg.maxSources, a).sources[i], Monitor.Run(cfg.maxSources, b).sources[i];
            && (EvaluateStatus(cfg, x, now) != EvaluateStatus(cfg, y, now)
                <==> CountDecides(cfg, x, now)
                     && (x.trouble.healthySince < cfg.healthyAfterPackets) != (y.trouble.healthySince < cfg.healthyAfterPackets))
            && (EvaluateStatus(cfg, x, now) != EvaluateStatus(cfg, y, now) ==>
                  {EvaluateStatus(cfg, x, now), EvaluateStatus(cfg, y, now)} == {Healthy, Degraded})
  {
    hide Monitor.Run, Core, EvaluateStatus, CountDecides, Grounded, PacketCalls, IssueCalls;
    ScheduleIndependence(cfg.maxSources, a, b);
    CleanWithinReceived(cfg.maxSources, a, i);
    CleanWithinReceived(cfg.maxSources, b, i);
    StatusDiffersExactlyWhen(cfg, Monitor.Run(cfg.maxSources, a).sources[i], Monitor.Run(cfg.maxSources, b).sources[i], now);
  }
}
