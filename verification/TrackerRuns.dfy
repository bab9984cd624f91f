/** Whole runs of the tracker over packets of many interleaved sources. */
module TrackerRuns {
  import opened Words
  import opened Tracker

  function Run(max: nat, arrivals: seq<Arrival>): State {
    if arrivals == [] then EMPTY
    else Next(max, Run(max, arrivals[..|arrivals| - 1]), arrivals[|arrivals| - 1]).0
  }

  /** What `observe` answered, arrival by arrival. */
  function Observations(max: nat, arrivals: seq<Arrival>): (os: seq<Observation>)
    ensures |os| == |arrivals|
  {
    if arrivals == [] then []
    else
      var before := arrivals[..|arrivals| - 1];
      Observations(max, before) + [Next(max, Run(max, before), arrivals[|arrivals| - 1]).1]
  }

  /* ----- the specification: admission, and one stream per admitted source ----- */

  /** The sources that get a table entry: the first `max` distinct ones, in order of appearance. */
  function Admitted(max: nat, arrivals: seq<Arrival>): seq<SensorSource> {
    if arrivals == [] then []
    else
      var before, s := Admitted(max, arrivals[..|arrivals| - 1]), arrivals[|arrivals| - 1].source;
      if s in before || |before| >= max then before else before + [s]
  }

  /** The sequence numbers that arrived from one source. */
  function Numbers(arrivals: seq<Arrival>, s: SensorSource): seq<uint64> {
    if arrivals == [] then []
    else
      var before, a := Numbers(arrivals[..|arrivals| - 1], s), arrivals[|arrivals| - 1];
      if a.source == s then before + [a.number] else before
  }

  ghost predicate Distinct<T>(xs: seq<T>) {
    forall i, j :: 0 <= i < j < |xs| ==> xs[i] != xs[j]
  }

  lemma {:induction false} AdmittedTable(max: nat, arrivals: seq<Arrival>)
    ensures |Admitted(max, arrivals)| <= max && Distinct(Admitted(max, arrivals))
    ensures forall s :: Numbers(arrivals, s) != [] ==> s in Admitted(max, arrivals) || |Admitted(max, arrivals)| == max
    ensures forall s :: s in Admitted(max, arrivals) ==> Numbers(arrivals, s) != []
  {
    if arrivals != [] {
      var before, a := arrivals[..|arrivals| - 1], arrivals[|arrivals| - 1];
      AdmittedTable(max, before);
      forall s | Numbers(arrivals, s) != []
        ensures s in Admitted(max, arrivals) || |Admitted(max, arrivals)| == max
      {
        assert s == a.source || Numbers(before, s) != [];
      }
      forall s | s in Admitted(max, arrivals)
        ensures Numbers(arrivals, s) != []
      {
        assert s == a.source || Numbers(before, s) != [];
      }
    }
  }

  /** A source once refused a table entry never gets one. */
  lemma UntrackedForever(max: nat, arrivals: seq<Arrival>, later: seq<Arrival>, s: SensorSource)
    requires Numbers(arrivals, s) != [] && s !in Admitted(max, arrivals)
    ensures s !in Admitted(max, arrivals + later)
    ensures later != [] && later[|later| - 1].source == s
            ==> Observations(max, arrivals + later)[|arrivals + later| - 1].status == Untracked
  {
    AdmittedTable(max, arrivals);
    FullStaysFull(max, arrivals, later);
    Streams(max, arrivals + later);
  }

  lemma {:induction false} FullStaysFull(max: nat, arrivals: seq<Arrival>, later: seq<Arrival>)
    requires |Admitted(max, arrivals)| == max
    ensures Admitted(max, arrivals + later) == Admitted(max, arrivals)
  {
    if later == [] {
      assert arrivals + later == arrivals;
    } else {
      var all := arrivals + later;
      assert all[..|all| - 1] == arrivals + later[..|later| - 1];
      FullStaysFull(max, arrivals, later[..|later| - 1]);
    }
  }

  /** The state of the tracker, entry by entry. */
  ghost predicate StreamPerSource(max: nat, arrivals: seq<Arrival>, entries: seq<Entry>) {
    var admitted := Admitted(max, arrivals);
    && |entries| == |admitted|
    && forall i :: 0 <= i < |entries| ==>
         && entries[i].source == admitted[i]
         && Numbers(arrivals, admitted[i]) != []
         && entries[i].stream == StreamOf(Numbers(arrivals, admitted[i]))
  }

  /** Non-interference: after any interleaving the table holds exactly the admitted sources, each with
      the state that its own packets alone produce, and each answer depends on that source alone. */
  lemma {:induction false} Streams(max: nat, arrivals: seq<Arrival>)
    ensures StreamPerSource(max, arrivals, Run(max, arrivals).entries)
    ensures arrivals != [] ==>
              var s := arrivals[|arrivals| - 1].source;
              var o := Observations(max, arrivals)[|arrivals| - 1];
              if s in Admitted(max, arrivals)
              then Numbers(arrivals, s) != [] && o == LastObservation(Numbers(arrivals, s))
              else o == Observation(Untracked, arrivals[|arrivals| - 1].number, 0)
  {
    if arrivals != [] {
      var before, a := arrivals[..|arrivals| - 1], arrivals[|arrivals| - 1];
      Streams(max, before);
      AdmittedTable(max, before);
      var entries := Run(max, before).entries;
      var i := Find(entries, a.source);
      if i < |entries| {
        StreamExtends(before, a);
        assert Distinct(Admitted(max, before));
        assert Admitted(max, before)[i] == a.source;
      } else {
        assert a.source !in Admitted(max, before) by {
          forall k | 0 <= k < |entries|
            ensures Admitted(max, before)[k] != a.source
          {
            assert entries[k].source != a.source;
          }
        }
        if |entries| < max {
          assert Numbers(before, a.source) == [];
        }
      }
    }
  }

  lemma StreamExtends(before: seq<Arrival>, a: Arrival)
    requires Numbers(before, a.source) != []
    ensures var ns, ns' := Numbers(before, a.source), Numbers(before + [a], a.source);
            && ns' == ns + [a.number]
            && StreamOf(ns') == Classify(StreamOf(ns), a.number).0
            && LastObservation(ns') == Classify(StreamOf(ns), a.number).1
  {
    assert (before + [a])[..|before|] == before;
    var ns := Numbers(before, a.source);
    assert (ns + [a.number])[..|ns|] == ns;
  }

  /** The packets of one source on their own. */
  function Only(arrivals: seq<Arrival>, s: SensorSource): seq<Arrival> {
    if arrivals == [] then []
    else
      var before, a := Only(arrivals[..|arrivals| - 1], s), arrivals[|arrivals| - 1];
      if a.source == s then before + [a] else before
  }

  lemma {:induction false} OnlyNumbers(arrivals: seq<Arrival>, s: SensorSource)
    ensures Numbers(Only(arrivals, s), s) == Numbers(arrivals, s)
    ensures forall k :: 0 <= k < |Only(arrivals, s)| ==> Only(arrivals, s)[k].source == s
    ensures |Only(arrivals, s)| == |Numbers(arrivals, s)|
  {
    if arrivals != [] {
      var before, a := arrivals[..|arrivals| - 1], arrivals[|arrivals| - 1];
      OnlyNumbers(before, s);
      if a.source == s {
        assert (Only(before, s) + [a])[..|Only(before, s)|] == Only(before, s);
      }
    }
  }

  /** A tracker fed only this source's packets ends with the very entry the shared tracker holds. */
  lemma AloneIsTheSame(max: nat, arrivals: seq<Arrival>, i: nat)
    requires i < |Run(max, arrivals).entries|
    ensures Run(max, Only(arrivals, Run(max, arrivals).entries[i].source)).entries
         == [Run(max, arrivals).entries[i]]
  {
    var e := Run(max, arrivals).entries[i];
    var only := Only(arrivals, e.source);
    OnlyNumbers(arrivals, e.source);
    assert e.stream == StreamOf(Numbers(arrivals, e.source)) && max > 0 && only != [] by {
      Streams(max, arrivals);
      AdmittedTable(max, arrivals);
    }
    AdmittedAlone(max, only, e.source);
    Streams(max, only);
  }

  /** The answers that the packets of one source got. */
  function AnswersTo(max: nat, arrivals: seq<Arrival>, s: SensorSource): seq<Observation> {
    if arrivals == [] then []
    else
      var before, a := AnswersTo(max, arrivals[..|arrivals| - 1], s), arrivals[|arrivals| - 1];
      if a.source == s then before + [Observations(max, arrivals)[|arrivals| - 1]] else before
  }

  /** And it gives that source's packets the very same answers, one by one. */
  lemma {:induction false} AnswersAlone(max: nat, arrivals: seq<Arrival>, s: SensorSource)
    requires s in Admitted(max, arrivals)
    ensures AnswersTo(max, arrivals, s) == Observations(max, Only(arrivals, s))
  {
    var before, a := arrivals[..|arrivals| - 1], arrivals[|arrivals| - 1];
    if s in Admitted(max, before) {
      AnswersAlone(max, before, s);
    } else {
      AdmittedTable(max, before);
      AdmittedTable(max, arrivals);
      NoAnswersYet(max, before, s);
    }
    if a.source == s {
      hide Next, Run, LastObservation;
      var only := Only(before, s);
      assert Only(arrivals, s) == only + [a];
      assert (only + [a])[..|only|] == only;
      LastAnswerAlone(max, arrivals, s);
    }
  }

  lemma {:induction false} NoAnswersYet(max: nat, arrivals: seq<Arrival>, s: SensorSource)
    requires Numbers(arrivals, s) == []
    ensures AnswersTo(max, arrivals, s) == [] && Only(arrivals, s) == []
  {
    if arrivals != [] {
      NoAnswersYet(max, arrivals[..|arrivals| - 1], s);
    }
  }

  lemma LastAnswerAlone(max: nat, arrivals: seq<Arrival>, s: SensorSource)
    requires s in Admitted(max, arrivals) && arrivals[|arrivals| - 1].source == s
    ensures var only := Only(arrivals, s);
            only != [] && Observations(max, arrivals)[|arrivals| - 1] == Observations(max, only)[|only| - 1]
  {
    var only := Only(arrivals, s);
    OnlyNumbers(arrivals, s);
    AdmittedTable(max, arrivals);
    Streams(max, arrivals);
    AdmittedAlone(max, only, s);
    Streams(max, only);
  }

  lemma {:induction false} AdmittedAlone(max: nat, arrivals: seq<Arrival>, s: SensorSource)
    requires max > 0 && arrivals != []
    requires forall k :: 0 <= k < |arrivals| ==> arrivals[k].source == s
    ensures Admitted(max, arrivals) == [s]
  {
    if |arrivals| > 1 {
      AdmittedAlone(max, arrivals[..|arrivals| - 1], s);
    }
  }

  /* ----- the counters ----- */

  function Tally(os: seq<Observation>, st: Status): nat {
    if os == [] then 0
    else Tally(os[..|os| - 1], st) + (if os[|os| - 1].status == st then 1 else 0)
  }

  /** The numbers inferred missing, without the 64-bit ceiling. */
  function TotalMissing(os: seq<Observation>): nat {
    if os == [] then 0 else TotalMissing(os[..|os| - 1]) + os[|os| - 1].missing
  }

  ghost predicate Tallied(m: Metrics, os: seq<Observation>) {
    && m.packets == |os|
    && m.first == m.streams == Tally(os, First)
    && m.inOrder == Tally(os, InOrder)
    && m.gap == Tally(os, Gap)
    && m.duplicate == Tally(os, Duplicate)
    && m.reordered == Tally(os, Reordered)
    && m.untracked == Tally(os, Untracked)
    && m.missing == Min(TotalMissing(os), MAX_64)
  }

  lemma TalliedStep(m: Metrics, os: seq<Observation>, o: Observation)
    requires Tallied(m, os)
    requires o.status != Gap ==> o.missing == 0
    ensures Tallied(Count(m.(packets := m.packets + 1), o), os + [o])
  {
    assert (os + [o])[..|os|] == os;
  }

  /** Every counter is the tally of its status; the missing counter is the true total, capped. */
  lemma {:induction false} Counters(max: nat, arrivals: seq<Arrival>)
    ensures Tallied(Run(max, arrivals).metrics, Observations(max, arrivals))
  {
    if arrivals != [] {
      var before, a := arrivals[..|arrivals| - 1], arrivals[|arrivals| - 1];
      Counters(max, before);
      var t := Run(max, before);
      NextCounts(max, t, a);
      TalliedStep(t.metrics, Observations(max, before), Next(max, t, a).1);
    }
  }

  lemma NextCounts(max: nat, t: State, a: Arrival)
    ensures var (t', o) := Next(max, t, a);
            && t'.metrics == Count(t.metrics.(packets := t.metrics.packets + 1), o)
            && (o.status != Gap ==> o.missing == 0)
  {
  }

  /** The six status counters partition the packets observed, and every stream has one first packet. */
  lemma Partition(max: nat, arrivals: seq<Arrival>)
    ensures var m := Run(max, arrivals).metrics;
            && m.packets == |arrivals|
            && m.packets == m.first + m.inOrder + m.gap + m.duplicate + m.reordered + m.untracked
            && m.first == m.streams == |Admitted(max, arrivals)|
  {
    Counters(max, arrivals);
    TallyPartition(Observations(max, arrivals));
    StreamsCounted(max, arrivals);
  }

  lemma {:induction false} TallyPartition(os: seq<Observation>)
    ensures |os| == Tally(os, First) + Tally(os, InOrder) + Tally(os, Gap) + Tally(os, Duplicate)
                    + Tally(os, Reordered) + Tally(os, Untracked)
  {
    if os != [] {
      TallyPartition(os[..|os| - 1]);
    }
  }

  lemma {:induction false} StreamsCounted(max: nat, arrivals: seq<Arrival>)
    ensures Run(max, arrivals).metrics.streams == |Admitted(max, arrivals)|
  {
    if arrivals != [] {
      var before, a := arrivals[..|arrivals| - 1], arrivals[|arrivals| - 1];
      StreamsCounted(max, before);
      assert |Run(max, before).entries| == |Admitted(max, before)| by {
        Streams(max, before);
      }
      assert |Run(max, arrivals).entries| == |Admitted(max, arrivals)| by {
        Streams(max, arrivals);
      }
      OneMoreStream(max, Run(max, before), a);
    }
  }

  lemma OneMoreStream(max: nat, t: State, a: Arrival)
    ensures var t' := Next(max, t, a).0;
            t'.metrics.streams - t.metrics.streams == |t'.entries| - |t.entries|
  {
  }

  /* ----- telescoping: how far the streams advanced ----- */

  /** How far the highest position of a stream has moved since its first packet. */
  function Advance(ns: seq<uint64>): int {
    if ns == [] then 0 else HistoryOf(ns).highest - HistoryOf(ns[..1]).highest
  }

  function TotalAdvance(sources: seq<SensorSource>, arrivals: seq<Arrival>): int {
    if sources == [] then 0
    else TotalAdvance(sources[..|sources| - 1], arrivals) + Advance(Numbers(arrivals, sources[|sources| - 1]))
  }

  /** Summed over the admitted sources, the distance advanced is accounted for exactly: one step per
      packet that moved a stream forward, plus every number inferred missing. */
  lemma {:induction false} Telescoping(max: nat, arrivals: seq<Arrival>)
    ensures var os := Observations(max, arrivals);
            TotalAdvance(Admitted(max, arrivals), arrivals)
            == Tally(os, InOrder) + Tally(os, Gap) + TotalMissing(os)
  {
    if arrivals != [] {
      var before, a := arrivals[..|arrivals| - 1], arrivals[|arrivals| - 1];
      assert arrivals == before + [a];
      Telescoping(max, before);
      AdvanceOfOne(max, before, a);
    }
  }

  /** What one more arrival adds to the distance advanced, and to the answers. */
  lemma AdvanceOfOne(max: nat, before: seq<Arrival>, a: Arrival)
    ensures var arrivals := before + [a];
            var os, os' := Observations(max, before), Observations(max, arrivals);
            TotalAdvance(Admitted(max, arrivals), arrivals)
              - (Tally(os', InOrder) + Tally(os', Gap) + TotalMissing(os'))
            == TotalAdvance(Admitted(max, before), before)
              - (Tally(os, InOrder) + Tally(os, Gap) + TotalMissing(os))
  {
    hide Next, Run, Advance, StreamOf, LastObservation;
    var arrivals := before + [a];
    assert arrivals[..|before|] == before;
    var os, os' := Observations(max, before), Observations(max, arrivals);
    var o := os'[|before|];
    assert os' == os + [o] && os'[..|os|] == os;
    var admitted := Admitted(max, before);
    AdmittedTable(max, before);
    TotalAdvanceStep(admitted, before, a);
    if a.source in admitted {
      LastAnswer(max, arrivals);
      AdvanceStep(before, a);
    } else if |admitted| < max {
      LastAnswer(max, arrivals);
      assert Numbers(before, a.source) == [];
      assert Numbers(arrivals, a.source) == [a.number];
      FirstAdvance(a.number);
      assert (admitted + [a.source])[..|admitted|] == admitted;
    } else {
      LastAnswer(max, arrivals);
    }
  }

  /** What the last packet is answered, from its source's numbers. */
  lemma LastAnswer(max: nat, arrivals: seq<Arrival>)
    requires arrivals != []
    ensures var s := arrivals[|arrivals| - 1].source;
            var o := Observations(max, arrivals)[|arrivals| - 1];
            if s in Admitted(max, arrivals)
            then Numbers(arrivals, s) != [] && o == LastObservation(Numbers(arrivals, s))
            else o.status == Untracked && o.missing == 0
  {
    hide StreamPerSource;
    Streams(max, arrivals);
  }

  lemma FirstAdvance(n: uint64)
    ensures Advance([n]) == 0 && LastObservation([n]) == Observation(First, n, 0)
  {
    assert [n][..1] == [n];
  }

  /** The missing counter is the distance advanced that no packet accounts for, capped at 64 bits. */
  lemma MissingIsTheShortfall(max: nat, arrivals: seq<Arrival>)
    ensures var m := Run(max, arrivals).metrics;
            m.missing == Min(TotalAdvance(Admitted(max, arrivals), arrivals) - m.inOrder - m.gap, MAX_64)
  {
    hide *;
    Telescoping(max, arrivals);
    Counters(max, arrivals);
    TalliedMissing(Run(max, arrivals).metrics, Observations(max, arrivals));
  }

  lemma TalliedMissing(m: Metrics, os: seq<Observation>)
    requires Tallied(m, os)
    ensures m.inOrder == Tally(os, InOrder) && m.gap == Tally(os, Gap) && m.missing == Min(TotalMissing(os), MAX_64)
  {
  }

  lemma AdvanceStep(before: seq<Arrival>, a: Arrival)
    requires Numbers(before, a.source) != []
    ensures var o := LastObservation(Numbers(before + [a], a.source));
            Advance(Numbers(before + [a], a.source))
            == Advance(Numbers(before, a.source)) + o.missing
               + (if o.status == InOrder || o.status == Gap then 1 else 0)
  {
    StreamExtends(before, a);
    var ns, ns' := Numbers(before, a.source), Numbers(before + [a], a.source);
    BitmapRefinesHistory(ns');
    assert ns'[..|ns'| - 1] == ns && ns'[..1] == ns[..1];
  }

  lemma {:induction false} TotalAdvanceStep(sources: seq<SensorSource>, before: seq<Arrival>, a: Arrival)
    requires Distinct(sources)
    ensures TotalAdvance(sources, before + [a])
         == TotalAdvance(sources, before)
            + (if a.source in sources
               then Advance(Numbers(before + [a], a.source)) - Advance(Numbers(before, a.source)) else 0)
  {
    assert (before + [a])[..|before|] == before;
    if sources != [] {
      var rest, s := sources[..|sources| - 1], sources[|sources| - 1];
      TotalAdvanceStep(rest, before, a);
      assert sources == rest + [s];
      assert a.source in sources <==> a.source in rest || a.source == s;
      assert s !in rest;
    }
  }
}
