/** SensorStreamTracker: modular sequence comparison with a 64-position bitmap per source. */
module Tracker {
  import opened Words
  import opened Types

  /* ----- one stream, as the source keeps it ----- */

  datatype Status = First | InOrder | Gap | Duplicate | Reordered | Untracked

  datatype Observation = Observation(status: Status, sequenceNumber: uint64, missing: uint64)

  /** Bit i of `recent` stands for the position i places behind `highest`. */
  datatype Stream = Stream(highest: uint64, recent: uint64)

  const WINDOW := 64

  /** Unsigned 64-bit subtraction: how far `to` lies ahead of `from`. */
  function Distance(from: uint64, to: uint64): uint64 {
    (to - from) % TWO_64
  }

  function FirstStream(n: uint64): Stream {
    Stream(n, 1)
  }

  /** What `observe` does with a sequence number of a source it already tracks. */
  function Classify(st: Stream, n: uint64): (Stream, Observation) {
    var forward := Distance(st.highest, n);
    if forward == 0 then
      (st, Observation(Duplicate, n, 0))
    else if forward < TWO_63 then
      var recent := if forward >= WINDOW then 1 else Or64(ShiftLeft64(st.recent, forward), 1);
      (Stream(n, recent),
       if forward == 1 then Observation(InOrder, n, 0) else Observation(Gap, n, forward - 1))
    else
      var backward := Distance(n, st.highest);
      if backward < WINDOW then
        var mask := ShiftLeft64(1, backward);
        if And(st.recent, mask) != 0 then
          (st, Observation(Duplicate, n, 0))
        else
          (st.(recent := Or64(st.recent, mask)), Observation(Reordered, n, 0))
      else
        (st, Observation(Reordered, n, 0))
  }

  /* ----- the reference: an unbounded history of integer positions ----- */

  /** Every position ever observed, and the highest one. */
  datatype History = History(highest: int, seen: set<int>)

  /** The integer congruent to n modulo 2^64 nearest to `highest`; exactly half way counts as behind. */
  function Position(highest: int, n: uint64): int {
    var forward := (n - highest) % TWO_64;
    if forward < TWO_63 then highest + forward else highest + forward - TWO_64
  }

  function FirstHistory(n: uint64): History {
    History(n, {n})
  }

  function Record(h: History, n: uint64): History {
    var p := Position(h.highest, n);
    History(Max(h.highest, p), h.seen + {p})
  }

  /** The verdict a tracker with unlimited memory gives, except that it remembers a repeat only while
      the position is fewer than 64 places behind. */
  function Verdict(h: History, n: uint64): Observation {
    var p := Position(h.highest, n);
    if p == h.highest + 1 then Observation(InOrder, n, 0)
    else if p > h.highest then Observation(Gap, n, p - h.highest - 1)
    else if p in h.seen && h.highest - p < WINDOW then Observation(Duplicate, n, 0)
    else Observation(Reordered, n, 0)
  }

  /** The bitmap is the history seen through its window. */
  ghost predicate Refines(st: Stream, h: History) {
    && st.highest == h.highest % TWO_64
    && h.highest in h.seen
    && (forall p :: p in h.seen ==> p <= h.highest)
    && (forall i: nat :: i < WINDOW ==> (Bit(st.recent, i) <==> h.highest - i in h.seen))
  }

  lemma FirstRefines(n: uint64)
    ensures Refines(FirstStream(n), FirstHistory(n))
  {
    forall i: nat | i < WINDOW
      ensures Bit(1, i) <==> n - i in {n}
    {
      BitOfPow2(0, i);
    }
  }

  /** Unsigned distances and positions say the same thing. */
  lemma DistancePosition(st: Stream, h: History, n: uint64)
    requires st.highest == h.highest % TWO_64
    ensures var f, p := Distance(st.highest, n), Position(h.highest, n);
            && p % TWO_64 == n
            && (f == 0 <==> p == h.highest)
            && (0 < f < TWO_63 ==> p == h.highest + f)
            && (f >= TWO_63 ==> p < h.highest && Distance(n, st.highest) == h.highest - p)
  {
    var q := h.highest / TWO_64;
    assert h.highest == TWO_64 * q + st.highest;
    assert (n - h.highest) % TWO_64 == (n - st.highest) % TWO_64;
  }

  lemma ForwardBits(st: Stream, h: History, d: nat)
    requires Refines(st, h) && 0 < d
    ensures var recent: nat := if d >= WINDOW then 1 else Or64(ShiftLeft64(st.recent, d), 1);
            forall i: nat :: i < WINDOW ==>
              (Bit(recent, i) <==> h.highest + d - i in h.seen + {h.highest + d})
  {
    var recent: nat := if d >= WINDOW then 1 else Or64(ShiftLeft64(st.recent, d), 1);
    forall i: nat | i < WINDOW
      ensures Bit(recent, i) <==> h.highest + d - i in h.seen + {h.highest + d}
    {
      BitOfPow2(0, i);
      if d < WINDOW {
        BitOfOr(ShiftLeft64(st.recent, d), 1, i);
        BitOfShift(st.recent, d, i);
        assert i >= d ==> h.highest - (i - d) == h.highest + d - i;
      }
    }
  }

  lemma BackwardBits(st: Stream, h: History, b: nat)
    requires Refines(st, h) && b < WINDOW
    ensures And(st.recent, ShiftLeft64(1, b)) != 0 <==> h.highest - b in h.seen
    ensures forall i: nat :: i < WINDOW ==>
              (Bit(Or64(st.recent, ShiftLeft64(1, b)), i) <==> h.highest - i in h.seen + {h.highest - b})
  {
    OneShifted(b);
    AndMask(st.recent, b);
    forall i: nat | i < WINDOW
      ensures Bit(Or64(st.recent, ShiftLeft64(1, b)), i) <==> h.highest - i in h.seen + {h.highest - b}
    {
      BitOfOr(st.recent, ShiftLeft64(1, b), i);
      BitOfPow2(b, i);
    }
  }

  /** One observation: same verdict as the unbounded history, and the bitmap still mirrors it. */
  lemma ClassifyRefines(st: Stream, h: History, n: uint64)
    requires Refines(st, h)
    ensures Refines(Classify(st, n).0, Record(h, n))
    ensures Classify(st, n).1 == Verdict(h, n)
  {
    var f, p := Distance(st.highest, n), Position(h.highest, n);
    DistancePosition(st, h, n);
    assert Bit(st.recent, 0) <==> h.highest - 0 in h.seen;
    if f == 0 {
      assert h.seen + {p} == h.seen;
    } else if f < TWO_63 {
      ForwardBits(st, h, f);
    } else {
      var b := Distance(n, st.highest);
      if b < WINDOW {
        BackwardBits(st, h, b);
        if p in h.seen {
          assert h.seen + {p} == h.seen;
        }
      }
    }
  }

  /* ----- whole runs of one stream ----- */

  /** The tracker's state after the numbers ns of one admitted source. */
  function StreamOf(ns: seq<uint64>): Stream
    requires ns != []
  {
    if |ns| == 1 then FirstStream(ns[0])
    else Classify(StreamOf(ns[..|ns| - 1]), ns[|ns| - 1]).0
  }

  /** What `observe` answers for the last of the numbers ns. */
  function LastObservation(ns: seq<uint64>): Observation
    requires ns != []
  {
    if |ns| == 1 then Observation(First, ns[0], 0)
    else Classify(StreamOf(ns[..|ns| - 1]), ns[|ns| - 1]).1
  }

  function HistoryOf(ns: seq<uint64>): History
    requires ns != []
  {
    if |ns| == 1 then FirstHistory(ns[0])
    else Record(HistoryOf(ns[..|ns| - 1]), ns[|ns| - 1])
  }

  /** After any run bit i of the bitmap says whether position highest - i was ever observed. */
  lemma {:induction false} BitmapRefinesHistory(ns: seq<uint64>)
    requires ns != []
    ensures Refines(StreamOf(ns), HistoryOf(ns))
    ensures |ns| > 1 ==> LastObservation(ns) == Verdict(HistoryOf(ns[..|ns| - 1]), ns[|ns| - 1])
  {
    if |ns| == 1 {
      FirstRefines(ns[0]);
    } else {
      var before, n := ns[..|ns| - 1], ns[|ns| - 1];
      BitmapRefinesHistory(before);
      ClassifyRefines(StreamOf(before), HistoryOf(before), n);
    }
  }

  /* ----- the sender's own counter ----- */

  function MaxOf(ts: seq<int>): int
    requires ts != []
  {
    if |ts| == 1 then ts[0] else Max(MaxOf(ts[..|ts| - 1]), ts[|ts| - 1])
  }

  /** The 64 bits of an unbounded counter that fit the packet header. */
  function Wrapped(ts: seq<int>): (ns: seq<uint64>)
    ensures |ns| == |ts|
  {
    seq(|ts|, k requires 0 <= k < |ts| => ts[k] % TWO_64)
  }

  /** Every arrival lies within half the number space of the highest before it. */
  ghost predicate WithinHalfRange(ts: seq<int>) {
    forall k :: 0 < k < |ts| ==> MaxOf(ts[..k]) - TWO_63 <= ts[k] < MaxOf(ts[..k]) + TWO_63
  }

  /** The history holds the counter values ts, shifted down by `wraps` multiples of 2^64. */
  ghost predicate Mirrors(h: History, ts: seq<int>, wraps: int)
    requires ts != []
  {
    && h.highest == MaxOf(ts) - wraps * TWO_64
    && forall p :: p in h.seen <==> p + wraps * TWO_64 in ts
  }

  lemma MirrorsStep(h: History, ts: seq<int>, t: int, wraps: int)
    requires ts != [] && Mirrors(h, ts, wraps)
    requires MaxOf(ts) - TWO_63 <= t < MaxOf(ts) + TWO_63
    ensures Mirrors(Record(h, t % TWO_64), ts + [t], wraps)
  {
    CounterStep(h, MaxOf(ts), t, wraps);
    assert (ts + [t])[..|ts|] == ts;
  }

  /** The positions the tracker reconstructs are the sender's counter values, however often the
      64-bit number wrapped, up to the one multiple of 2^64 that no receiver can know. */
  lemma {:induction false} PositionsAreTrue(ts: seq<int>)
    requires ts != [] && WithinHalfRange(ts)
    ensures Mirrors(HistoryOf(Wrapped(ts)), ts, ts[0] / TWO_64)
  {
    if |ts| > 1 {
      var before, t, ns := ts[..|ts| - 1], ts[|ts| - 1], Wrapped(ts);
      RangeOfPrefix(ts);
      PositionsAreTrue(before);
      assert ns[..|ns| - 1] == Wrapped(before);
      assert ts == before + [t];
      MirrorsStep(HistoryOf(Wrapped(before)), before, t, ts[0] / TWO_64);
    }
  }

  lemma RangeOfPrefix(ts: seq<int>)
    requires |ts| > 1 && WithinHalfRange(ts)
    ensures WithinHalfRange(ts[..|ts| - 1])
  {
    var before := ts[..|ts| - 1];
    forall k | 0 < k < |before|
      ensures MaxOf(before[..k]) - TWO_63 <= before[k] < MaxOf(before[..k]) + TWO_63
    {
      assert before[..k] == ts[..k];
    }
  }

  lemma PositionOfCounter(highest: int, t: int, wraps: int)
    requires highest - TWO_63 <= t < highest + TWO_63
    ensures Position(highest - wraps * TWO_64, t % TWO_64) == t - wraps * TWO_64
  {
    var q := t / TWO_64;
    assert t % TWO_64 - (highest - wraps * TWO_64) == (t - highest) + (wraps - q) * TWO_64;
    if t >= highest {
      DivModUnique(t % TWO_64 - (highest - wraps * TWO_64), TWO_64, wraps - q, t - highest);
    } else {
      DivModUnique(t % TWO_64 - (highest - wraps * TWO_64), TWO_64, wraps - q - 1, t - highest + TWO_64);
    }
  }

  /** One arrival of counter value t after a history whose positions are `wraps` wraps behind. */
  lemma CounterStep(h: History, highest: int, t: int, wraps: int)
    requires h.highest == highest - wraps * TWO_64
    requires highest - TWO_63 <= t < highest + TWO_63
    ensures Record(h, t % TWO_64) == History(Max(highest, t) - wraps * TWO_64, h.seen + {t - wraps * TWO_64})
    ensures var o := Verdict(h, t % TWO_64);
            && o.missing == (if t > highest then t - highest - 1 else 0)
            && o.status == (
                 if t == highest + 1 then InOrder
                 else if t > highest then Gap
                 else if t - wraps * TWO_64 in h.seen && highest - t < WINDOW then Duplicate
                 else Reordered)
  {
    PositionOfCounter(highest, t, wraps);
  }

  /** The classification in terms of the sender's counter: a number is a duplicate exactly when it was
      seen before fewer than 64 places behind the highest, across any number of wrap-arounds. */
  lemma ClassificationIsTrue(ts: seq<int>)
    requires |ts| > 1 && WithinHalfRange(ts)
    ensures var before, t := ts[..|ts| - 1], ts[|ts| - 1];
            var highest, o := MaxOf(before), LastObservation(Wrapped(ts));
            && (o.status == InOrder <==> t == highest + 1)
            && (o.status == Gap <==> t > highest + 1)
            && (o.status == Duplicate <==> t in before && highest - t < WINDOW)
            && (o.status == Reordered <==> t <= highest && !(t in before && highest - t < WINDOW))
            && o.missing == (if t > highest then t - highest - 1 else 0)
  {
    var before, t, ns := ts[..|ts| - 1], ts[|ts| - 1], Wrapped(ts);
    RangeOfPrefix(ts);
    PositionsAreTrue(before);
    BitmapRefinesHistory(ns);
    assert ns[..|ns| - 1] == Wrapped(before);
    var h := HistoryOf(Wrapped(before));
    assert LastObservation(ns) == Verdict(h, t % TWO_64);
    assert before == ts[..|ts| - 1];
    VerdictMirrors(h, before, t, ts[0] / TWO_64);
  }

  lemma VerdictMirrors(h: History, before: seq<int>, t: int, wraps: int)
    requires before != [] && Mirrors(h, before, wraps)
    requires MaxOf(before) - TWO_63 <= t < MaxOf(before) + TWO_63
    ensures var highest, o := MaxOf(before), Verdict(h, t % TWO_64);
            && (o.status == InOrder <==> t == highest + 1)
            && (o.status == Gap <==> t > highest + 1)
            && (o.status == Duplicate <==> t in before && highest - t < WINDOW)
            && (o.status == Reordered <==> t <= highest && !(t in before && highest - t < WINDOW))
            && o.missing == (if t > highest then t - highest - 1 else 0)
  {
    CounterStep(h, MaxOf(before), t, wraps);
    assert t - wraps * TWO_64 in h.seen <==> t in before;
    MaxIsMax(before);
  }

  lemma {:induction false} MaxIsMax(ts: seq<int>)
    requires ts != []
    ensures forall k :: 0 <= k < |ts| ==> ts[k] <= MaxOf(ts)
  {
    if |ts| > 1 {
      MaxIsMax(ts[..|ts| - 1]);
    }
  }

  /* ----- the table of sources ----- */

  datatype SensorSource = SensorSource(remote: Endpoint, listener: Endpoint, messageType: MessageType)

  datatype Entry = Entry(source: SensorSource, stream: Stream)

  datatype Metrics = Metrics(
    streams: nat,
    packets: nat,
    first: nat,
    inOrder: nat,
    gap: nat,
    duplicate: nat,
    reordered: nat,
    untracked: nat,
    missing: uint64)

  const NO_METRICS := Metrics(0, 0, 0, 0, 0, 0, 0, 0, 0)

  datatype State = State(entries: seq<Entry>, metrics: Metrics)

  const EMPTY := State([], NO_METRICS)

  datatype Arrival = Arrival(source: SensorSource, number: uint64)

  function IdentifySource(p: ReceivedPacket): SensorSource {
    SensorSource(p.source, p.listener, p.packet.header.messageType)
  }

  function ArrivalOf(p: ReceivedPacket): Arrival {
    Arrival(IdentifySource(p), p.packet.header.sequenceNumber)
  }

  function ArrivalsOf(ps: seq<ReceivedPacket>): (arrivals: seq<Arrival>)
    ensures |arrivals| == |ps|
  {
    seq(|ps|, i requires 0 <= i < |ps| => ArrivalOf(ps[i]))
  }

  /** The index of the first entry for the source, or the length of the table. */
  function Find(entries: seq<Entry>, source: SensorSource): (i: nat)
    ensures i <= |entries|
    ensures i < |entries| ==> entries[i].source == source
    ensures forall k :: 0 <= k < i ==> entries[k].source != source
  {
    if entries == [] then 0
    else if entries[0].source == source then 0
    else
      var i := Find(entries[1..], source);
      assert forall k :: 0 < k < i + 1 ==> entries[k] == entries[1..][k - 1];
      i + 1
  }

  function Count(m: Metrics, o: Observation): Metrics {
    match o.status
    case First => m.(streams := m.streams + 1, first := m.first + 1)
    case InOrder => m.(inOrder := m.inOrder + 1)
    case Gap => m.(gap := m.gap + 1, missing := SaturatingAdd(m.missing, o.missing))
    case Duplicate => m.(duplicate := m.duplicate + 1)
    case Reordered => m.(reordered := m.reordered + 1)
    case Untracked => m.(untracked := m.untracked + 1)
  }

  /** `observe` as a function of the state before. */
  function Next(maxSources: nat, t: State, a: Arrival): (State, Observation) {
    var i := Find(t.entries, a.source);
    var m := t.metrics.(packets := t.metrics.packets + 1);
    if i < |t.entries| then
      var (stream, o) := Classify(t.entries[i].stream, a.number);
      (State(t.entries[i := Entry(a.source, stream)], Count(m, o)), o)
    else if |t.entries| >= maxSources then
      var o := Observation(Untracked, a.number, 0);
      (State(t.entries, Count(m, o)), o)
    else
      var o := Observation(First, a.number, 0);
      (State(t.entries + [Entry(a.source, FirstStream(a.number))], Count(m, o)), o)
  }

  class SensorStreamTracker {
    const maxSources: nat
    var sources: seq<Entry>
    var metrics: Metrics

    ghost function View(): State
      reads this
    {
      State(sources, metrics)
    }

    constructor (maxSources: nat)
      requires maxSources > 0
      ensures this.maxSources == maxSources && View() == EMPTY
    {
      this.maxSources := maxSources;
      sources := [];
      metrics := NO_METRICS;
    }

    method FindSource(source: SensorSource) returns (i: nat)
      ensures i == Find(sources, source)
    {
      i := 0;
      while i < |sources| && sources[i].source != source
        invariant i <= |sources|
        invariant forall k :: 0 <= k < i ==> sources[k].source != source
      {
        i := i + 1;
      }
    }

    method Observe(packet: ReceivedPacket) returns (o: Observation)
      modifies this
      ensures (View(), o) == Next(maxSources, old(View()), ArrivalOf(packet))
    {
      metrics := metrics.(packets := metrics.packets + 1);
      var source, n := IdentifySource(packet), packet.packet.header.sequenceNumber;
      var i := FindSource(source);
      if i == |sources| {
        if |sources| >= maxSources {
          metrics := metrics.(untracked := metrics.untracked + 1);
          return Observation(Untracked, n, 0);
        }
        sources := sources + [Entry(source, Stream(n, 1))];
        metrics := metrics.(streams := metrics.streams + 1, first := metrics.first + 1);
        return Observation(First, n, 0);
      }
      var st := sources[i].stream;
      var forward := Distance(st.highest, n);
      if forward == 0 {
        metrics := metrics.(duplicate := metrics.duplicate + 1);
        assert sources[i := Entry(source, st)] == sources;
        return Observation(Duplicate, n, 0);
      }
      if forward < TWO_63 {
        var recent: uint64 := 1;
        if forward < WINDOW {
          recent := ShiftLeft64(st.recent, forward);
          recent := Or64(recent, 1);
        }
        sources := sources[i := Entry(source, Stream(n, recent))];
        var missing := forward - 1;
        if missing == 0 {
          metrics := metrics.(inOrder := metrics.inOrder + 1);
          return Observation(InOrder, n, 0);
        }
        metrics := metrics.(gap := metrics.gap + 1, missing := SaturatingAdd(metrics.missing, missing));
        return Observation(Gap, n, missing);
      }
      var backward := Distance(n, st.highest);
      assert sources[i := Entry(source, st)] == sources;
      if backward < WINDOW {
        var mask := ShiftLeft64(1, backward);
        if And(st.recent, mask) != 0 {
          metrics := metrics.(duplicate := metrics.duplicate + 1);
          return Observation(Duplicate, n, 0);
        }
        sources := sources[i := Entry(source, st.(recent := Or64(st.recent, mask)))];
      }
      metrics := metrics.(reordered := metrics.reordered + 1);
      return Observation(Reordered, n, 0);
    }
  }
}
