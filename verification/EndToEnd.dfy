/** From the simulator's faults to the tracker's counters, through the codec. */
module EndToEnd {
  import opened Words
  import opened Types
  import opened Tracker
  import opened TrackerRuns
  import opened Simulator
  import opened SimulatorRuns
  import F = FullStack
  import S = SensorPayloads
  import W = Wire

  /* ----- a stream as the unbounded history sees it ----- */

  function Watch(h: History, ns: seq<uint64>): (os: seq<Observation>)
    ensures |os| == |ns|
    decreases |ns|
  {
    if ns == [] then [] else [Verdict(h, ns[0])] + Watch(Record(h, ns[0]), ns[1..])
  }

  function Seen(h: History, ns: seq<uint64>): History
    decreases |ns|
  {
    if ns == [] then h else Seen(Record(h, ns[0]), ns[1..])
  }

  lemma {:induction false} WatchConcat(h: History, a: seq<uint64>, b: seq<uint64>)
    ensures Watch(h, a + b) == Watch(h, a) + Watch(Seen(h, a), b)
    ensures Seen(h, a + b) == Seen(Seen(h, a), b)
    decreases |a|
  {
    if a == [] {
      assert a + b == b;
    } else {
      assert (a + b)[1..] == a[1..] + b;
      WatchConcat(Record(h, a[0]), a[1..], b);
    }
  }

  lemma {:induction false} SeenIsHistory(ns: seq<uint64>)
    requires ns != []
    ensures HistoryOf(ns) == Seen(FirstHistory(ns[0]), ns[1..])
  {
    if |ns| > 1 {
      var before, n := ns[..|ns| - 1], ns[|ns| - 1];
      SeenIsHistory(before);
      WatchConcat(FirstHistory(ns[0]), before[1..], [n]);
      assert ns[1..] == before[1..] + [n];
    }
  }

  function FromSource(s: SensorSource, ns: seq<uint64>): (arrivals: seq<Arrival>)
    ensures |arrivals| == |ns|
  {
    seq(|ns|, i requires 0 <= i < |ns| => Arrival(s, ns[i]))
  }

  lemma {:induction false} NumbersOfSource(s: SensorSource, ns: seq<uint64>)
    ensures Numbers(FromSource(s, ns), s) == ns
  {
    if ns != [] {
      var before := ns[..|ns| - 1];
      assert FromSource(s, ns)[..|ns| - 1] == FromSource(s, before);
      NumbersOfSource(s, before);
    }
  }

  lemma LastAlone(max: nat, s: SensorSource, ns: seq<uint64>)
    requires max > 0 && ns != []
    ensures Observations(max, FromSource(s, ns))
         == Observations(max, FromSource(s, ns[..|ns| - 1])) + [LastObservation(ns)]
  {
    hide Next, LastObservation;
    var arrivals := FromSource(s, ns);
    assert arrivals[..|ns| - 1] == FromSource(s, ns[..|ns| - 1]);
    NumbersOfSource(s, ns);
    AdmittedAlone(max, arrivals, s);
    Streams(max, arrivals);
  }

  lemma WatchOne(h: History, n: uint64)
    ensures Watch(h, [n]) == [Verdict(h, n)] && Seen(h, [n]) == Record(h, n)
  {
    assert [n][1..] == [];
  }

  /** A tracker that hears one source answers as the history does. */
  lemma {:induction false} OneSource(max: nat, s: SensorSource, ns: seq<uint64>)
    requires max > 0 && ns != []
    ensures Observations(max, FromSource(s, ns))
         == [Observation(First, ns[0], 0)] + Watch(FirstHistory(ns[0]), ns[1..])
  {
    LastAlone(max, s, ns);
    if |ns| == 1 {
      assert FromSource(s, ns[..0]) == [] && ns[1..] == [];
    } else {
      hide FromSource, Observations, LastObservation, HistoryOf, Watch, Seen, Verdict, StreamOf;
      var before, n, first := ns[..|ns| - 1], ns[|ns| - 1], FirstHistory(ns[0]);
      OneSource(max, s, before);
      BitmapRefinesHistory(ns);
      SeenIsHistory(before);
      WatchConcat(first, before[1..], [n]);
      WatchOne(Seen(first, before[1..]), n);
      assert ns[1..] == before[1..] + [n];
    }
  }

  lemma {:induction false} TallyConcat(a: seq<Observation>, b: seq<Observation>, st: Status)
    ensures Tally(a + b, st) == Tally(a, st) + Tally(b, st)
    ensures TotalMissing(a + b) == TotalMissing(a) + TotalMissing(b)
  {
    if b == [] {
      assert a + b == a;
    } else {
      assert (a + b)[..|a + b| - 1] == a + b[..|b| - 1];
      TallyConcat(a, b[..|b| - 1], st);
    }
  }

  /* ----- what the injected faults look like ----- */

  /** One number as it is sent: twice if the duplicate rule selects it. */
  function Group(c: Faults, n: uint64): (g: seq<uint64>)
    ensures 1 <= |g| <= 2
  {
    if Duplicated(c, n) then [n, n] else [n]
  }

  type numbers = ns: seq<nat> | forall i :: 0 <= i < |ns| ==> ns[i] < TWO_64

  function Echo(c: Faults, ns: numbers): seq<uint64> {
    if ns == [] then [] else Group(c, ns[0]) + Echo(c, ns[1..])
  }

  /** Duplicates, reorderings and missing numbers in a list of answers. */
  ghost predicate Verdicts(os: seq<Observation>, duplicates: int, reordered: int, missing: int) {
    && Tally(os, Duplicate) == duplicates
    && Tally(os, Reordered) == reordered
    && TotalMissing(os) == missing
  }

  lemma VerdictsConcat(a: seq<Observation>, b: seq<Observation>, d: int, r: int, m: int, d': int, r': int, m': int)
    requires Verdicts(a, d, r, m) && Verdicts(b, d', r', m')
    ensures Verdicts(a + b, d + d', r + r', m + m')
  {
    TallyConcat(a, b, Duplicate);
    TallyConcat(a, b, Reordered);
  }

  lemma VerdictsOne(o: Observation)
    ensures Verdicts([o], One(o.status == Duplicate), One(o.status == Reordered), o.missing)
  {
    assert [o][..0] == [];
    assert Tally([], Duplicate) == 0 && Tally([], Reordered) == 0 && TotalMissing([]) == 0;
  }

  ghost predicate Proper(h: History) {
    h.highest in h.seen && forall p :: p in h.seen ==> p <= h.highest
  }

  /** The second copy of a number just recorded, within the window. */
  lemma EchoGroup(c: Faults, h: History, n: uint64)
    requires Proper(h) && h.highest - WINDOW < n < h.highest + TWO_63 && 0 <= h.highest < TWO_64
    requires n > h.highest || n !in h.seen
    ensures var os := Watch(h, Group(c, n));
            && Seen(h, Group(c, n)) == History(Max(h.highest, n), h.seen + {n})
            && Verdicts(os, |Group(c, n)| - 1, One(n < h.highest), if n > h.highest then n - h.highest - 1 else 0)
  {
    var o, h1 := Verdict(h, n), Record(h, n);
    NewNumber(h, n);
    WatchOne(h, n);
    VerdictsOne(o);
    if Duplicated(c, n) {
      OldNumber(h1, n);
      WatchOne(h1, n);
      VerdictsOne(Observation(Duplicate, n, 0));
      hide Verdict, Record, Watch, Seen, Verdicts;
      WatchConcat(h, [n], [n]);
      assert [n] + [n] == [n, n];
      VerdictsConcat([o], [Observation(Duplicate, n, 0)], 0, One(n < h.highest), o.missing, 1, 0, 0);
    }
  }

  /** A number not seen before, near the highest. */
  lemma NewNumber(h: History, n: uint64)
    requires Proper(h) && h.highest - WINDOW < n < h.highest + TWO_63 && 0 <= h.highest < TWO_64
    requires n > h.highest || n !in h.seen
    ensures Record(h, n) == History(Max(h.highest, n), h.seen + {n})
    ensures var o := Verdict(h, n);
            && o.status in {InOrder, Gap, Reordered}
            && (o.status == Reordered <==> n < h.highest)
            && o.missing == (if n > h.highest then n - h.highest - 1 else 0)
  {
    PositionNear(h.highest, n);
  }

  /** A number seen before, near the highest. */
  lemma OldNumber(h: History, n: uint64)
    requires h.highest - WINDOW < n <= h.highest < TWO_64 && 0 <= h.highest && n in h.seen
    ensures Record(h, n) == h && Verdict(h, n) == Observation(Duplicate, n, 0)
  {
    PositionNear(h.highest, n);
    assert h.seen + {n} == h.seen;
  }

  lemma PositionNear(highest: int, n: uint64)
    requires highest - TWO_63 <= n < highest + TWO_63
    ensures Position(highest, n) == n
  {
  }

  /** The numbers that follow prev: increasing, and never more than two apart. */
  ghost predicate Chain(prev: int, xs: seq<nat>)
    decreases |xs|
  {
    xs == [] || (prev < xs[0] <= prev + 2 && Chain(xs[0], xs[1..]))
  }

  function Last(prev: int, xs: seq<nat>): int
    decreases |xs|
  {
    if xs == [] then prev else Last(xs[0], xs[1..])
  }

  lemma SwapBelow(c: Faults, xs: numbers)
    ensures forall i :: 0 <= i < |xs| ==> Swap(c, xs)[i] < TWO_64
  {
    SwapTransposes(c, xs);
    forall i: nat | i < |xs|
      ensures Swap(c, xs)[i] < TWO_64
    {
      assert StaysOrTrades(xs, Swap(c, xs), i);
    }
  }

  function Sent(c: Faults, xs: numbers): seq<uint64> {
    SwapBelow(c, xs);
    Echo(c, Swap(c, xs))
  }

  /** From any history that lies just behind: every extra copy is a duplicate, every swap one reordering,
      and what is inferred missing is what the stream advanced beyond its forward steps. */
  lemma {:induction false} WatchSent(c: Faults, h: History, xs: numbers)
    requires Proper(h) && 0 <= h.highest < TWO_64 && Chain(h.highest, xs)
    ensures Verdicts(Watch(h, Sent(c, xs)), |Sent(c, xs)| - |xs|, Swaps(c, xs),
                     Last(h.highest, xs) - h.highest - (|xs| - Swaps(c, xs)))
    decreases |xs|, 0
  {
    if xs == [] {
      assert Sent(c, xs) == [];
    } else if |xs| > 1 && Reorders(c, xs[0]) {
      SentSwap(c, xs);
      SwapThen(c, h, xs[1], xs[0], xs[2..]);
      assert Last(h.highest, xs) == Last(xs[1], xs[2..]) by {
        assert xs[1..][1..] == xs[2..];
      }
    } else {
      SentPlain(c, xs);
      PlainThen(c, h, xs[0], xs[1..]);
    }
  }

  lemma SentSwap(c: Faults, xs: numbers)
    requires |xs| > 1 && Reorders(c, xs[0])
    ensures Sent(c, xs) == Group(c, xs[1]) + (Group(c, xs[0]) + Sent(c, xs[2..]))
  {
    SwapBelow(c, xs[2..]);
    var rest: numbers := Swap(c, xs[2..]);
    var tail: numbers := [xs[0]] + rest;
    assert Swap(c, xs)[1..] == tail && tail[1..] == rest;
    assert Echo(c, tail) == Group(c, xs[0]) + Echo(c, rest);
  }

  lemma SentPlain(c: Faults, xs: numbers)
    requires xs != [] && !(|xs| > 1 && Reorders(c, xs[0]))
    ensures Sent(c, xs) == Group(c, xs[0]) + Sent(c, xs[1..])
  {
    assert ([xs[0]] + Swap(c, xs[1..]))[1..] == Swap(c, xs[1..]);
  }

  lemma PlainThen(c: Faults, h: History, x: uint64, rest: numbers)
    requires Proper(h) && 0 <= h.highest < x <= h.highest + 2 && Chain(x, rest)
    ensures var sent := Group(c, x) + Sent(c, rest);
            Verdicts(Watch(h, sent), |sent| - |rest| - 1, Swaps(c, rest),
                     Last(x, rest) - h.highest - (|rest| + 1 - Swaps(c, rest)))
    decreases |rest|, 1
  {
    var h1 := History(x, h.seen + {x});
    EchoGroup(c, h, x);
    WatchSent(c, h1, rest);
    WatchConcat(h, Group(c, x), Sent(c, rest));
    VerdictsConcat(Watch(h, Group(c, x)), Watch(h1, Sent(c, rest)),
                   |Group(c, x)| - 1, 0, x - h.highest - 1,
                   |Sent(c, rest)| - |rest|, Swaps(c, rest), Last(x, rest) - x - (|rest| - Swaps(c, rest)));
  }

  lemma SwapThen(c: Faults, h: History, x: uint64, late: uint64, rest: numbers)
    requires Proper(h) && 0 <= h.highest < late <= h.highest + 2 && late < x <= late + 2 && Chain(x, rest)
    ensures var sent := Group(c, x) + (Group(c, late) + Sent(c, rest));
            Verdicts(Watch(h, sent), |sent| - |rest| - 2, 1 + Swaps(c, rest),
                     Last(x, rest) - h.highest - (|rest| + 1 - Swaps(c, rest)))
    decreases |rest|, 2
  {
    var h1 := History(x, h.seen + {x});
    EchoGroup(c, h, x);
    LateThen(c, h1, late, rest);
    WatchConcat(h, Group(c, x), Group(c, late) + Sent(c, rest));
    VerdictsConcat(Watch(h, Group(c, x)), Watch(h1, Group(c, late) + Sent(c, rest)),
                   |Group(c, x)| - 1, 0, x - h.highest - 1,
                   |Group(c, late)| + |Sent(c, rest)| - |rest| - 1, 1 + Swaps(c, rest),
                   Last(x, rest) - x - (|rest| - Swaps(c, rest)));
  }

  /** The partner of a swap, sent just after the number that overtook it. */
  lemma LateThen(c: Faults, h: History, late: uint64, rest: numbers)
    requires Proper(h) && h.highest - 2 <= late < h.highest < TWO_64 && late !in h.seen
    requires Chain(h.highest, rest)
    ensures var sent := Group(c, late) + Sent(c, rest);
            Verdicts(Watch(h, sent), |sent| - |rest| - 1, 1 + Swaps(c, rest),
                     Last(h.highest, rest) - h.highest - (|rest| - Swaps(c, rest)))
    decreases |rest|, 1
  {
    var h2 := History(h.highest, h.seen + {late});
    EchoGroup(c, h, late);
    WatchSent(c, h2, rest);
    WatchConcat(h, Group(c, late), Sent(c, rest));
    VerdictsConcat(Watch(h, Group(c, late)), Watch(h2, Sent(c, rest)),
                   |Group(c, late)| - 1, 1, 0,
                   |Sent(c, rest)| - |rest|, Swaps(c, rest),
                   Last(h.highest, rest) - h.highest - (|rest| - Swaps(c, rest)));
  }

  /* ----- from the first packet on ----- */

  /** The first packet opens the stream; its extra copy, if any, is a duplicate. */
  lemma FirstThen(c: Faults, max: nat, s: SensorSource, first: uint64, rest: seq<uint64>, d: int, r: int, m: int)
    requires max > 0 && Verdicts(Watch(FirstHistory(first), rest), d, r, m)
    ensures Verdicts(Observations(max, FromSource(s, Group(c, first) + rest)), d + |Group(c, first)| - 1, r, m)
  {
    var h, opening := FirstHistory(first), Observation(First, first, 0);
    OneSource(max, s, Group(c, first) + rest);
    VerdictsOne(opening);
    if Duplicated(c, first) {
      PositionNear(first, first);
      assert h.seen + {first} == h.seen;
      var o := Verdict(h, first);
      assert (Group(c, first) + rest)[1..] == [first] + rest && ([first] + rest)[1..] == rest;
      VerdictsOne(o);
      VerdictsConcat([o], Watch(h, rest), 1, 0, 0, d, r, m);
      VerdictsConcat([opening], [o] + Watch(h, rest), 0, 0, 0, d + 1, r, m);
    } else {
      assert (Group(c, first) + rest)[1..] == rest;
      VerdictsConcat([opening], Watch(h, rest), 0, 0, 0, d, r, m);
    }
  }

  /** The whole stream of one simulator run. */
  lemma FromFirst(c: Faults, max: nat, s: SensorSource, xs: numbers)
    requires max > 0 && xs != [] && Chain(xs[0], xs[1..])
    ensures Verdicts(Observations(max, FromSource(s, Sent(c, xs))), |Sent(c, xs)| - |xs|, Swaps(c, xs),
                     Last(xs[0], xs[1..]) - Swap(c, xs)[0] - (|xs| - 1 - Swaps(c, xs)))
  {
    if |xs| > 1 && Reorders(c, xs[0]) {
      var rest := Group(c, xs[0]) + Sent(c, xs[2..]);
      SentSwap(c, xs);
      assert xs[1..][1..] == xs[2..];
      LateThen(c, FirstHistory(xs[1]), xs[0], xs[2..]);
      FirstThen(c, max, s, xs[1], rest, |rest| - |xs[2..]| - 1, 1 + Swaps(c, xs[2..]),
                Last(xs[1], xs[2..]) - xs[1] - (|xs[2..]| - Swaps(c, xs[2..])));
    } else {
      var rest := Sent(c, xs[1..]);
      SentPlain(c, xs);
      WatchSent(c, FirstHistory(xs[0]), xs[1..]);
      FirstThen(c, max, s, xs[0], rest, |rest| - |xs[1..]|, Swaps(c, xs[1..]),
                Last(xs[0], xs[1..]) - xs[0] - (|xs[1..]| - Swaps(c, xs[1..])));
    }
  }

  /* ----- the undropped numbers ----- */

  /** Unless everything is dropped, no two numbers in a row are. */
  lemma {:induction false} KeptChain(c: Faults, n: nat, count: nat)
    requires n > 0 && c.dropEvery != Some(1)
    ensures Chain(n - 1, KeptFrom(c, n, count))
    decreases count + 1 - n
  {
    if n <= count {
      if Dropped(c, n) {
        NextKept(c.dropEvery.value, n);
        if n + 1 <= count {
          KeptChain(c, n + 2, count);
          assert KeptFrom(c, n, count) == [n + 1] + KeptFrom(c, n + 2, count);
        }
      } else {
        KeptChain(c, n + 1, count);
      }
    }
  }

  lemma NextKept(k: nat, n: nat)
    requires k > 1 && n % k == 0
    ensures (n + 1) % k != 0
  {
    DivModUnique(n + 1, k, n / k, 1);
  }

  lemma {:induction false} AllDropped(c: Faults, n: nat, count: nat)
    requires c.dropEvery == Some(1)
    ensures KeptFrom(c, n, count) == []
    decreases count + 1 - n
  {
    if n <= count {
      AllDropped(c, n + 1, count);
    }
  }

  /** Behind the highest number kept, everything else was dropped. */
  lemma {:induction false} LastKept(c: Faults, n: nat, count: nat)
    requires n > 0
    ensures var last := Last(n - 1, KeptFrom(c, n, count));
            n - 1 <= last && KeptFrom(c, n, last) == KeptFrom(c, n, count)
    decreases count + 1 - n
  {
    if n <= count {
      LastKept(c, n + 1, count);
      var rest := KeptFrom(c, n + 1, count);
      if Dropped(c, n) && rest == [] {
        assert KeptFrom(c, n, n - 1) == [];
      }
    }
  }

  function Highest(c: Faults, count: nat): nat {
    LastKept(c, 1, count);
    Last(0, Kept(c, count))
  }

  /* ----- the theorem ----- */

  /** The datagram the simulator builds for each sequence number. */
  function SampleStream(sample: nat -> S.SensorPayload, ts: nat -> uint64): nat -> seq<byte>
    requires forall n :: S.Encode(sample(n)).Encoded?
  {
    (n: nat) => F.SampleDatagram(sample(n), n % TWO_64, ts(n))
  }

  /** Every datagram arrives once, in order, from one sender at one listener, and decodes. */
  ghost predicate Lossless(sent: seq<seq<byte>>, received: seq<ReceivedPacket>, source: Endpoint, listener: Endpoint) {
    && |received| == |sent|
    && forall i :: 0 <= i < |sent| ==>
         && P.Decode(sent[i]) == P.Decoded(received[i].packet)
         && received[i].source == source && received[i].listener == listener
  }

  /** The datagrams of a list of numbers, number by number. */
  lemma {:induction false} DatagramsEcho(c: Faults, datagram: nat -> seq<byte>, ns: numbers)
    requires c.corruptEvery == None
    ensures var ds := Datagrams(Prepared(c, datagram, ns));
            |ds| == |Echo(c, ns)| && forall i :: 0 <= i < |ds| ==> ds[i] == datagram(Echo(c, ns)[i])
  {
    if ns != [] {
      assert Prepared(c, datagram, ns)[1..] == Prepared(c, datagram, ns[1..]);
      DatagramsEcho(c, datagram, ns[1..]);
    }
  }

  /** The configuration of one run: finite, uncorrupted, one sensor type. */
  ghost predicate CleanRun(c: Faults, count: nat, sample: nat -> S.SensorPayload, t: MessageType, stop: StopOracle) {
    && c.corruptEvery == None
    && 0 < count <= MAX_64
    && Never(stop)
    && (forall n :: S.Encode(sample(n)).Encoded? && S.TypeOfPayload(sample(n)) == t)
  }

  lemma KeptBelow(c: Faults, count: nat)
    requires count <= MAX_64
    ensures forall i :: 0 <= i < |Kept(c, count)| ==> Kept(c, count)[i] < TWO_64
  {
    KeptIncreasing(c, 1, count);
  }

  /** What the tracker hears is the sent sequence of numbers, from one source. */
  lemma ArrivalsAreSent(c: Faults, count: nat, sample: nat -> S.SensorPayload, ts: nat -> uint64, t: MessageType,
                        stop: StopOracle, received: seq<ReceivedPacket>, source: Endpoint, listener: Endpoint)
    requires CleanRun(c, count, sample, t, stop)
    requires Lossless(Loop(c, count, SampleStream(sample, ts), stop, None, IDLE).sent, received, source, listener)
    ensures forall i :: 0 <= i < |Kept(c, count)| ==> Kept(c, count)[i] < TWO_64
    ensures ArrivalsOf(received) == FromSource(SensorSource(source, listener, t), Sent(c, Kept(c, count)))
  {
    hide Loop, P.Decode, F.SampleDatagram, Datagrams, Echo, Swap, S.Decode, S.Encode, S.TypeOfPayload;
    KeptBelow(c, count);
    var xs: numbers := Kept(c, count);
    var datagram := SampleStream(sample, ts);
    SwapBelow(c, xs);
    RunSends(c, count, datagram, stop);
    DatagramsEcho(c, datagram, Swap(c, xs));
    var sent, ns := Loop(c, count, datagram, stop, None, IDLE).sent, Sent(c, xs);
    forall i | 0 <= i < |sent|
      ensures ArrivalsOf(received)[i] == FromSource(SensorSource(source, listener, t), ns)[i]
    {
      var n := ns[i];
      assert sent[i] == datagram(n);
      SmallMod(n, TWO_64);
      F.SampleRoundTrip(sample(n), n, ts(n));
    }
  }

  lemma {:induction false} FewSwaps(c: Faults, xs: seq<nat>)
    requires xs != []
    ensures Swaps(c, xs) < |xs|
    decreases |xs|
  {
    if |xs| > 1 && Reorders(c, xs[0]) {
      if |xs| > 2 {
        FewSwaps(c, xs[2..]);
      }
    } else if |xs| > 1 {
      FewSwaps(c, xs[1..]);
    }
  }

  /** The kept numbers, their highest, and the first one sent. */
  lemma KeptShape(c: Faults, count: nat)
    requires count <= MAX_64 && Kept(c, count) != []
    ensures var xs := Kept(c, count);
            && Chain(xs[0], xs[1..])
            && Highest(c, count) == Last(xs[0], xs[1..])
            && 0 <= Highest(c, count) <= count
            && |xs| + DroppedFrom(c, 1, Highest(c, count)) == Highest(c, count)
            && Swap(c, xs)[0] >= 1
            && Swaps(c, xs) < |xs|
  {
    var xs := Kept(c, count);
    if c.dropEvery == Some(1) {
      AllDropped(c, 1, count);
    }
    KeptChain(c, 1, count);
    LastKept(c, 1, count);
    KeptOrDropped(c, 1, Highest(c, count));
    LastWithin(c, 1, count);
    KeptIncreasing(c, 1, count);
    SwapKeepsBound(c, xs, 1);
    FewSwaps(c, xs);
  }

  lemma {:induction false} LastWithin(c: Faults, n: nat, count: nat)
    requires 0 < n <= count + 1
    ensures Last(n - 1, KeptFrom(c, n, count)) <= count
    decreases count + 1 - n
  {
    if n <= count {
      LastWithin(c, n + 1, count);
    }
  }

  /** The tracker's counters after hearing the numbers of one run. */
  lemma SentObserved(c: Faults, count: nat, max: nat, s: SensorSource)
    requires 0 < count <= MAX_64 && max > 0
    ensures forall i :: 0 <= i < |Kept(c, count)| ==> Kept(c, count)[i] < TWO_64
    ensures var xs: numbers := Kept(c, count);
            var m := Run(max, FromSource(s, Sent(c, xs))).metrics;
            && m.packets == |Sent(c, xs)|
            && m.duplicate == |Sent(c, xs)| - |xs|
            && m.reordered == Swaps(c, xs)
            && (xs == [] ==> m.missing == 0)
            && (xs != [] ==> m.missing + Swap(c, xs)[0] == Swaps(c, xs) + DroppedFrom(c, 1, Highest(c, count)) + 1)
  {
    KeptBelow(c, count);
    var xs: numbers := Kept(c, count);
    Counters(max, FromSource(s, Sent(c, xs)));
    if xs == [] {
      assert Sent(c, xs) == [] && FromSource(s, Sent(c, xs)) == [];
    } else {
      KeptShape(c, count);
      FromFirst(c, max, s, xs);
    }
  }

  /** End to end, for every drop, duplicate and reorder configuration: the tracker counts the extra
      copies as duplicates and the swaps as reorderings, exactly.  What it infers missing is the swaps
      plus the numbers dropped behind the highest one sent, less the numbers before the first one sent,
      of which no receiver can know. */
  lemma FaultsObserved(c: Faults, count: nat, sample: nat -> S.SensorPayload, ts: nat -> uint64, t: MessageType,
                       stop: StopOracle, received: seq<ReceivedPacket>, source: Endpoint, listener: Endpoint, max: nat)
    requires CleanRun(c, count, sample, t, stop) && max > 0
    requires Lossless(Loop(c, count, SampleStream(sample, ts), stop, None, IDLE).sent, received, source, listener)
    ensures var summary := Loop(c, count, SampleStream(sample, ts), stop, None, IDLE).summary;
            var m := Run(max, ArrivalsOf(received)).metrics;
            && m.packets == summary.sent
            && m.duplicate == summary.duplicates
            && m.reordered == summary.reorderEvents
            && (Kept(c, count) == [] ==> m.missing == 0)
            && (Kept(c, count) != [] ==>
                  m.missing + Swap(c, Kept(c, count))[0]
                  == summary.reorderEvents + DroppedFrom(c, 1, Highest(c, count)) + 1)
  {
    hide *;
    CleanCount(c, count, sample, t, stop);
    var datagram, xs: seq<nat> := SampleStream(sample, ts), Kept(c, count);
    var sent := Loop(c, count, datagram, stop, None, IDLE).sent;
    ArrivalsAreSent(c, count, sample, ts, t, stop, received, source, listener);
    SentObserved(c, count, max, SensorSource(source, listener, t));
    SentAccounting(c, count, datagram, stop);
    KeptOrDropped(c, 1, count);
    LosslessLength(sent, received, source, listener);
    assert xs == KeptFrom(c, 1, count) by {
      KeptIsKeptFrom(c, count);
    }
  }

  lemma CleanCount(c: Faults, count: nat, sample: nat -> S.SensorPayload, t: MessageType, stop: StopOracle)
    requires CleanRun(c, count, sample, t, stop)
    ensures 0 < count <= MAX_64 && Never(stop) && forall n :: S.Encode(sample(n)).Encoded?
  {
  }

  lemma KeptIsKeptFrom(c: Faults, count: nat)
    ensures Kept(c, count) == KeptFrom(c, 1, count)
  {
  }

  lemma LosslessLength(sent: seq<seq<byte>>, received: seq<ReceivedPacket>, source: Endpoint, listener: Endpoint)
    requires Lossless(sent, received, source, listener)
    ensures |received| == |sent|
  {
  }

  /** The inferred count is the swaps plus the drops behind the highest number exactly when the first
      number sent is number 1: if not everything is dropped, and number 1 is not held back and overtaken. */
  lemma MissingExactlyWhen(c: Faults, count: nat, max: nat, s: SensorSource)
    requires 0 < count <= MAX_64 && max > 0
    ensures forall i :: 0 <= i < |Kept(c, count)| ==> Kept(c, count)[i] < TWO_64
    ensures var xs: numbers := Kept(c, count);
            xs != [] ==>
              (Run(max, FromSource(s, Sent(c, xs))).metrics.missing == Swaps(c, xs) + DroppedFrom(c, 1, Highest(c, count))
               <==> c.reorderEvery != Some(1) || |xs| == 1)
  {
    SentObserved(c, count, max, s);
    var xs: seq<nat> := Kept(c, count);
    if xs != [] {
      FirstKept(c, count);
      KeptIncreasing(c, 1, count);
      if c.reorderEvery.Some? && c.reorderEvery.value > 1 {
        SmallMod(1, c.reorderEvery.value);
      }
    }
  }

  /** The configurations that keep at most one number. */
  predicate AtMostOneKept(c: Faults, count: nat) {
    count <= 1 || c.dropEvery == Some(1) || (c.dropEvery == Some(2) && count == 2)
  }

  lemma KeptAtMostOne(c: Faults, count: nat)
    ensures |Kept(c, count)| <= 1 <==> AtMostOneKept(c, count)
  {
    if c.dropEvery == Some(1) {
      AllDropped(c, 1, count);
    } else if count >= 3 && c.dropEvery == Some(2) {
      assert 1 % 2 == 1 && 2 % 2 == 0 && 3 % 2 == 1;
      assert KeptFrom(c, 1, count) == [1] + KeptFrom(c, 2, count);
      assert KeptFrom(c, 2, count) == KeptFrom(c, 3, count) == [3] + KeptFrom(c, 4, count);
    } else if count >= 2 && c.dropEvery != Some(2) {
      if c.dropEvery.Some? {
        SmallMod(1, c.dropEvery.value);
        SmallMod(2, c.dropEvery.value);
      }
      assert KeptFrom(c, 1, count) == [1] + KeptFrom(c, 2, count);
      assert KeptFrom(c, 2, count) == [2] + KeptFrom(c, 3, count);
    } else if count == 2 {
      assert 1 % 2 == 1 && 2 % 2 == 0;
      assert KeptFrom(c, 1, 2) == [1] + KeptFrom(c, 2, 2) && KeptFrom(c, 2, 2) == KeptFrom(c, 3, 2) == [];
    } else if count == 1 {
      assert |KeptFrom(c, 1, 1)| <= 1 + |KeptFrom(c, 2, 1)| && KeptFrom(c, 2, 1) == [];
    }
  }

  /** The same of a simulator run and of a tracker that hears it: the inferred count is the reorder events
      plus the drops behind the highest number, unless the reorder interval is 1 and more than one number
      is kept. */
  lemma MissingInRunExactlyWhen(c: Faults, count: nat, sample: nat -> S.SensorPayload, ts: nat -> uint64, t: MessageType,
                                stop: StopOracle, received: seq<ReceivedPacket>, source: Endpoint, listener: Endpoint,
                                max: nat)
    requires CleanRun(c, count, sample, t, stop) && max > 0
    requires Lossless(Loop(c, count, SampleStream(sample, ts), stop, None, IDLE).sent, received, source, listener)
    ensures var summary := Loop(c, count, SampleStream(sample, ts), stop, None, IDLE).summary;
            Run(max, ArrivalsOf(received)).metrics.missing
              == summary.reorderEvents + DroppedFrom(c, 1, Highest(c, count))
            <==> c.reorderEvery != Some(1) || AtMostOneKept(c, count)
  {
    hide *;
    CleanCount(c, count, sample, t, stop);
    ArrivalsAreSent(c, count, sample, ts, t, stop, received, source, listener);
    FaultsObserved(c, count, sample, ts, t, stop, received, source, listener, max);
    SentAccounting(c, count, SampleStream(sample, ts), stop);
    KeptAtMostOne(c, count);
    if Kept(c, count) == [] {
      NothingKept(c, count);
    } else {
      MissingExactlyWhen(c, count, max, SensorSource(source, listener, t));
    }
  }

  lemma NothingKept(c: Faults, count: nat)
    requires Kept(c, count) == []
    ensures Swaps(c, Kept(c, count)) == 0 && DroppedFrom(c, 1, Highest(c, count)) == 0
  {
  }

  lemma {:induction false} NothingDroppedUnlessAsked(c: Faults, n: nat, count: nat)
    ensures c.dropEvery == None ==> DroppedFrom(c, n, count) == 0
    decreases count + 1 - n
  {
    if n <= count {
      NothingDroppedUnlessAsked(c, n + 1, count);
    }
  }

  /** An input on which the plain equation fails: with a reorder interval of 1, two packets arrive as 2, 1,
      and the tracker infers nothing missing although there was a reorder event. */
  lemma ReorderedFirst(max: nat, s: SensorSource)
    requires max > 0
    ensures var c: Faults := FaultConfig(None, None, Some(1), None, None);
            && Kept(c, 2) == [1, 2] && Sent(c, [1, 2]) == [2, 1]
            && Swaps(c, [1, 2]) == 1
            && Run(max, FromSource(s, [2, 1])).metrics.missing == 0
  {
    var c: Faults := FaultConfig(None, None, Some(1), None, None);
    assert KeptFrom(c, 2, 2) == [2] + KeptFrom(c, 3, 2);
    assert Swaps(c, [1, 2]) == 1 + Swaps(c, [1, 2][2..]);
    assert Swap(c, [1, 2]) == [2, 1] + Swap(c, [1, 2][2..]);
    assert Echo(c, [2, 1]) == [2] + Echo(c, [2, 1][1..]);
    assert Echo(c, [1]) == [1] + Echo(c, [1][1..]);
    assert Sent(c, [1, 2]) == [2, 1];
    hide *;
    SentObserved(c, 2, max, s);
    NothingDroppedUnlessAsked(c, 1, Highest(c, 2));
  }

  /** The simulator's own datagrams of different numbers differ, corrupted or not. */
  lemma StreamDistinguishable(c: Faults, count: nat, sample: nat -> S.SensorPayload, ts: nat -> uint64)
    requires count <= MAX_64 && forall n :: S.Encode(sample(n)).Encoded?
    ensures Distinguishable(c, count, SampleStream(sample, ts))
  {
    hide F.SampleDatagram, S.Encode, P.Corrupted, W.FromBigEndian;
    var datagram := SampleStream(sample, ts);
    forall i: nat, j: nat | 1 <= i < j <= count
      ensures Prepare(c, i, datagram(i)).bytes != Prepare(c, j, datagram(j)).bytes
    {
      NumberInBytes(c, sample(i), i, ts(i));
      NumberInBytes(c, sample(j), j, ts(j));
    }
  }

  /** The sequence number can be read off the prepared bytes. */
  lemma NumberInBytes(c: Faults, p: S.SensorPayload, n: uint64, timestamp: uint64)
    requires S.Encode(p).Encoded?
    ensures var bytes := Prepare(c, n, F.SampleDatagram(p, n % TWO_64, timestamp)).bytes;
            |bytes| > 16 && W.FromBigEndian(bytes[8..16]) == n
  {
    hide P.FlipLow, P.DatagramCrc, S.Encode;
    SmallMod(n, TWO_64);
    var d := F.SampleDatagram(p, n, timestamp);
    S.DecodeEncoded(p);
    P.DatagramFields(P.Code(S.TypeOfPayload(p)), n, timestamp, S.Encode(p).bytes);
    if |d| > 32 {
      assert P.Corrupted(d)[8..16] == d[8..16];
    }
  }

  /** For a run of the simulator itself: what it sends is a prefix of its plan exactly if it does not let
      the held packet out early. */
  lemma RunIsPrefixExactlyWhen(c: Faults, count: nat, sample: nat -> S.SensorPayload, ts: nat -> uint64, stop: StopOracle)
    requires 0 < count <= MAX_64 && forall n :: S.Encode(sample(n)).Encoded?
    ensures Loop(c, count, SampleStream(sample, ts), stop, None, IDLE).sent
              <= Datagrams(Plan(c, count, SampleStream(sample, ts)))
            <==> !FlushesEarly(c, count, stop)
  {
    hide *;
    StreamDistinguishable(c, count, sample, ts);
    PrefixExactlyWhen(c, count, SampleStream(sample, ts), stop);
  }

  /** A run whose datagrams are not a prefix: two packets, reorder interval 1, and one stop answer between
      them that is taken back. */
  lemma EarlyFlushIsNoPrefix(sample: nat -> S.SensorPayload, ts: nat -> uint64)
    requires forall n :: S.Encode(sample(n)).Encoded?
    ensures var c: Faults := FaultConfig(None, None, Some(1), None, None);
            var datagram, stop := SampleStream(sample, ts), StopOnce(2);
            !(Loop(c, 2, datagram, stop, None, IDLE).sent <= Datagrams(Plan(c, 2, datagram)))
  {
    hide Loop, Datagrams, Plan, EarlyFlush, S.Encode, F.SampleDatagram;
    var c: Faults := FaultConfig(None, None, Some(1), None, None);
    EarlyFlushHappens();
    RunIsPrefixExactlyWhen(c, 2, sample, ts, StopOnce(2));
  }

  lemma FirstKept(c: Faults, count: nat)
    requires Kept(c, count) != []
    ensures Kept(c, count)[0] == 1 && c.dropEvery != Some(1)
  {
    if c.dropEvery == Some(1) {
      AllDropped(c, 1, count);
    } else if c.dropEvery.Some? {
      SmallMod(1, c.dropEvery.value);
    }
  }
}
