/** The end-to-end account for every fault configuration, corruption included. */
module CorruptedRuns {
  import opened Words
  import opened Types
  import opened Tracker
  import opened TrackerRuns
  import opened Simulator
  import opened SimulatorRuns
  import opened EndToEnd

  predicate Corrupts(c: Faults, n: nat) { MatchesInterval(c.corruptEvery, n) }

  /** The numbers that corruption spares. */
  function Clear(c: Faults, ns: numbers): (r: numbers)
    ensures |r| <= |ns|
  {
    if ns == [] then []
    else if Corrupts(c, ns[0]) then Clear(c, ns[1..])
    else [ns[0]] + Clear(c, ns[1..])
  }

  lemma {:induction false} ClearConcat(c: Faults, a: numbers, b: numbers)
    ensures forall i :: 0 <= i < |a + b| ==> (a + b)[i] < TWO_64
    ensures Clear(c, a + b) == Clear(c, a) + Clear(c, b)
    decreases |a|
  {
    if a == [] {
      assert a + b == b;
    } else {
      assert (a + b)[1..] == a[1..] + b;
      ClearConcat(c, a[1..], b);
    }
  }

  lemma ClearGroup(c: Faults, n: uint64)
    ensures Clear(c, Group(c, n)) == if Corrupts(c, n) then [] else Group(c, n)
  {
    hide MatchesInterval;
    assert Clear(c, [n]) == (if Corrupts(c, n) then [] else [n] + Clear(c, [n][1..]));
    if Duplicated(c, n) {
      assert [n, n][1..] == [n];
      assert Clear(c, [n, n]) == if Corrupts(c, n) then Clear(c, [n]) else [n] + Clear(c, [n]);
    }
  }

  /** What a receiver that rejects corrupted packets hears of the kept numbers xs. */
  function Heard(c: Faults, xs: numbers): (r: numbers) {
    Clear(c, Sent(c, xs))
  }

  /** The swaps of which both packets are heard. */
  function ClearSwaps(c: Faults, xs: seq<nat>): nat {
    if xs == [] then 0
    else if |xs| > 1 && Reorders(c, xs[0])
    then One(!Corrupts(c, xs[0]) && !Corrupts(c, xs[1])) + ClearSwaps(c, xs[2..])
    else ClearSwaps(c, xs[1..])
  }

  /** Increasing, and never more than four apart. */
  ghost predicate Spread(prev: int, xs: seq<nat>)
    decreases |xs|
  {
    xs == [] || (prev < xs[0] <= prev + 4 && Spread(xs[0], xs[1..]))
  }

  /** Neighbours are at most two apart. */
  ghost predicate Pairs(xs: seq<nat>) {
    xs != [] ==> Chain(xs[0], xs[1..])
  }

  lemma HeardSwap(c: Faults, xs: numbers)
    requires |xs| > 1 && Reorders(c, xs[0])
    ensures Heard(c, xs) == Clear(c, Group(c, xs[1])) + (Clear(c, Group(c, xs[0])) + Heard(c, xs[2..]))
  {
    hide Clear, Group, Sent;
    SentSwap(c, xs);
    ClearConcat(c, Group(c, xs[0]), Sent(c, xs[2..]));
    ClearConcat(c, Group(c, xs[1]), Group(c, xs[0]) + Sent(c, xs[2..]));
  }

  lemma HeardPlain(c: Faults, xs: numbers)
    requires xs != [] && !(|xs| > 1 && Reorders(c, xs[0]))
    ensures Heard(c, xs) == Clear(c, Group(c, xs[0])) + Heard(c, xs[1..])
  {
    hide Clear, Group, Sent;
    SentPlain(c, xs);
    ClearConcat(c, Group(c, xs[0]), Sent(c, xs[1..]));
  }

  /** One more number heard, new to the tracker and near the highest. */
  lemma OneThen(c: Faults, h: History, n: uint64, tail: seq<uint64>, d: int, r: int, m: int)
    requires Proper(h) && h.highest - WINDOW < n < h.highest + TWO_63 && 0 <= h.highest < TWO_64
    requires n > h.highest || n !in h.seen
    requires Verdicts(Watch(History(Max(h.highest, n), h.seen + {n}), tail), d, r, m)
    ensures Verdicts(Watch(h, Group(c, n) + tail), d + |Group(c, n)| - 1, r + One(n < h.highest),
                     m + if n > h.highest then n - h.highest - 1 else 0)
  {
    hide Watch, Seen, Verdicts, Group;
    EchoGroup(c, h, n);
    WatchConcat(h, Group(c, n), tail);
    VerdictsConcat(Watch(h, Group(c, n)), Watch(History(Max(h.highest, n), h.seen + {n}), tail),
                   |Group(c, n)| - 1, One(n < h.highest), if n > h.highest then n - h.highest - 1 else 0, d, r, m);
  }

  /** From any history that lies just behind: extra copies heard are duplicates, swaps heard are
      reorderings, and what is inferred missing is what the stream advanced beyond its forward steps. */
  lemma {:induction false} WatchHeard(c: Faults, h: History, xs: numbers)
    requires Proper(h) && 0 <= h.highest < TWO_64 && Pairs(xs) && Spread(h.highest, Clear(c, xs))
    ensures Verdicts(Watch(h, Heard(c, xs)), |Heard(c, xs)| - |Clear(c, xs)|, ClearSwaps(c, xs),
                     Last(h.highest, Clear(c, xs)) - h.highest - (|Clear(c, xs)| - ClearSwaps(c, xs)))
    decreases |xs|
  {
    hide *;
    if xs == [] {
      WatchNothing(c, h);
    } else if |xs| > 1 && Reorders(c, xs[0]) {
      PairThen(c, h, xs);
    } else {
      PlainHeard(c, h, xs);
    }
  }

  lemma WatchNothing(c: Faults, h: History)
    ensures Verdicts(Watch(h, Heard(c, [])), |Heard(c, [])| - |Clear(c, [])|, ClearSwaps(c, []),
                     Last(h.highest, Clear(c, [])) - h.highest - (|Clear(c, [])| - ClearSwaps(c, [])))
  {
    assert Sent(c, []) == [] && Heard(c, []) == [];
  }

  /** What is heard of the first kept number. */
  lemma PlainSplit(c: Faults, xs: numbers)
    requires xs != [] && !(|xs| > 1 && Reorders(c, xs[0])) && Pairs(xs)
    ensures var n, rest := xs[0], xs[1..];
            && Pairs(rest) && ClearSwaps(c, xs) == ClearSwaps(c, rest)
            && Heard(c, xs) == (if Corrupts(c, n) then [] else Group(c, n)) + Heard(c, rest)
            && |Clear(c, xs)| == (if Corrupts(c, n) then 0 else 1) + |Clear(c, rest)|
            && (forall h: int :: Spread(h, Clear(c, xs)) ==>
                  if Corrupts(c, n) then Spread(h, Clear(c, rest)) else h < n <= h + 4 && Spread(n, Clear(c, rest)))
            && (forall h: int :: Last(h, Clear(c, xs)) == Last(if Corrupts(c, n) then h else n, Clear(c, rest)))
  {
    hide Corrupts, Heard, Group, Reorders;
    HeardPlain(c, xs);
    ClearGroup(c, xs[0]);
    if !Corrupts(c, xs[0]) {
      assert Clear(c, xs)[1..] == Clear(c, xs[1..]);
    }
  }

  lemma ProperNext(h: History, n: int)
    requires Proper(h)
    ensures n > h.highest ==> Proper(History(n, h.seen + {n}))
    ensures n <= h.highest ==> Proper(History(h.highest, h.seen + {n}))
  {
  }

  lemma PlainHeard(c: Faults, h: History, xs: numbers)
    requires Proper(h) && 0 <= h.highest < TWO_64 && Pairs(xs) && Spread(h.highest, Clear(c, xs))
    requires xs != [] && !(|xs| > 1 && Reorders(c, xs[0]))
    ensures Verdicts(Watch(h, Heard(c, xs)), |Heard(c, xs)| - |Clear(c, xs)|, ClearSwaps(c, xs),
                     Last(h.highest, Clear(c, xs)) - h.highest - (|Clear(c, xs)| - ClearSwaps(c, xs)))
    decreases |xs|, 0
  {
    hide Watch, Verdicts, Heard, Group, ClearSwaps, Corrupts, Clear, Spread, Pairs, Last, Proper, Reorders;
    var n, rest := xs[0], xs[1..];
    PlainSplit(c, xs);
    if Corrupts(c, n) {
      assert [] + Heard(c, rest) == Heard(c, rest);
      WatchHeard(c, h, rest);
    } else {
      ProperNext(h, n);
      WatchHeard(c, History(n, h.seen + {n}), rest);
      OneThen(c, h, n, Heard(c, rest), |Heard(c, rest)| - |Clear(c, rest)|, ClearSwaps(c, rest),
              Last(n, Clear(c, rest)) - n - (|Clear(c, rest)| - ClearSwaps(c, rest)));
    }
  }

  lemma PairThen(c: Faults, h: History, xs: numbers)
    requires Proper(h) && 0 <= h.highest < TWO_64 && Pairs(xs) && Spread(h.highest, Clear(c, xs))
    requires |xs| > 1 && Reorders(c, xs[0])
    ensures Verdicts(Watch(h, Heard(c, xs)), |Heard(c, xs)| - |Clear(c, xs)|, ClearSwaps(c, xs),
                     Last(h.highest, Clear(c, xs)) - h.highest - (|Clear(c, xs)| - ClearSwaps(c, xs)))
    decreases |xs|, 1
  {
    hide Watch, Verdicts, Heard, Group, ClearSwaps, Corrupts, Clear, Spread, Pairs, Last, Proper, Reorders;
    var late, n, rest := xs[0], xs[1], xs[2..];
    PairSplit(c, xs);
    var d, r := |Heard(c, rest)| - |Clear(c, rest)|, ClearSwaps(c, rest);
    var k := |Clear(c, rest)| - r;
    if Corrupts(c, n) && Corrupts(c, late) {
      WatchHeard(c, h, rest);
      assert [] + ([] + Heard(c, rest)) == Heard(c, rest);
    } else if Corrupts(c, late) {
      ProperNext(h, n);
      WatchHeard(c, History(n, h.seen + {n}), rest);
      assert [] + Heard(c, rest) == Heard(c, rest);
      OneThen(c, h, n, Heard(c, rest), d, r, Last(n, Clear(c, rest)) - n - k);
    } else if Corrupts(c, n) {
      ProperNext(h, late);
      WatchHeard(c, History(late, h.seen + {late}), rest);
      assert [] + (Group(c, late) + Heard(c, rest)) == Group(c, late) + Heard(c, rest);
      OneThen(c, h, late, Heard(c, rest), d, r, Last(late, Clear(c, rest)) - late - k);
    } else {
      BothThen(c, h, xs);
    }
  }

  lemma BothThen(c: Faults, h: History, xs: numbers)
    requires Proper(h) && 0 <= h.highest < TWO_64 && Pairs(xs) && Spread(h.highest, Clear(c, xs))
    requires |xs| > 1 && Reorders(c, xs[0]) && !Corrupts(c, xs[0]) && !Corrupts(c, xs[1])
    ensures Verdicts(Watch(h, Heard(c, xs)), |Heard(c, xs)| - |Clear(c, xs)|, ClearSwaps(c, xs),
                     Last(h.highest, Clear(c, xs)) - h.highest - (|Clear(c, xs)| - ClearSwaps(c, xs)))
    decreases |xs|, 0
  {
    hide Watch, Verdicts, Heard, Group, ClearSwaps, Corrupts, Clear, Spread, Pairs, Last, Reorders;
    var late, n, rest := xs[0], xs[1], xs[2..];
    PairSplit(c, xs);
    var d, r := |Heard(c, rest)| - |Clear(c, rest)|, ClearSwaps(c, rest);
    var k := |Clear(c, rest)| - r;
    assert late !in h.seen;
    var h1 := History(n, h.seen + {n});
    ProperNext(h, n);
    ProperNext(h1, late);
    WatchHeard(c, History(n, h1.seen + {late}), rest);
    OneThen(c, h1, late, Heard(c, rest), d, r, Last(n, Clear(c, rest)) - n - k);
    OneThen(c, h, n, Group(c, late) + Heard(c, rest), d + |Group(c, late)| - 1, r + 1, Last(n, Clear(c, rest)) - n - k);
  }

  /** What is heard of the first two kept numbers. */
  lemma PairSplit(c: Faults, xs: numbers)
    requires |xs| > 1 && Reorders(c, xs[0]) && Pairs(xs)
    ensures var late, n, rest := xs[0], xs[1], xs[2..];
            && late < n <= late + 2 && Pairs(rest)
            && Heard(c, xs) == (if Corrupts(c, n) then [] else Group(c, n))
                               + ((if Corrupts(c, late) then [] else Group(c, late)) + Heard(c, rest))
            && |Clear(c, xs)| == (if Corrupts(c, late) then 0 else 1) + (if Corrupts(c, n) then 0 else 1) + |Clear(c, rest)|
            && ClearSwaps(c, xs) == One(!Corrupts(c, late) && !Corrupts(c, n)) + ClearSwaps(c, rest)
            && (forall h: int :: Spread(h, Clear(c, xs)) ==>
                  if Corrupts(c, late) && Corrupts(c, n) then Spread(h, Clear(c, rest))
                  else if Corrupts(c, n) then h < late <= h + 4 && Spread(late, Clear(c, rest))
                  else (h < late || Corrupts(c, late)) && h < n <= h + 8 && Spread(n, Clear(c, rest)))
            && (forall h: int :: Last(h, Clear(c, xs))
                  == if !Corrupts(c, n) then Last(n, Clear(c, rest))
                     else if !Corrupts(c, late) then Last(late, Clear(c, rest))
                     else Last(h, Clear(c, rest)))
  {
    hide Corrupts, Heard, Group, Reorders, Spread, Last;
    var late, n, rest := xs[0], xs[1], xs[2..];
    HeardSwap(c, xs);
    ClearGroup(c, late);
    ClearGroup(c, n);
    assert xs[1..][1..] == rest;
    var some, all := Clear(c, xs[1..]), Clear(c, xs);
    assert some == if Corrupts(c, n) then Clear(c, rest) else [n] + Clear(c, rest);
    assert all == if Corrupts(c, late) then some else [late] + some;
    assert ClearSwaps(c, xs) == One(!Corrupts(c, late) && !Corrupts(c, n)) + ClearSwaps(c, rest);
    PairsRest(xs);
    assert |all| == (if Corrupts(c, late) then 0 else 1) + (if Corrupts(c, n) then 0 else 1) + |Clear(c, rest)|;
    hide Clear, ClearSwaps;
    forall h: int
      ensures Last(h, all) == if !Corrupts(c, n) then Last(n, Clear(c, rest))
                              else if !Corrupts(c, late) then Last(late, Clear(c, rest))
                              else Last(h, Clear(c, rest))
      ensures Spread(h, all) ==>
                if Corrupts(c, late) && Corrupts(c, n) then Spread(h, Clear(c, rest))
                else if Corrupts(c, n) then h < late <= h + 4 && Spread(late, Clear(c, rest))
                else (h < late || Corrupts(c, late)) && h < n <= h + 8 && Spread(n, Clear(c, rest))
    {
      Step(h, late, some);
      Step(h, n, Clear(c, rest));
      Step(late, n, Clear(c, rest));
    }
  }

  lemma PairsRest(xs: seq<nat>)
    requires |xs| > 1 && Pairs(xs)
    ensures xs[0] < xs[1] <= xs[0] + 2 && Pairs(xs[2..])
  {
    var tail, rest := xs[1..], xs[2..];
    assert tail[1..] == rest;
    assert Chain(xs[0], tail);
    assert Chain(tail[0], rest);
    if rest != [] {
      assert Chain(rest[0], rest[1..]);
    }
  }

  lemma Step(h: int, x: nat, rest: seq<nat>)
    ensures Spread(h, [x] + rest) <==> h < x <= h + 4 && Spread(x, rest)
    ensures Last(h, [x] + rest) == Last(x, rest)
  {
    assert ([x] + rest)[1..] == rest;
  }

  /* ----- from the first packet heard on ----- */

  /** The whole stream that the tracker hears of one simulator run. */
  lemma {:induction false} HeardFromFirst(c: Faults, max: nat, s: SensorSource, xs: numbers)
    requires max > 0 && Pairs(xs) && Clear(c, xs) != [] && Spread(0, Clear(c, xs))
    ensures Heard(c, xs) != []
    ensures Verdicts(Observations(max, FromSource(s, Heard(c, xs))), |Heard(c, xs)| - |Clear(c, xs)|, ClearSwaps(c, xs),
                     Last(0, Clear(c, xs)) - Heard(c, xs)[0] - (|Clear(c, xs)| - 1 - ClearSwaps(c, xs)))
    decreases |xs|
  {
    hide Watch, Verdicts, Heard, ClearSwaps, Corrupts, Spread, Pairs, Last, Reorders, Observations, FromSource;
    if |xs| > 1 && Reorders(c, xs[0]) {
      hide Clear;
      FirstPair(c, max, s, xs);
    } else {
      var n, rest := xs[0], xs[1..];
      PlainSplit(c, xs);
      if Corrupts(c, n) {
        assert [] + Heard(c, rest) == Heard(c, rest) && Clear(c, xs) == Clear(c, rest);
        HeardFromFirst(c, max, s, rest);
      } else {
        hide Clear;
        WatchHeard(c, FirstHistory(n), rest);
        FirstThen(c, max, s, n, Heard(c, rest), |Heard(c, rest)| - |Clear(c, rest)|, ClearSwaps(c, rest),
                  Last(n, Clear(c, rest)) - n - (|Clear(c, rest)| - ClearSwaps(c, rest)));
        GroupFirst(c, n, Heard(c, rest));
      }
    }
  }

  lemma GroupFirst(c: Faults, n: uint64, rest: seq<uint64>)
    ensures (Group(c, n) + rest)[0] == n
  {
  }

  lemma FirstPair(c: Faults, max: nat, s: SensorSource, xs: numbers)
    requires max > 0 && Pairs(xs) && Clear(c, xs) != [] && Spread(0, Clear(c, xs))
    requires |xs| > 1 && Reorders(c, xs[0])
    ensures Heard(c, xs) != []
    ensures Verdicts(Observations(max, FromSource(s, Heard(c, xs))), |Heard(c, xs)| - |Clear(c, xs)|, ClearSwaps(c, xs),
                     Last(0, Clear(c, xs)) - Heard(c, xs)[0] - (|Clear(c, xs)| - 1 - ClearSwaps(c, xs)))
    decreases |xs|, 0
  {
    hide Watch, Verdicts, Heard, ClearSwaps, Corrupts, Spread, Pairs, Last, Reorders, Observations, FromSource, Group;
    var late, n, rest := xs[0], xs[1], xs[2..];
    PairSplit(c, xs);
    var d, r := |Heard(c, rest)| - |Clear(c, rest)|, ClearSwaps(c, rest);
    var k := |Clear(c, rest)| - r;
    if Corrupts(c, n) && Corrupts(c, late) {
      assert [] + ([] + Heard(c, rest)) == Heard(c, rest);
      assert xs[1..][1..] == rest;
      assert Clear(c, xs) == Clear(c, xs[1..]) == Clear(c, rest);
      hide Clear;
      HeardFromFirst(c, max, s, rest);
    } else {
      hide Clear;
      if Corrupts(c, late) {
        WatchHeard(c, FirstHistory(n), rest);
        assert [] + Heard(c, rest) == Heard(c, rest);
        FirstThen(c, max, s, n, Heard(c, rest), d, r, Last(n, Clear(c, rest)) - n - k);
        GroupFirst(c, n, Heard(c, rest));
      } else if Corrupts(c, n) {
        WatchHeard(c, FirstHistory(late), rest);
        assert [] + (Group(c, late) + Heard(c, rest)) == Group(c, late) + Heard(c, rest);
        FirstThen(c, max, s, late, Heard(c, rest), d, r, Last(late, Clear(c, rest)) - late - k);
        GroupFirst(c, late, Heard(c, rest));
      } else {
        var h1 := FirstHistory(n);
        ProperNext(h1, late);
        WatchHeard(c, History(n, h1.seen + {late}), rest);
        OneThen(c, h1, late, Heard(c, rest), d, r, Last(n, Clear(c, rest)) - n - k);
        FirstThen(c, max, s, n, Group(c, late) + Heard(c, rest), d + |Group(c, late)| - 1, r + 1,
                  Last(n, Clear(c, rest)) - n - k);
        GroupFirst(c, n, Group(c, late) + Heard(c, rest));
      }
    }
  }

  /* ----- the numbers that are heard ----- */

  /** Numbers that reach no tracker: dropped, or sent corrupted. */
  predicate Lost(c: Faults, n: nat) {
    Dropped(c, n) || Corrupts(c, n)
  }

  function LostFrom(c: Faults, n: nat, count: nat): nat
    decreases count + 1 - n
  {
    if n > count then 0 else One(Lost(c, n)) + LostFrom(c, n + 1, count)
  }

  /** The numbers from n to count that are heard. */
  function HeardFrom(c: Faults, n: nat, count: nat): seq<nat>
    decreases count + 1 - n
  {
    if n > count then []
    else if Lost(c, n) then HeardFrom(c, n + 1, count)
    else [n] + HeardFrom(c, n + 1, count)
  }

  lemma {:induction false} ClearKept(c: Faults, n: nat, count: nat)
    requires count <= MAX_64
    ensures forall i :: 0 <= i < |KeptFrom(c, n, count)| ==> KeptFrom(c, n, count)[i] < TWO_64
    ensures Clear(c, KeptFrom(c, n, count)) == HeardFrom(c, n, count)
    decreases count + 1 - n
  {
    if n <= count {
      ClearKept(c, n + 1, count);
      if !Dropped(c, n) {
        assert KeptFrom(c, n, count)[1..] == KeptFrom(c, n + 1, count);
      }
    }
  }

  lemma {:induction false} HeardOrLost(c: Faults, n: nat, count: nat)
    requires n <= count + 1
    ensures |HeardFrom(c, n, count)| + LostFrom(c, n, count) == count + 1 - n
    decreases count + 1 - n
  {
    if n <= count {
      HeardOrLost(c, n + 1, count);
    }
  }

  /** Unless one rule takes every number, no four numbers in a row are lost. */
  lemma OneOfFourHeard(c: Faults, n: nat)
    requires c.dropEvery != Some(1) && c.corruptEvery != Some(1)
    ensures !(Lost(c, n) && Lost(c, n + 1) && Lost(c, n + 2) && Lost(c, n + 3))
  {
    NotTwice(c.dropEvery, n);
    NotTwice(c.dropEvery, n + 1);
    NotTwice(c.dropEvery, n + 2);
    NotTwice(c.corruptEvery, n);
    NotTwice(c.corruptEvery, n + 1);
    NotTwice(c.corruptEvery, n + 2);
    EveryOther(c.dropEvery, n);
    EveryOther(c.dropEvery, n + 1);
    EveryOther(c.corruptEvery, n);
    EveryOther(c.corruptEvery, n + 1);
    hide MatchesInterval;
    assert n % 2 != 0 || (n + 1) % 2 != 0;
  }

  lemma NotTwice(interval: Option<nat>, n: nat)
    requires interval.Some? ==> interval.value > 1
    ensures !(MatchesInterval(interval, n) && MatchesInterval(interval, n + 1))
  {
    if MatchesInterval(interval, n) {
      NextKept(interval.value, n);
    }
  }

  /** Only an interval of 2 selects two numbers two apart. */
  lemma EveryOther(interval: Option<nat>, n: nat)
    requires interval.Some? ==> interval.value > 1
    ensures MatchesInterval(interval, n) && MatchesInterval(interval, n + 2) ==> n % 2 == 0
  {
    if MatchesInterval(interval, n) && MatchesInterval(interval, n + 2) && interval.value > 2 {
      DivModUnique(n + 2, interval.value, n / interval.value, 2);
    }
  }

  /** The numbers heard are never more than four apart. */
  lemma {:induction false} HeardSpread(c: Faults, prev: nat, n: nat, count: nat)
    requires c.dropEvery != Some(1) && c.corruptEvery != Some(1)
    requires prev < n <= prev + 4 && forall k: nat :: prev < k < n ==> Lost(c, k)
    ensures Spread(prev, HeardFrom(c, n, count))
    decreases count + 1 - n
  {
    if n <= count {
      if Lost(c, n) {
        OneOfFourHeard(c, prev + 1);
        HeardSpread(c, prev, n + 1, count);
      } else {
        HeardSpread(c, n, n + 1, count);
      }
    }
  }

  lemma {:induction false} NothingHeard(c: Faults, n: nat, count: nat)
    requires c.dropEvery == Some(1) || c.corruptEvery == Some(1)
    ensures HeardFrom(c, n, count) == []
    decreases count + 1 - n
  {
    if n <= count {
      NothingHeard(c, n + 1, count);
    }
  }

  /** The highest number heard. */
  function HighestHeard(c: Faults, count: nat): int {
    Last(0, HeardFrom(c, 1, count))
  }

  /** Behind the highest number heard, everything else was lost. */
  lemma {:induction false} LastHeard(c: Faults, n: nat, count: nat)
    requires n > 0
    ensures var last := Last(n - 1, HeardFrom(c, n, count));
            n - 1 <= last && HeardFrom(c, n, last) == HeardFrom(c, n, count)
    decreases count + 1 - n
  {
    if n <= count {
      LastHeard(c, n + 1, count);
      var rest := HeardFrom(c, n + 1, count);
      if Lost(c, n) && rest == [] {
        assert HeardFrom(c, n, n - 1) == [];
      }
    }
  }

  /* ----- from the datagrams to the tracker ----- */

  /** The packets of the datagrams that decode. */
  function Decodable(ds: seq<seq<byte>>): seq<Packet> {
    if ds == [] then []
    else if P.Decode(ds[0]).Failed? then Decodable(ds[1..])
    else [P.Decode(ds[0]).packet] + Decodable(ds[1..])
  }

  lemma {:induction false} DecodableConcat(a: seq<seq<byte>>, b: seq<seq<byte>>)
    ensures Decodable(a + b) == Decodable(a) + Decodable(b)
  {
    hide P.Decode;
    if a == [] {
      assert a + b == b;
    } else {
      assert (a + b)[1..] == a[1..] + b;
      DecodableConcat(a[1..], b);
    }
  }

  lemma {:induction false} DecodableOrRejected(ds: seq<seq<byte>>)
    ensures |Decodable(ds)| + Rejected(ds) == |ds|
  {
    hide P.Decode;
    if ds != [] {
      DecodableOrRejected(ds[1..]);
    }
  }

  /** Every datagram that decodes arrives once, in order, from one sender at one listener. */
  ghost predicate Delivered(sent: seq<seq<byte>>, received: seq<ReceivedPacket>, source: Endpoint, listener: Endpoint) {
    && |received| == |Decodable(sent)|
    && forall i :: 0 <= i < |received| ==>
         received[i].packet == Decodable(sent)[i] && received[i].source == source && received[i].listener == listener
  }

  ghost predicate AllDecode(datagram: nat -> seq<byte>) {
    forall n :: P.Decode(datagram(n)).Decoded?
  }

  ghost function PacketsOf(datagram: nat -> seq<byte>, ns: seq<nat>): (ps: seq<Packet>)
    requires AllDecode(datagram)
    ensures |ps| == |ns|
  {
    seq(|ns|, i requires 0 <= i < |ns| => P.Decode(datagram(ns[i])).packet)
  }

  /** Of one number, all copies decode or none does. */
  lemma DecodableCopies(c: Faults, datagram: nat -> seq<byte>, n: uint64)
    requires AllDecode(datagram)
    ensures Decodable(Copies(Prepare(c, n, datagram(n)))) == PacketsOf(datagram, Clear(c, Group(c, n)))
  {
    hide P.Decode, P.Corrupted, Clear;
    ClearGroup(c, n);
    var p := Prepare(c, n, datagram(n));
    P.CorruptionRejected(datagram(n));
    assert Decodable([p.bytes]) == if P.Decode(p.bytes).Failed? then Decodable([]) else [P.Decode(p.bytes).packet] + Decodable([]);
    if p.duplicate {
      assert [p.bytes, p.bytes] == [p.bytes] + [p.bytes];
      DecodableConcat([p.bytes], [p.bytes]);
    }
  }

  lemma {:induction false} DecodableDatagrams(c: Faults, datagram: nat -> seq<byte>, ns: numbers)
    requires AllDecode(datagram)
    ensures Decodable(Datagrams(Prepared(c, datagram, ns))) == PacketsOf(datagram, Clear(c, Echo(c, ns)))
    decreases |ns|
  {
    hide P.Decode, Clear, Decodable, AllDecode, Prepare, Copies, Group;
    if ns == [] {
      NoDatagrams(c, datagram);
    } else {
      var ps := Prepared(c, datagram, ns);
      assert ps[1..] == Prepared(c, datagram, ns[1..]) && ps[0] == Prepare(c, ns[0], datagram(ns[0]));
      DecodableDatagrams(c, datagram, ns[1..]);
      DecodableCopies(c, datagram, ns[0]);
      DecodableConcat(Copies(ps[0]), Datagrams(ps[1..]));
      ClearConcat(c, Group(c, ns[0]), Echo(c, ns[1..]));
      var a, b := Clear(c, Group(c, ns[0])), Clear(c, Echo(c, ns[1..]));
      assert PacketsOf(datagram, a + b) == PacketsOf(datagram, a) + PacketsOf(datagram, b);
    }
  }

  lemma NoDatagrams(c: Faults, datagram: nat -> seq<byte>)
    requires AllDecode(datagram)
    ensures Decodable(Datagrams(Prepared(c, datagram, []))) == PacketsOf(datagram, Clear(c, Echo(c, [])))
  {
  }

  /** The configuration of one uninterrupted run: finite, one sensor type, any faults. */
  ghost predicate AnyRun(count: nat, sample: nat -> S.SensorPayload, t: MessageType, stop: StopOracle) {
    && 0 < count <= MAX_64
    && Never(stop)
    && (forall n :: S.Encode(sample(n)).Encoded? && S.TypeOfPayload(sample(n)) == t)
  }

  /** The packet the simulator builds for a number, as the receiver decodes it. */
  lemma StreamDecodes(sample: nat -> S.SensorPayload, ts: nat -> uint64, n: nat)
    requires forall k :: S.Encode(sample(k)).Encoded?
    ensures var d := P.Decode(SampleStream(sample, ts)(n));
            && d.Decoded?
            && d.packet.header.sequenceNumber == n % TWO_64
            && d.packet.header.messageType == S.TypeOfPayload(sample(n))
  {
    hide P.Decode, F.SampleDatagram, S.Encode, S.Decode, S.TypeOfPayload;
    F.SampleRoundTrip(sample(n), n % TWO_64, ts(n));
  }

  /** What the tracker hears is the heard sequence of numbers, from one source. */
  lemma ArrivalsAreHeard(c: Faults, count: nat, sample: nat -> S.SensorPayload, ts: nat -> uint64, t: MessageType,
                         stop: StopOracle, received: seq<ReceivedPacket>, source: Endpoint, listener: Endpoint)
    requires AnyRun(count, sample, t, stop)
    requires Delivered(Loop(c, count, SampleStream(sample, ts), stop, None, IDLE).sent, received, source, listener)
    ensures forall i :: 0 <= i < |Kept(c, count)| ==> Kept(c, count)[i] < TWO_64
    ensures AllDecode(SampleStream(sample, ts))
    ensures ArrivalsOf(received) == FromSource(SensorSource(source, listener, t), Heard(c, Kept(c, count)))
  {
    hide Loop, P.Decode, F.SampleDatagram, SampleStream, Datagrams, Echo, Clear, Swap, S.Decode, S.Encode, S.TypeOfPayload,
      Decodable;
    KeptBelow(c, count);
    var xs: numbers := Kept(c, count);
    var datagram := SampleStream(sample, ts);
    forall n
      ensures P.Decode(datagram(n)).Decoded?
    {
      StreamDecodes(sample, ts, n);
    }
    SwapBelow(c, xs);
    RunSends(c, count, datagram, stop);
    DecodableDatagrams(c, datagram, Swap(c, xs));
    var heard := Heard(c, xs);
    forall i | 0 <= i < |received|
      ensures ArrivalsOf(received)[i] == FromSource(SensorSource(source, listener, t), heard)[i]
    {
      var n := heard[i];
      assert received[i].packet == PacketsOf(datagram, heard)[i];
      SmallMod(n, TWO_64);
      StreamDecodes(sample, ts, n);
    }
  }

  /** The tracker's counters after hearing what is left of one run. */
  lemma HeardObserved(c: Faults, count: nat, max: nat, s: SensorSource)
    requires 0 < count <= MAX_64 && max > 0
    ensures forall i :: 0 <= i < |Kept(c, count)| ==> Kept(c, count)[i] < TWO_64
    ensures var xs: numbers := Kept(c, count);
            var m, clear := Run(max, FromSource(s, Heard(c, xs))).metrics, HeardFrom(c, 1, count);
            && m.packets == |Heard(c, xs)|
            && m.duplicate == |Heard(c, xs)| - |clear|
            && m.reordered == ClearSwaps(c, xs)
            && (clear == [] ==> m.missing == 0)
            && (clear != [] ==>
                  && Heard(c, xs) != []
                  && HighestHeard(c, count) >= 0
                  && m.missing + Heard(c, xs)[0] == ClearSwaps(c, xs) + LostFrom(c, 1, HighestHeard(c, count)) + 1)
  {
    hide *;
    KeptBelow(c, count);
    ClearKept(c, 1, count);
    KeptFromOne(c, count);
    KeptPairs(c, count);
    var xs: numbers := Kept(c, count);
    var arrivals := FromSource(s, Heard(c, xs));
    var m, os := Run(max, arrivals).metrics, Observations(max, arrivals);
    Counters(max, arrivals);
    if HeardFrom(c, 1, count) == [] {
      SilentRun(c, xs);
      NoVerdicts(max, arrivals);
      TalliedVerdicts(m, os, 0, 0, 0);
    } else {
      HeardSpreads(c, count);
      HeardFromFirst(c, max, s, xs);
      HeardBelowHighest(c, count);
      FewClearSwaps(c, xs);
      FirstHeard(c, xs, count);
      TalliedVerdicts(m, os, |Heard(c, xs)| - |Clear(c, xs)|, ClearSwaps(c, xs),
                      Last(0, Clear(c, xs)) - Heard(c, xs)[0] - (|Clear(c, xs)| - 1 - ClearSwaps(c, xs)));
    }
  }

  lemma KeptFromOne(c: Faults, count: nat)
    ensures Kept(c, count) == KeptFrom(c, 1, count) && HighestHeard(c, count) == Last(0, HeardFrom(c, 1, count))
  {
  }

  lemma HeardSpreads(c: Faults, count: nat)
    requires HeardFrom(c, 1, count) != []
    ensures Spread(0, HeardFrom(c, 1, count))
  {
    if c.dropEvery == Some(1) || c.corruptEvery == Some(1) {
      NothingHeard(c, 1, count);
    }
    HeardSpread(c, 0, 1, count);
  }

  lemma NoVerdicts(max: nat, arrivals: seq<Arrival>)
    requires arrivals == []
    ensures Verdicts(Observations(max, arrivals), 0, 0, 0)
  {
  }

  /** What the answers say is what the counters hold. */
  lemma TalliedVerdicts(m: Metrics, os: seq<Observation>, d: int, r: int, missing: int)
    requires Tallied(m, os) && Verdicts(os, d, r, missing) && missing <= MAX_64
    ensures m.packets == |os| && m.duplicate == d && m.reordered == r && m.missing == missing
  {
  }

  lemma {:induction false} FewClearSwaps(c: Faults, xs: numbers)
    ensures 2 * ClearSwaps(c, xs) <= |Clear(c, xs)|
    decreases |xs|
  {
    if xs != [] {
      if |xs| > 1 && Reorders(c, xs[0]) {
        FewClearSwaps(c, xs[2..]);
        assert xs[1..][1..] == xs[2..];
        assert |Clear(c, xs[1..])| == |Clear(c, xs[2..])| + One(!Corrupts(c, xs[1]));
        assert |Clear(c, xs)| == |Clear(c, xs[1..])| + One(!Corrupts(c, xs[0]));
      } else {
        FewClearSwaps(c, xs[1..]);
      }
    }
  }

  /** The first and the highest number heard are numbers of the run. */
  lemma FirstHeard(c: Faults, xs: numbers, count: nat)
    requires xs == KeptFrom(c, 1, count) && count <= MAX_64 && Heard(c, xs) != []
    ensures Heard(c, xs)[0] >= 1 && HighestHeard(c, count) <= count
  {
    KeptIncreasing(c, 1, count);
    SwapKeepsBound(c, xs, 1);
    SwapBelow(c, xs);
    EchoAtLeast(c, Swap(c, xs), 1);
    ClearAtLeast(c, Sent(c, xs), 1);
    HeardWithin(c, 1, count);
  }

  lemma {:induction false} EchoAtLeast(c: Faults, ns: numbers, low: nat)
    requires forall i :: 0 <= i < |ns| ==> low <= ns[i]
    ensures forall i :: 0 <= i < |Echo(c, ns)| ==> low <= Echo(c, ns)[i]
  {
    if ns != [] {
      EchoAtLeast(c, ns[1..], low);
    }
  }

  lemma {:induction false} ClearAtLeast(c: Faults, ns: numbers, low: nat)
    requires forall i :: 0 <= i < |ns| ==> low <= ns[i]
    ensures forall i :: 0 <= i < |Clear(c, ns)| ==> low <= Clear(c, ns)[i]
  {
    if ns != [] {
      ClearAtLeast(c, ns[1..], low);
    }
  }

  lemma {:induction false} HeardWithin(c: Faults, n: nat, count: nat)
    requires 0 < n <= count + 1
    ensures Last(n - 1, HeardFrom(c, n, count)) <= count
    decreases count + 1 - n
  {
    if n <= count {
      HeardWithin(c, n + 1, count);
    }
  }

  lemma KeptPairs(c: Faults, count: nat)
    requires count <= MAX_64
    ensures Pairs(Kept(c, count))
  {
    if Kept(c, count) != [] {
      KeptShape(c, count);
    }
  }

  lemma HeardBelowHighest(c: Faults, count: nat)
    ensures HighestHeard(c, count) >= 0
    ensures |HeardFrom(c, 1, count)| + LostFrom(c, 1, HighestHeard(c, count)) == HighestHeard(c, count)
  {
    LastHeard(c, 1, count);
    HeardOrLost(c, 1, HighestHeard(c, count));
  }

  lemma {:induction false} SilentRun(c: Faults, xs: numbers)
    requires Pairs(xs) && Clear(c, xs) == []
    ensures Heard(c, xs) == [] && ClearSwaps(c, xs) == 0
    decreases |xs|
  {
    hide Heard, Pairs, Corrupts, Reorders, Clear, Spread, Last, Group;
    if xs == [] {
      HeardNone(c);
    } else if |xs| > 1 && Reorders(c, xs[0]) {
      PairSplit(c, xs);
      assert [] + ([] + Heard(c, xs[2..])) == Heard(c, xs[2..]);
      SilentRun(c, xs[2..]);
    } else {
      PlainSplit(c, xs);
      assert [] + Heard(c, xs[1..]) == Heard(c, xs[1..]);
      SilentRun(c, xs[1..]);
    }
  }

  lemma HeardNone(c: Faults)
    ensures Heard(c, []) == []
  {
    assert Sent(c, []) == [];
  }

  /** End to end, for every drop, duplicate, reorder, delay and corruption configuration: the tracker hears
      what was sent and not corrupted, counts the extra copies of what it hears as duplicates and the swaps
      of which it hears both packets as reorderings.  What it infers missing are those swaps plus the
      numbers dropped or corrupted behind the highest one heard, less the numbers before the first. */
  lemma EveryFaultObserved(c: Faults, count: nat, sample: nat -> S.SensorPayload, ts: nat -> uint64, t: MessageType,
                           stop: StopOracle, received: seq<ReceivedPacket>, source: Endpoint, listener: Endpoint, max: nat)
    requires AnyRun(count, sample, t, stop) && max > 0
    requires Delivered(Loop(c, count, SampleStream(sample, ts), stop, None, IDLE).sent, received, source, listener)
    ensures forall i :: 0 <= i < |Kept(c, count)| ==> Kept(c, count)[i] < TWO_64
    ensures var summary := Loop(c, count, SampleStream(sample, ts), stop, None, IDLE).summary;
            var xs: numbers := Kept(c, count);
            var m, clear := Run(max, ArrivalsOf(received)).metrics, HeardFrom(c, 1, count);
            && m.packets + summary.corrupted == summary.sent
            && m.duplicate == m.packets - |clear|
            && m.reordered == ClearSwaps(c, xs)
            && (clear == [] ==> m.missing == 0)
            && (clear != [] ==>
                  && Heard(c, xs) != []
                  && HighestHeard(c, count) >= 0
                  && m.missing + Heard(c, xs)[0] == ClearSwaps(c, xs) + LostFrom(c, 1, HighestHeard(c, count)) + 1)
  {
    ArrivalsAreHeard(c, count, sample, ts, t, stop, received, source, listener);
    HeardObserved(c, count, max, SensorSource(source, listener, t));
    var datagram := SampleStream(sample, ts);
    var sent := Loop(c, count, datagram, stop, None, IDLE).sent;
    hide P.Decode, F.SampleDatagram, SampleStream, Loop, Decodable, Rejected, Clear, Sent, Echo, S.Encode, S.TypeOfPayload, Run,
      HeardFrom, LostFrom, HighestHeard;
    CorruptionAccounting(c, count, datagram, stop);
    SentAccounting(c, count, datagram, stop);
    DecodableOrRejected(sent);
    assert |ArrivalsOf(received)| == |Decodable(sent)|;
  }
}
