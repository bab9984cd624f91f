/** What a whole simulator run sends. */
module SimulatorRuns {
  import opened Words
  import opened Types
  import opened Simulator

  /* ----- the specification: which numbers, in which order ----- */

  /** The numbers from n to count that the drop rule spares. */
  function KeptFrom(c: Faults, n: nat, count: nat): seq<nat>
    decreases count + 1 - n
  {
    if n > count then []
    else if Dropped(c, n) then KeptFrom(c, n + 1, count)
    else [n] + KeptFrom(c, n + 1, count)
  }

  /** From left to right, every number the reorder rule selects changes places with its successor. */
  function Swap(c: Faults, xs: seq<nat>): (ys: seq<nat>)
    ensures |ys| == |xs|
  {
    if xs == [] then []
    else if |xs| > 1 && Reorders(c, xs[0]) then [xs[1], xs[0]] + Swap(c, xs[2..])
    else [xs[0]] + Swap(c, xs[1..])
  }

  function Swaps(c: Faults, xs: seq<nat>): nat {
    if xs == [] then 0
    else if |xs| > 1 && Reorders(c, xs[0]) then 1 + Swaps(c, xs[2..])
    else Swaps(c, xs[1..])
  }

  function Prepared(c: Faults, datagram: nat -> seq<byte>, ns: seq<nat>): (ps: seq<Pending>)
    ensures |ps| == |ns|
  {
    seq(|ns|, i requires 0 <= i < |ns| => Prepare(c, ns[i], datagram(ns[i])))
  }

  /** The datagrams of a list of prepared packets. */
  function Datagrams(ps: seq<Pending>): seq<seq<byte>> {
    if ps == [] then [] else Copies(ps[0]) + Datagrams(ps[1..])
  }

  /** The summary after sending one prepared packet. */
  function Counted(s: Summary, p: Pending): Summary {
    Transmit(CountDelay(Link([], s, 0), p), p).summary
  }

  /** The summary after sending a list of prepared packets without interruption. */
  function Totals(s: Summary, ps: seq<Pending>): Summary
    decreases |ps|
  {
    if ps == [] then s else Totals(Counted(s, ps[0]), ps[1..])
  }

  lemma {:induction false} DatagramsConcat(a: seq<Pending>, b: seq<Pending>)
    ensures Datagrams(a + b) == Datagrams(a) + Datagrams(b)
  {
    if a == [] {
      assert a + b == b;
    } else {
      assert (a + b)[1..] == a[1..] + b;
      DatagramsConcat(a[1..], b);
    }
  }

  lemma PrefixStep<T>(sent: seq<T>, copies: seq<T>, x: seq<T>, rest: seq<T>)
    requires sent + copies <= x <= sent + copies + rest
    ensures sent <= x <= sent + (copies + rest)
    ensures sent + copies + rest == sent + (copies + rest)
  {
    assert sent + copies + rest == sent + (copies + rest);
  }

  ghost predicate Never(stop: StopOracle) {
    forall k :: !stop.answers(k)
  }

  lemma TransmitSends(stop: StopOracle, l: Link, p: Pending)
    ensures var l1 := Delay(stop, Polled(l), p).0;
            Transmit(l1, p).sent == l.sent + Copies(p) && Transmit(l1, p).summary == Counted(l.summary, p)
            && l1.sent == l.sent
    ensures Never(stop) ==> !Delay(stop, Polled(l), p).1
  {
    hide WaitLooks;
  }

  /** Sending, interrupted or not, hands over a prefix of the datagrams in order. */
  lemma {:induction false} SendsPrefix(stop: StopOracle, l: Link, ps: seq<Pending>)
    ensures var (l', ok) := SendPackets(stop, l, ps);
            && l.sent <= l'.sent <= l.sent + Datagrams(ps)
            && (ok ==> l'.sent == l.sent + Datagrams(ps) && l'.summary == Totals(l.summary, ps))
            && (Never(stop) ==> ok)
    decreases |ps|
  {
    hide Transmit, Delay, Copies, Counted;
    if ps != [] && !stop.answers(l.polls) {
      var (l1, interrupted) := Delay(stop, Polled(l), ps[0]);
      TransmitSends(stop, l, ps[0]);
      if !interrupted {
        SendsPrefix(stop, Transmit(l1, ps[0]), ps[1..]);
        assert Datagrams(ps) == Copies(ps[0]) + Datagrams(ps[1..]);
        PrefixStep(l.sent, Copies(ps[0]), SendPackets(stop, Transmit(l1, ps[0]), ps[1..]).0.sent, Datagrams(ps[1..]));
      }
    }
  }

  function HeldNumber(held: Option<nat>): seq<nat> {
    if held.Some? then [held.value] else []
  }

  /** What is still to be sent, with `held` in the reorder slot and n the next number to generate. */
  function Pipeline(c: Faults, held: Option<nat>, n: nat, count: nat): seq<nat> {
    HeldNumber(held) + KeptFrom(c, n, count)
  }

  ghost predicate Holds(c: Faults, datagram: nat -> seq<byte>, slot: Option<Pending>, held: Option<nat>) {
    && slot.Some? == held.Some?
    && (held.Some? ==> Reorders(c, held.value) && slot.value == Prepare(c, held.value, datagram(held.value)))
  }

  /** The numbers that processing number n releases, and the number then held. */
  function Released(c: Faults, held: Option<nat>, n: nat): (seq<nat>, Option<nat>) {
    if Dropped(c, n) then ([], held)
    else if held.Some? then ([n, held.value], None)
    else if Reorders(c, n) then ([], Some(n))
    else ([n], None)
  }

  lemma ProcessReleases(c: Faults, datagram: nat -> seq<byte>, slot: Option<Pending>, held: Option<nat>, n: nat)
    requires Holds(c, datagram, slot, held)
    ensures var (slot', batch), (out, held') := Process(c, slot, n, datagram(n)), Released(c, held, n);
            && Holds(c, datagram, slot', held')
            && batch.packets == Prepared(c, datagram, out)
            && batch.dropped == One(Dropped(c, n))
            && batch.reorderEvents == One(|out| == 2)
  {
  }

  lemma SwapTwo(c: Faults, a: nat, b: nat, rest: seq<nat>)
    requires Reorders(c, a)
    ensures Swap(c, [a, b] + rest) == [b, a] + Swap(c, rest) && Swaps(c, [a, b] + rest) == 1 + Swaps(c, rest)
  {
    assert ([a, b] + rest)[2..] == rest;
  }

  lemma SwapOne(c: Faults, a: nat, rest: seq<nat>)
    requires !Reorders(c, a)
    ensures Swap(c, [a] + rest) == [a] + Swap(c, rest) && Swaps(c, [a] + rest) == Swaps(c, rest)
  {
    assert ([a] + rest)[1..] == rest;
  }

  lemma ReleasedSwaps(c: Faults, held: Option<nat>, n: nat, count: nat)
    requires n <= count && (held.Some? ==> Reorders(c, held.value))
    ensures var (out, held') := Released(c, held, n);
            && Swap(c, Pipeline(c, held, n, count)) == out + Swap(c, Pipeline(c, held', n + 1, count))
            && Swaps(c, Pipeline(c, held, n, count))
               == One(|out| == 2) + Swaps(c, Pipeline(c, held', n + 1, count))
  {
    var rest := KeptFrom(c, n + 1, count);
    assert KeptFrom(c, n, count) == if Dropped(c, n) then rest else [n] + rest;
    hide KeptFrom, Swap, Swaps, Dropped;
    if Dropped(c, n) {
      assert [] + Swap(c, Pipeline(c, held, n + 1, count)) == Swap(c, Pipeline(c, held, n + 1, count));
    } else if held.Some? {
      SwapTwo(c, held.value, n, rest);
      assert [held.value] + ([n] + rest) == [held.value, n] + rest;
      assert Pipeline(c, None, n + 1, count) == rest;
    } else {
      assert [] + ([n] + rest) == [n] + rest;
      if !Reorders(c, n) {
        SwapOne(c, n, rest);
        assert Pipeline(c, None, n + 1, count) == rest;
      }
    }
  }

  function DroppedFrom(c: Faults, n: nat, count: nat): nat
    decreases count + 1 - n
  {
    if n > count then 0 else One(Dropped(c, n)) + DroppedFrom(c, n + 1, count)
  }

  /** The summary of an uninterrupted run. */
  function Accounted(s: Summary, ps: seq<Pending>, generated: nat, dropped: nat, swaps: nat): Summary {
    Totals(s, ps).(generated := generated, dropped := s.dropped + dropped, reorderEvents := s.reorderEvents + swaps)
  }

  lemma {:induction false} TotalsConcat(s: Summary, a: seq<Pending>, b: seq<Pending>)
    ensures Totals(s, a + b) == Totals(Totals(s, a), b)
    decreases |a|
  {
    if a == [] {
      assert a + b == b;
    } else {
      assert (a + b)[1..] == a[1..] + b;
      TotalsConcat(Counted(s, a[0]), a[1..], b);
    }
  }

  /** The counters that sending does not touch can be set before or after. */
  lemma {:induction false} TotalsFrame(s: Summary, ps: seq<Pending>, g: nat, d: nat, r: nat)
    ensures Totals(s.(generated := g, dropped := d, reorderEvents := r), ps)
         == Totals(s, ps).(generated := g, dropped := d, reorderEvents := r)
    ensures Totals(s, ps).generated == s.generated && Totals(s, ps).dropped == s.dropped
    ensures Totals(s, ps).reorderEvents == s.reorderEvents
    decreases |ps|
  {
    if ps != [] {
      TotalsFrame(Counted(s, ps[0]), ps[1..], g, d, r);
    }
  }

  lemma PreparedConcat(c: Faults, datagram: nat -> seq<byte>, a: seq<nat>, b: seq<nat>)
    ensures Prepared(c, datagram, a + b) == Prepared(c, datagram, a) + Prepared(c, datagram, b)
  {
  }

  lemma AccountStep(s: Summary, a: seq<Pending>, b: seq<Pending>, generated: nat, count: nat, d: nat, r: nat, d': nat, r': nat)
    ensures var s1 := s.(generated := generated, dropped := s.dropped + d);
            var s2 := Totals(s1, a).(reorderEvents := Totals(s1, a).reorderEvents + r);
            Accounted(s2, b, count, d', r') == Accounted(s, a + b, count, d + d', r + r')
  {
    var s1 := s.(generated := generated, dropped := s.dropped + d);
    var s2 := Totals(s1, a).(reorderEvents := Totals(s1, a).reorderEvents + r);
    TotalsFrame(s, a, generated, s.dropped + d, s.reorderEvents);
    assert s2 == Totals(s, a).(generated := generated, dropped := s.dropped + d, reorderEvents := s.reorderEvents + r);
    TotalsFrame(Totals(s, a), b, generated, s.dropped + d, s.reorderEvents + r);
    TotalsFrame(s, a, 0, 0, 0);
    TotalsConcat(s, a, b);
  }

  /* ----- when a stop that is taken back lets the held packet out early ----- */

  predicate Delays(c: Faults, n: nat) { MatchesInterval(c.delayEvery, n) }

  predicate Interrupts(stop: StopOracle, look: nat) {
    WaitLooks(stop.answers, look, stop.sleeps(look)).1
  }

  /** The first look after a wait that begins at this one. */
  function AfterWait(stop: StopOracle, look: nat): nat {
    look + WaitLooks(stop.answers, look, stop.sleeps(look)).0
  }

  /** The first look after sending the numbers ns, and whether no stop was noticed meanwhile. */
  function AfterSending(c: Faults, stop: StopOracle, look: nat, ns: seq<nat>): (nat, bool)
    decreases |ns|
  {
    if ns == [] then (look, true)
    else if stop.answers(look) then (look + 1, false)
    else if !Delays(c, ns[0]) then AfterSending(c, stop, look + 1, ns[1..])
    else if Interrupts(stop, look + 1) then (AfterWait(stop, look + 1), false)
    else AfterSending(c, stop, AfterWait(stop, look + 1), ns[1..])
  }

  /** The first stop is noticed by the guard of the loop, while a number is held that a later one should
      overtake, and is taken back at the looks that follow.  Here n is the next number to generate. */
  predicate EarlyFlush(c: Faults, count: nat, stop: StopOracle, held: Option<nat>, n: nat, look: nat)
    decreases count + 1 - n
  {
    if n > count then false
    else if stop.answers(look) then
      && held.Some? && KeptFrom(c, n, count) != []
      && !stop.answers(look + 1) && !stop.answers(look + 2)
      && !(Delays(c, held.value) && Interrupts(stop, look + 3))
    else
      var (out, held') := Released(c, held, n);
      var (next, ok) := AfterSending(c, stop, look + 1, out);
      ok && n < count && !Interrupts(stop, next) && EarlyFlush(c, count, stop, held', n + 1, AfterWait(stop, next))
  }

  /** A whole run does so. */
  predicate FlushesEarly(c: Faults, count: nat, stop: StopOracle) {
    EarlyFlush(c, count, stop, None, 1, 0)
  }

  lemma {:induction false} SendLooks(c: Faults, datagram: nat -> seq<byte>, stop: StopOracle, l: Link, ns: seq<nat>)
    ensures var (l', ok) := SendPackets(stop, l, Prepared(c, datagram, ns));
            (l'.polls, ok) == AfterSending(c, stop, l.polls, ns)
    decreases |ns|
  {
    hide Transmit, WaitLooks, P.Corrupted;
    if ns != [] && !stop.answers(l.polls) {
      var ps := Prepared(c, datagram, ns);
      assert ps[1..] == Prepared(c, datagram, ns[1..]);
      var (l1, interrupted) := Delay(stop, Polled(l), ps[0]);
      SendLooks(c, datagram, stop, Transmit(l1, ps[0]), ns[1..]);
      TransmitPolls(l1, ps[0]);
    }
  }

  lemma TransmitPolls(l: Link, p: Pending)
    ensures Transmit(l, p).polls == l.polls
  {
  }

  /** From link l to l', sending is on its way through ps, unless the held packet was flushed early;
      without a stop it is done, and accounted for. */
  ghost predicate Delivers(stop: StopOracle, early: bool, l: Link, l': Link, ps: seq<Pending>,
                           count: nat, d: nat, r: nat)
  {
    && (!early ==> l.sent <= l'.sent <= l.sent + Datagrams(ps))
    && (Never(stop) ==> l'.sent == l.sent + Datagrams(ps) && l'.summary == Accounted(l.summary, ps, count, d, r))
  }

  /** The packets that remain to be sent, in sending order. */
  function ToSend(c: Faults, datagram: nat -> seq<byte>, held: Option<nat>, n: nat, count: nat): seq<Pending> {
    Prepared(c, datagram, Swap(c, Pipeline(c, held, n, count)))
  }

  lemma FinalDelivers(c: Faults, count: nat, datagram: nat -> seq<byte>, stop: StopOracle,
                      slot: Option<Pending>, held: Option<nat>, l: Link)
    requires Holds(c, datagram, slot, held) && l.summary.generated == count
    ensures Delivers(stop, false, l, Final(stop, slot, l), ToSend(c, datagram, held, count + 1, count), count, 0, 0)
    ensures Swaps(c, Pipeline(c, held, count + 1, count)) == 0
  {
    var list := Pipeline(c, held, count + 1, count);
    assert list == HeldNumber(held);
    assert Prepared(c, datagram, Swap(c, list)) == Flush(slot).packets;
    SendsPrefix(stop, Polled(l), Flush(slot).packets);
    TotalsFrame(l.summary, Flush(slot).packets, 0, 0, 0);
  }

  /** One batch, then the rest of the run. */
  lemma BatchThenRest(stop: StopOracle, l: Link, l1: Link, l2: Link, last: Link, batch: Batch, rest: seq<Pending>,
                      early: bool, count: nat, d: nat, d': nat, r': nat)
    requires l1.sent == l.sent
    requires l1.summary == l.summary.(generated := l1.summary.generated, dropped := l.summary.dropped + d)
    requires SendBatch(stop, l1, batch) == (l2, true)
    requires Delivers(stop, early, l2, last, rest, count, d', r')
    ensures Delivers(stop, early, l, last, batch.packets + rest, count, d + d', batch.reorderEvents + r')
  {
    hide Totals, Accounted, Datagrams, SendPackets;
    SendsPrefix(stop, l1, batch.packets);
    DatagramsConcat(batch.packets, rest);
    AccountStep(l.summary, batch.packets, rest, l1.summary.generated, count, d, batch.reorderEvents, d', r');
    assert l.sent + (Datagrams(batch.packets) + Datagrams(rest)) == l2.sent + Datagrams(rest);
  }

  lemma BatchCutShort(stop: StopOracle, l: Link, l1: Link, batch: Batch, rest: seq<Pending>)
    requires l1.sent == l.sent
    ensures l.sent <= SendBatch(stop, l1, batch).0.sent <= l.sent + Datagrams(batch.packets + rest)
    ensures Never(stop) ==> SendBatch(stop, l1, batch).1
  {
    hide Totals, Accounted, Datagrams, SendPackets;
    SendsPrefix(stop, l1, batch.packets);
    DatagramsConcat(batch.packets, rest);
    assert l.sent + (Datagrams(batch.packets) + Datagrams(rest)) == l.sent + Datagrams(batch.packets) + Datagrams(rest);
  }

  /** Every run, from any reachable point, by induction on the packets still to be generated. */
  lemma {:induction false} LoopDelivers(c: Faults, count: nat, datagram: nat -> seq<byte>, stop: StopOracle,
                                        slot: Option<Pending>, held: Option<nat>, l: Link)
    requires Holds(c, datagram, slot, held) && l.summary.generated < count
    ensures var n := l.summary.generated + 1;
            Delivers(stop, EarlyFlush(c, count, stop, held, n, l.polls),
                     l, Loop(c, count, datagram, stop, slot, l), ToSend(c, datagram, held, n, count), count,
                     DroppedFrom(c, n, count), Swaps(c, Pipeline(c, held, n, count)))
    decreases count - l.summary.generated
  {
    hide *;
    var n := l.summary.generated + 1;
    var all, d, r := ToSend(c, datagram, held, n, count), DroppedFrom(c, n, count), Swaps(c, Pipeline(c, held, n, count));
    if stop.answers(l.polls) {
      StoppedAtGuard(c, count, datagram, stop, slot, held, l);
    } else {
      var (slot', batch, l1) := Generate(c, datagram, slot, Polled(l));
      var (l2, ok) := SendBatch(stop, l1, batch);
      var (l3, interrupted) := Wait(stop, l2);
      var last := Loop(c, count, datagram, stop, slot, l);
      var early := EarlyFlush(c, count, stop, held, n, l.polls);
      BatchIsFirst(c, count, datagram, slot, held, n);
      LoopTurn(c, count, datagram, stop, slot, l);
      EarlyTurn(c, count, datagram, stop, slot, held, l);
      var held' := Released(c, held, n).1;
      var rest, d', r' := ToSend(c, datagram, held', n + 1, count), DroppedFrom(c, n + 1, count),
                          Swaps(c, Pipeline(c, held', n + 1, count));
      if !ok || (n < count && interrupted) {
        CutShort(stop, early, l, l1, last, batch, rest, count, d, r);
      } else {
        if n == count {
          FinalDelivers(c, count, datagram, stop, slot', held', l2);
          NothingDropped(c, count);
        } else {
          LoopDelivers(c, count, datagram, stop, slot', held', l3);
          WaitedDelivers(stop, early, l2, l3, last, rest, count, d', r');
        }
        BatchThenRest(stop, l, l1, l2, last, batch, rest, early, count, batch.dropped, d', r');
      }
    }
  }

  /** One turn of the loop, piece by piece. */
  lemma LoopTurn(c: Faults, count: nat, datagram: nat -> seq<byte>, stop: StopOracle, slot: Option<Pending>, l: Link)
    requires l.summary.generated < count && !stop.answers(l.polls)
    ensures var n := l.summary.generated + 1;
            var (slot', batch, l1) := Generate(c, datagram, slot, Polled(l));
            var (l2, ok) := SendBatch(stop, l1, batch);
            var (l3, interrupted) := Wait(stop, l2);
            && (slot', batch) == Process(c, slot, n, datagram(n))
            && l1.sent == l.sent && l1.polls == l.polls + 1
            && l1.summary == l.summary.(generated := n, dropped := l.summary.dropped + batch.dropped)
            && l2.summary.generated == n && l3.summary.generated == n
            && l3.sent == l2.sent && l3.summary == l2.summary
            && Loop(c, count, datagram, stop, slot, l)
               == (if !ok then l2
                   else if n == count then Final(stop, slot', l2)
                   else if interrupted then l3
                   else Loop(c, count, datagram, stop, slot', l3))
            && ((interrupted && n < count) || !ok ==> Loop(c, count, datagram, stop, slot, l).sent == l2.sent)
            && (Never(stop) ==> !interrupted)
  {
    hide WaitLooks, Process;
  }

  /** The condition for an early flush, one turn later. */
  lemma EarlyTurn(c: Faults, count: nat, datagram: nat -> seq<byte>, stop: StopOracle,
                  slot: Option<Pending>, held: Option<nat>, l: Link)
    requires Holds(c, datagram, slot, held) && l.summary.generated < count && !stop.answers(l.polls)
    ensures var n := l.summary.generated + 1;
            var (slot', batch, l1) := Generate(c, datagram, slot, Polled(l));
            var (l2, ok) := SendBatch(stop, l1, batch);
            var (l3, interrupted) := Wait(stop, l2);
            EarlyFlush(c, count, stop, held, n, l.polls)
            <==> ok && n < count && !interrupted
                 && EarlyFlush(c, count, stop, Released(c, held, n).1, n + 1, l3.polls)
  {
    hide WaitLooks, Process, KeptFrom, SendPackets, AfterSending, Released, Holds;
    var n := l.summary.generated + 1;
    var (slot', batch, l1) := Generate(c, datagram, slot, Polled(l));
    ProcessReleases(c, datagram, slot, held, n);
    SendLooks(c, datagram, stop, l1, Released(c, held, n).0);
  }

  lemma NothingDropped(c: Faults, count: nat)
    ensures DroppedFrom(c, count + 1, count) == 0
  {
  }

  lemma WaitedDelivers(stop: StopOracle, early: bool, l: Link, l': Link, last: Link, ps: seq<Pending>,
                       count: nat, d: nat, r: nat)
    requires l'.sent == l.sent && l'.summary == l.summary && Delivers(stop, early, l', last, ps, count, d, r)
    ensures Delivers(stop, early, l, last, ps, count, d, r)
  {
  }

  /** A stop noticed by the guard: nothing more is sent, or the held packet is. */
  lemma StoppedAtGuard(c: Faults, count: nat, datagram: nat -> seq<byte>, stop: StopOracle, slot: Option<Pending>,
                       held: Option<nat>, l: Link)
    requires Holds(c, datagram, slot, held) && l.summary.generated < count && stop.answers(l.polls)
    ensures var n := l.summary.generated + 1;
            Delivers(stop, EarlyFlush(c, count, stop, held, n, l.polls),
                     l, Loop(c, count, datagram, stop, slot, l), ToSend(c, datagram, held, n, count), count,
                     DroppedFrom(c, n, count), Swaps(c, Pipeline(c, held, n, count)))
  {
    var n := l.summary.generated + 1;
    var last := Loop(c, count, datagram, stop, slot, l);
    GuardStop(c, count, datagram, stop, slot, l);
    if !EarlyFlush(c, count, stop, held, n, l.polls) && last.sent != l.sent {
      assert KeptFrom(c, n, count) == [];
      HeldAlone(c, datagram, slot, held, n, count);
    }
  }

  /** What a stop at the guard leads to. */
  lemma GuardStop(c: Faults, count: nat, datagram: nat -> seq<byte>, stop: StopOracle, slot: Option<Pending>, l: Link)
    requires l.summary.generated < count && stop.answers(l.polls)
    ensures var last := Loop(c, count, datagram, stop, slot, l);
            if && slot.Some? && !stop.answers(l.polls + 1) && !stop.answers(l.polls + 2)
               && !(slot.value.delayed && Interrupts(stop, l.polls + 3))
            then last.sent == l.sent + Copies(slot.value)
            else last.sent == l.sent
  {
    hide WaitLooks;
    assert Loop(c, count, datagram, stop, slot, l) == Final(stop, slot, Polled(l));
    if slot.Some? && !stop.answers(l.polls + 1) {
      var l2 := Polled(Polled(l));
      assert [slot.value][1..] == [];
      var (l3, interrupted) := Delay(stop, Polled(l2), slot.value);
      assert SendPackets(stop, Transmit(l3, slot.value), []) == (Transmit(l3, slot.value), true);
    }
  }

  /** If nothing is left to generate, the held packet is what remains to be sent. */
  lemma HeldAlone(c: Faults, datagram: nat -> seq<byte>, slot: Option<Pending>, held: Option<nat>, n: nat, count: nat)
    requires Holds(c, datagram, slot, held) && KeptFrom(c, n, count) == []
    ensures slot.Some? ==> Datagrams(ToSend(c, datagram, held, n, count)) == Copies(slot.value)
  {
    if slot.Some? {
      assert Pipeline(c, held, n, count) == [held.value];
      assert Swap(c, [held.value]) == [held.value] + Swap(c, [held.value][1..]);
      assert ToSend(c, datagram, held, n, count) == [slot.value];
      assert Datagrams([slot.value]) == Copies(slot.value) + Datagrams([slot.value][1..]);
    }
  }

  lemma CutShort(stop: StopOracle, early: bool, l: Link, l1: Link, last: Link, batch: Batch, rest: seq<Pending>,
                 count: nat, d: nat, r: nat)
    requires l1.sent == l.sent && last.sent == SendBatch(stop, l1, batch).0.sent
    requires Never(stop) ==> !SendBatch(stop, l1, batch).1
    ensures Delivers(stop, early, l, last, batch.packets + rest, count, d, r)
  {
    BatchCutShort(stop, l, l1, batch, rest);
  }

  /** Processing number n yields the first part of what is to be sent. */
  lemma BatchIsFirst(c: Faults, count: nat, datagram: nat -> seq<byte>, slot: Option<Pending>, held: Option<nat>, n: nat)
    requires Holds(c, datagram, slot, held) && n <= count
    ensures var (slot', batch) := Process(c, slot, n, datagram(n));
            var held' := Released(c, held, n).1;
            && Holds(c, datagram, slot', held')
            && ToSend(c, datagram, held, n, count) == batch.packets + ToSend(c, datagram, held', n + 1, count)
            && DroppedFrom(c, n, count) == batch.dropped + DroppedFrom(c, n + 1, count)
            && Swaps(c, Pipeline(c, held, n, count))
               == batch.reorderEvents + Swaps(c, Pipeline(c, held', n + 1, count))
  {
    var (out, held') := Released(c, held, n);
    ProcessReleases(c, datagram, slot, held, n);
    ReleasedSwaps(c, held, n, count);
    PreparedConcat(c, datagram, out, Swap(c, Pipeline(c, held', n + 1, count)));
  }

  /* ----- whole runs ----- */

  function Kept(c: Faults, count: nat): seq<nat> {
    KeptFrom(c, 1, count)
  }

  /** The packets of a whole run, in sending order. */
  function Plan(c: Faults, count: nat, datagram: nat -> seq<byte>): seq<Pending> {
    Prepared(c, datagram, Swap(c, Kept(c, count)))
  }

  /** Without a stop exactly the swapped list of undropped packets is sent.  A stop cuts that sequence of
      datagrams short and changes nothing else about it, unless it lets the held packet out early. */
  lemma RunSends(c: Faults, count: nat, datagram: nat -> seq<byte>, stop: StopOracle)
    requires count > 0
    ensures var l, ps := Loop(c, count, datagram, stop, None, IDLE), Plan(c, count, datagram);
            && (!FlushesEarly(c, count, stop) ==> l.sent <= Datagrams(ps))
            && (Sticky(stop.answers) ==> l.sent <= Datagrams(ps))
            && (Never(stop) ==>
                  && l.sent == Datagrams(ps)
                  && l.summary == Accounted(NO_PACKETS, ps, count, DroppedFrom(c, 1, count), Swaps(c, Kept(c, count))))
  {
    hide *;
    NothingHeld(c, datagram, count);
    LoopDelivers(c, count, datagram, stop, None, None, IDLE);
    WholeRunEarly(c, count, stop);
    FromIdle(stop, FlushesEarly(c, count, stop), Loop(c, count, datagram, stop, None, IDLE), Plan(c, count, datagram),
             count, DroppedFrom(c, 1, count), Swaps(c, Kept(c, count)));
    if Sticky(stop.answers) {
      StickyIsNeverEarly(c, count, stop, None, 1, 0);
    }
  }

  lemma NothingHeld(c: Faults, datagram: nat -> seq<byte>, count: nat)
    ensures Holds(c, datagram, None, None) && IDLE.summary.generated == 0 && IDLE.polls == 0
    ensures Pipeline(c, None, 1, count) == Kept(c, count)
    ensures ToSend(c, datagram, None, 1, count) == Plan(c, count, datagram)
  {
    hide KeptFrom, Swap, Prepared;
    assert [] + KeptFrom(c, 1, count) == KeptFrom(c, 1, count);
  }

  lemma WholeRunEarly(c: Faults, count: nat, stop: StopOracle)
    ensures FlushesEarly(c, count, stop) == EarlyFlush(c, count, stop, None, 1, 0)
  {
    hide EarlyFlush;
  }

  lemma FromIdle(stop: StopOracle, early: bool, l: Link, ps: seq<Pending>, count: nat, d: nat, r: nat)
    requires Delivers(stop, early, IDLE, l, ps, count, d, r)
    ensures !early ==> l.sent <= Datagrams(ps)
    ensures Never(stop) ==> l.sent == Datagrams(ps) && l.summary == Accounted(NO_PACKETS, ps, count, d, r)
  {
    hide Datagrams, Totals, Never;
    assert [] + Datagrams(ps) == Datagrams(ps);
  }

  /** A stop that is not taken back never lets the held packet out early. */
  lemma {:induction false} StickyIsNeverEarly(c: Faults, count: nat, stop: StopOracle, held: Option<nat>, n: nat, look: nat)
    requires Sticky(stop.answers)
    ensures !EarlyFlush(c, count, stop, held, n, look)
    decreases count + 1 - n
  {
    if n <= count {
      if stop.answers(look) {
        assert stop.answers(look + 1);
      } else {
        var (out, held') := Released(c, held, n);
        var next := AfterSending(c, stop, look + 1, out).0;
        StickyIsNeverEarly(c, count, stop, held', n + 1, AfterWait(stop, next));
      }
    }
  }

  /** The prepared packets of different numbers differ. */
  ghost predicate Distinguishable(c: Faults, count: nat, datagram: nat -> seq<byte>) {
    forall i: nat, j: nat :: 1 <= i < j <= count ==>
      Prepare(c, i, datagram(i)).bytes != Prepare(c, j, datagram(j)).bytes
  }

  /** What a run sends is a prefix of its plan exactly if it does not let the held packet out early. */
  lemma PrefixExactlyWhen(c: Faults, count: nat, datagram: nat -> seq<byte>, stop: StopOracle)
    requires count > 0 && Distinguishable(c, count, datagram)
    ensures Loop(c, count, datagram, stop, None, IDLE).sent <= Datagrams(Plan(c, count, datagram))
            <==> !FlushesEarly(c, count, stop)
  {
    hide Loop, Swap, Datagrams, EarlyFlush, Distinguishable;
    RunSends(c, count, datagram, stop);
    if FlushesEarly(c, count, stop) {
      EarlyBreaks(c, count, datagram, stop, None, None, IDLE);
      assert Pipeline(c, None, 1, count) == Kept(c, count);
      assert [] + Datagrams(Plan(c, count, datagram)) == Datagrams(Plan(c, count, datagram));
    }
  }

  lemma {:induction false} EarlyBreaks(c: Faults, count: nat, datagram: nat -> seq<byte>, stop: StopOracle,
                                       slot: Option<Pending>, held: Option<nat>, l: Link)
    requires Holds(c, datagram, slot, held) && l.summary.generated < count && Distinguishable(c, count, datagram)
    requires held.Some? ==> 1 <= held.value <= l.summary.generated
    requires EarlyFlush(c, count, stop, held, l.summary.generated + 1, l.polls)
    ensures !(Loop(c, count, datagram, stop, slot, l).sent
              <= l.sent + Datagrams(ToSend(c, datagram, held, l.summary.generated + 1, count)))
    decreases count - l.summary.generated
  {
    hide *;
    var n := l.summary.generated + 1;
    if stop.answers(l.polls) {
      EarlyAtGuard(c, count, datagram, stop, slot, held, l);
    } else {
      var (slot', batch, l1) := Generate(c, datagram, slot, Polled(l));
      var (l2, ok) := SendBatch(stop, l1, batch);
      var l3 := Wait(stop, l2).0;
      BatchIsFirst(c, count, datagram, slot, held, n);
      LoopTurn(c, count, datagram, stop, slot, l);
      EarlyTurn(c, count, datagram, stop, slot, held, l);
      ReleasedBelow(c, held, n);
      EarlyBreaks(c, count, datagram, stop, slot', Released(c, held, n).1, l3);
      BatchSent(stop, l1, batch);
      var rest := ToSend(c, datagram, Released(c, held, n).1, n + 1, count);
      DatagramsConcat(batch.packets, rest);
      assert l.sent + (Datagrams(batch.packets) + Datagrams(rest)) == l2.sent + Datagrams(rest);
    }
  }

  lemma ReleasedBelow(c: Faults, held: Option<nat>, n: nat)
    requires n >= 1 && (held.Some? ==> 1 <= held.value < n)
    ensures Released(c, held, n).1.Some? ==> 1 <= Released(c, held, n).1.value <= n
  {
  }

  lemma BatchSent(stop: StopOracle, l: Link, batch: Batch)
    ensures SendBatch(stop, l, batch).1 ==> SendBatch(stop, l, batch).0.sent == l.sent + Datagrams(batch.packets)
  {
    hide SendPackets, Datagrams, Totals;
    SendsPrefix(stop, l, batch.packets);
  }

  /** At the guard the held packet goes out where the number that should overtake it is due. */
  lemma EarlyAtGuard(c: Faults, count: nat, datagram: nat -> seq<byte>, stop: StopOracle,
                     slot: Option<Pending>, held: Option<nat>, l: Link)
    requires Holds(c, datagram, slot, held) && l.summary.generated < count && Distinguishable(c, count, datagram)
    requires held.Some? ==> 1 <= held.value <= l.summary.generated
    requires EarlyFlush(c, count, stop, held, l.summary.generated + 1, l.polls) && stop.answers(l.polls)
    ensures !(Loop(c, count, datagram, stop, slot, l).sent
              <= l.sent + Datagrams(ToSend(c, datagram, held, l.summary.generated + 1, count)))
  {
    var n := l.summary.generated + 1;
    GuardStop(c, count, datagram, stop, slot, l);
    var kept := KeptFrom(c, n, count);
    FirstKeptRange(c, n, count);
    OvertakerFirst(c, datagram, held.value, n, count);
    hide Loop, EarlyFlush, KeptFrom, Swap, Datagrams;
    var due := Datagrams(ToSend(c, datagram, held, n, count));
    assert (l.sent + Copies(slot.value))[|l.sent|] == slot.value.bytes;
    assert (l.sent + due)[|l.sent|] == due[0];
  }

  lemma {:induction false} FirstKeptRange(c: Faults, n: nat, count: nat)
    ensures KeptFrom(c, n, count) != [] ==> n <= KeptFrom(c, n, count)[0] <= count
    decreases count + 1 - n
  {
    if n <= count {
      FirstKeptRange(c, n + 1, count);
    }
  }

  /** The number that overtakes a held one is due next. */
  lemma OvertakerFirst(c: Faults, datagram: nat -> seq<byte>, h: nat, n: nat, count: nat)
    requires Reorders(c, h) && KeptFrom(c, n, count) != []
    ensures var due, m := Datagrams(ToSend(c, datagram, Some(h), n, count)), KeptFrom(c, n, count)[0];
            due != [] && due[0] == Prepare(c, m, datagram(m)).bytes
  {
    hide Reorders, Prepare;
    var kept := KeptFrom(c, n, count);
    var rest := kept[1..];
    assert Pipeline(c, Some(h), n, count) == [h, kept[0]] + rest;
    SwapTwo(c, h, kept[0], rest);
    var ps := ToSend(c, datagram, Some(h), n, count);
    assert ps[0] == Prepare(c, kept[0], datagram(kept[0]));
  }

  function Duplicates(ps: seq<Pending>): nat {
    if ps == [] then 0 else One(ps[0].duplicate) + Duplicates(ps[1..])
  }

  lemma {:induction false} TotalsCount(s: Summary, ps: seq<Pending>)
    ensures var t := Totals(s, ps);
            && t.sent == s.sent + |ps| + Duplicates(ps)
            && t.duplicates == s.duplicates + Duplicates(ps)
            && |Datagrams(ps)| == |ps| + Duplicates(ps)
    decreases |ps|
  {
    if ps != [] {
      TotalsCount(Counted(s, ps[0]), ps[1..]);
    }
  }

  lemma {:induction false} KeptOrDropped(c: Faults, n: nat, count: nat)
    requires n <= count + 1
    ensures |KeptFrom(c, n, count)| + DroppedFrom(c, n, count) == count + 1 - n
    decreases count + 1 - n
  {
    if n <= count {
      KeptOrDropped(c, n + 1, count);
    }
  }

  /** A stop seen at one look only, and waits that do not sleep. */
  function StopOnce(look: nat): StopOracle {
    StopOracle((k: nat) => k == look, (_: nat) => 0)
  }

  /** Such a run exists: with a reorder interval of 1, a stop seen once, at the guard between numbers 1
      and 2, lets number 1 out first. */
  lemma EarlyFlushHappens()
    ensures var c: Faults := FaultConfig(None, None, Some(1), None, None);
            FlushesEarly(c, 2, StopOnce(2))
  {
    var c: Faults := FaultConfig(None, None, Some(1), None, None);
    var stop := StopOnce(2);
    assert Released(c, None, 1) == ([], Some(1));
    assert AfterWait(stop, 1) == 2 && !Interrupts(stop, 1);
    assert KeptFrom(c, 2, 2) == [2] + KeptFrom(c, 3, 2);
    assert EarlyFlush(c, 2, stop, Some(1), 2, 2);
  }

  /** Without a packet count the run ends only by a stop, and then it is the run of any count that the
      stop cuts short. */
  lemma {:induction false} CountDoesNotMatter(c: Faults, count: nat, more: nat, datagram: nat -> seq<byte>, stop: StopOracle,
                                              slot: Option<Pending>, l: Link)
    requires l.summary.generated < count <= more
    requires Loop(c, count, datagram, stop, slot, l).summary.generated < count
    ensures Loop(c, more, datagram, stop, slot, l) == Loop(c, count, datagram, stop, slot, l)
    decreases count - l.summary.generated
  {
    hide SendBatch, WaitLooks, Process;
    if !stop.answers(l.polls) {
      var (slot', batch, l1) := Generate(c, datagram, slot, Polled(l));
      var (l2, ok) := SendBatch(stop, l1, batch);
      var (l3, interrupted) := Wait(stop, l2);
      if ok && l2.summary.generated < count && !interrupted {
        CountDoesNotMatter(c, count, more, datagram, stop, slot', l3);
      }
    }
  }

  /** The accounting equation of a finite uninterrupted run. */
  lemma SentAccounting(c: Faults, count: nat, datagram: nat -> seq<byte>, stop: StopOracle)
    requires count > 0 && Never(stop)
    ensures var l := Loop(c, count, datagram, stop, None, IDLE);
            && l.summary.generated == count
            && l.summary.sent == |l.sent| == l.summary.generated - l.summary.dropped + l.summary.duplicates
            && l.summary.dropped == DroppedFrom(c, 1, count)
            && l.summary.reorderEvents == Swaps(c, Kept(c, count))
  {
    RunSends(c, count, datagram, stop);
    TotalsCount(NO_PACKETS, Prepared(c, datagram, Swap(c, Kept(c, count))));
    KeptOrDropped(c, 1, count);
    hide Loop, Swap, Swaps, Datagrams, Duplicates;
  }

  /* ----- what an interrupted batch has sent ----- */

  /** The look after sending packets while no look says stop: one for each packet, and those of its wait
      if it is delayed. */
  function QuietLook(stop: StopOracle, look: nat, ps: seq<Pending>): (r: nat)
    ensures r >= look + |ps|
    decreases |ps|
  {
    if ps == [] then look
    else QuietLook(stop, look + 1 + (if ps[0].delayed then stop.sleeps(look + 1) + 1 else 0), ps[1..])
  }

  /** Look k is the first from this one on that says stop. */
  ghost predicate FirstStop(stop: StopOracle, look: nat, k: nat) {
    look <= k && stop.answers(k) && forall j: nat :: look <= j < k ==> !stop.answers(j)
  }

  lemma {:induction false} WaitExactly(answers: nat -> bool, k: nat, sleeps: nat)
    ensures var (looks, seen) := WaitLooks(answers, k, sleeps);
            && (forall j: nat :: k <= j < k + looks - 1 ==> !answers(j))
            && (if seen then answers(k + looks - 1) else looks == sleeps + 1 && !answers(k + sleeps))
    decreases sleeps
  {
    if !answers(k) && sleeps > 0 {
      WaitExactly(answers, k + 1, sleeps - 1);
    }
  }

  /** Where a batch ends when sending is over at this look: before packet m, among whose looks the stop
      was seen; the packets before it are sent and counted, and it is counted as delayed if the stop came
      during its wait. */
  ghost predicate EndsAt(stop: StopOracle, l: Link, l': Link, ps: seq<Pending>, m: nat)
    requires m < |ps| && l'.polls > 0
  {
    var first, s := QuietLook(stop, l.polls, ps[..m]), Totals(l.summary, ps[..m]);
    && first < l'.polls <= QuietLook(stop, first, [ps[m]])
    && l'.sent == l.sent + Datagrams(ps[..m])
    && l'.summary == s.(delayed := s.delayed + if l'.polls > first + 1 then 1 else 0)
  }

  /** The first look that says stop ends the batch, and decides what it has sent; without one everything
      is sent. */
  lemma {:induction false} SendsUntilStop(stop: StopOracle, l: Link, ps: seq<Pending>)
    ensures var (l', ok) := SendPackets(stop, l, ps);
            if ok
            then l'.polls == QuietLook(stop, l.polls, ps) && forall j: nat :: l.polls <= j < l'.polls ==> !stop.answers(j)
            else && l'.polls > l.polls && FirstStop(stop, l.polls, l'.polls - 1)
                 && exists m: nat :: m < |ps| && EndsAt(stop, l, l', ps, m)
    decreases |ps|
  {
    hide Transmit, Datagrams, Totals, FirstStop, EndsAt, SendPackets, QuietLook, Delay;
    var (l', ok) := SendPackets(stop, l, ps);
    if ps == [] {
      NothingToSend(stop, l);
    } else if stop.answers(l.polls) {
      StopsBefore(stop, l, ps);
    } else if Delay(stop, Polled(l), ps[0]).1 {
      StopsDuring(stop, l, ps);
    } else {
      var next := Transmit(Delay(stop, Polled(l), ps[0]).0, ps[0]);
      OneSent(stop, l, ps);
      SendsUntilStop(stop, next, ps[1..]);
      if !ok {
        var m: nat :| m < |ps[1..]| && EndsAt(stop, next, l', ps[1..], m);
        EndsLater(stop, l, next, l', ps, m);
      }
    }
  }

  lemma NothingToSend(stop: StopOracle, l: Link)
    ensures SendPackets(stop, l, []) == (l, true) && QuietLook(stop, l.polls, []) == l.polls
  {
  }

  lemma StopsBefore(stop: StopOracle, l: Link, ps: seq<Pending>)
    requires ps != [] && stop.answers(l.polls)
    ensures SendPackets(stop, l, ps) == (Polled(l), false)
    ensures FirstStop(stop, l.polls, l.polls) && EndsAt(stop, l, Polled(l), ps, 0)
  {
    assert ps[..0] == [] && l.sent + [] == l.sent;
    assert QuietLook(stop, l.polls, [ps[0]]) >= l.polls + 1;
  }

  lemma StopsDuring(stop: StopOracle, l: Link, ps: seq<Pending>)
    requires ps != [] && !stop.answers(l.polls) && Delay(stop, Polled(l), ps[0]).1
    ensures var l' := Delay(stop, Polled(l), ps[0]).0;
            && SendPackets(stop, l, ps) == (l', false)
            && l'.polls > l.polls && FirstStop(stop, l.polls, l'.polls - 1) && EndsAt(stop, l, l', ps, 0)
  {
    WaitExactly(stop.answers, l.polls + 1, stop.sleeps(l.polls + 1));
    assert ps[..0] == [] && l.sent + [] == l.sent;
    hide WaitLooks;
    assert [ps[0]][1..] == [];
    assert QuietLook(stop, l.polls, [ps[0]]) == l.polls + 1 + stop.sleeps(l.polls + 1) + 1;
  }

  lemma OneSent(stop: StopOracle, l: Link, ps: seq<Pending>)
    requires ps != [] && !stop.answers(l.polls) && !Delay(stop, Polled(l), ps[0]).1
    ensures var next := Transmit(Delay(stop, Polled(l), ps[0]).0, ps[0]);
            && SendPackets(stop, l, ps) == SendPackets(stop, next, ps[1..])
            && l.polls < next.polls == QuietLook(stop, l.polls, [ps[0]])
            && QuietLook(stop, l.polls, ps) == QuietLook(stop, next.polls, ps[1..])
            && next.sent == l.sent + Copies(ps[0]) && next.summary == Counted(l.summary, ps[0])
            && (forall j: nat :: l.polls <= j < next.polls ==> !stop.answers(j))
            && (forall k: nat :: FirstStop(stop, next.polls, k) ==> FirstStop(stop, l.polls, k))
  {
    hide *;
    QuietDelay(stop, l, ps[0]);
    TransmitSends(stop, l, ps[0]);
    SendOne(stop, l, ps);
    QuietOne(stop, l.polls, ps);
    var next := Transmit(Delay(stop, Polled(l), ps[0]).0, ps[0]);
    forall k: nat | FirstStop(stop, next.polls, k)
      ensures FirstStop(stop, l.polls, k)
    {
      FirstStopLater(stop, l.polls, next.polls, k);
    }
  }

  lemma SendOne(stop: StopOracle, l: Link, ps: seq<Pending>)
    requires ps != [] && !stop.answers(l.polls) && !Delay(stop, Polled(l), ps[0]).1
    ensures SendPackets(stop, l, ps) == SendPackets(stop, Transmit(Delay(stop, Polled(l), ps[0]).0, ps[0]), ps[1..])
  {
    hide Delay, Transmit, Polled;
  }

  lemma QuietOne(stop: StopOracle, look: nat, ps: seq<Pending>)
    requires ps != []
    ensures var next := look + 1 + (if ps[0].delayed then stop.sleeps(look + 1) + 1 else 0);
            QuietLook(stop, look, [ps[0]]) == next && QuietLook(stop, look, ps) == QuietLook(stop, next, ps[1..])
  {
    assert [ps[0]][1..] == [];
  }

  lemma FirstStopLater(stop: StopOracle, look: nat, next: nat, k: nat)
    requires look <= next && FirstStop(stop, next, k)
    requires forall j: nat :: look <= j < next ==> !stop.answers(j)
    ensures FirstStop(stop, look, k)
  {
  }

  /** The looks of one packet, none of which says stop. */
  lemma QuietDelay(stop: StopOracle, l: Link, p: Pending)
    requires !stop.answers(l.polls) && !Delay(stop, Polled(l), p).1
    ensures var polls := Transmit(Delay(stop, Polled(l), p).0, p).polls;
            && polls == l.polls + 1 + (if p.delayed then stop.sleeps(l.polls + 1) + 1 else 0)
            && forall j: nat :: l.polls <= j < polls ==> !stop.answers(j)
  {
    WaitExactly(stop.answers, l.polls + 1, stop.sleeps(l.polls + 1));
    TransmitPolls(Delay(stop, Polled(l), p).0, p);
    hide WaitLooks, Transmit;
  }

  lemma EndsLater(stop: StopOracle, l: Link, next: Link, l': Link, ps: seq<Pending>, m: nat)
    requires ps != [] && m < |ps[1..]| && l'.polls > 0 && EndsAt(stop, next, l', ps[1..], m)
    requires next.polls == QuietLook(stop, l.polls, [ps[0]])
    requires next.sent == l.sent + Copies(ps[0]) && next.summary == Counted(l.summary, ps[0])
    ensures EndsAt(stop, l, l', ps, m + 1)
  {
    var sent := ps[..m + 1];
    assert sent[0] == ps[0] && sent[1..] == ps[1..][..m] && ps[m + 1] == ps[1..][m];
    assert [ps[0]][1..] == [];
    assert QuietLook(stop, l.polls, sent) == QuietLook(stop, next.polls, sent[1..]);
    assert Datagrams(sent) == Copies(ps[0]) + Datagrams(sent[1..]);
    assert Totals(l.summary, sent) == Totals(next.summary, sent[1..]);
    hide Datagrams, Totals, QuietLook, Copies, Counted;
  }

  /* ----- the counters, by divisibility ----- */

  /** An interval applies to the numbers it divides. */
  predicate Divides(interval: Option<nat>, n: nat) {
    interval.Some? && interval.value > 0 && n % interval.value == 0
  }

  /** How many of the numbers an interval applies to. */
  function Divided(interval: Option<nat>, ns: seq<nat>): nat {
    if ns == [] then 0 else One(Divides(interval, ns[0])) + Divided(interval, ns[1..])
  }

  /** And counted twice if duplicated. */
  function DividedCopies(interval: Option<nat>, duplicate: Option<nat>, ns: seq<nat>): nat {
    if ns == [] then 0
    else CopiesOf(interval, duplicate, ns[0]) + DividedCopies(interval, duplicate, ns[1..])
  }

  lemma {:induction false} DividedSwapped(c: Faults, interval: Option<nat>, duplicate: Option<nat>, ns: seq<nat>)
    ensures Divided(interval, Swap(c, ns)) == Divided(interval, ns)
    ensures DividedCopies(interval, duplicate, Swap(c, ns)) == DividedCopies(interval, duplicate, ns)
    decreases |ns|
  {
    hide *;
    if |ns| > 1 && Reorders(c, ns[0]) {
      DividedSwapped(c, interval, duplicate, ns[2..]);
      SwapTwo(c, ns[0], ns[1], ns[2..]);
      assert ns == [ns[0], ns[1]] + ns[2..];
      DividedTwo(interval, duplicate, ns[0], ns[1], ns[2..]);
      DividedTwo(interval, duplicate, ns[1], ns[0], Swap(c, ns[2..]));
    } else if ns != [] {
      DividedSwapped(c, interval, duplicate, ns[1..]);
      SwapFirst(c, ns);
      assert ns == [ns[0]] + ns[1..];
      DividedOne(interval, duplicate, ns[0], ns[1..]);
      DividedOne(interval, duplicate, ns[0], Swap(c, ns[1..]));
    } else {
      SwapNothing(c);
    }
  }

  lemma SwapFirst(c: Faults, ns: seq<nat>)
    requires ns != [] && !(|ns| > 1 && Reorders(c, ns[0]))
    ensures Swap(c, ns) == [ns[0]] + Swap(c, ns[1..])
  {
  }

  /** How often a number counts. */
  function CopiesOf(interval: Option<nat>, duplicate: Option<nat>, n: nat): nat {
    if !Divides(interval, n) then 0 else if Divides(duplicate, n) then 2 else 1
  }

  lemma DividedOne(interval: Option<nat>, duplicate: Option<nat>, a: nat, rest: seq<nat>)
    ensures Divided(interval, [a] + rest) == One(Divides(interval, a)) + Divided(interval, rest)
    ensures DividedCopies(interval, duplicate, [a] + rest)
         == CopiesOf(interval, duplicate, a) + DividedCopies(interval, duplicate, rest)
  {
    hide Divides;
    assert ([a] + rest)[1..] == rest;
  }

  lemma DividedTwo(interval: Option<nat>, duplicate: Option<nat>, a: nat, b: nat, rest: seq<nat>)
    ensures Divided(interval, [a, b] + rest) == One(Divides(interval, a)) + One(Divides(interval, b)) + Divided(interval, rest)
    ensures DividedCopies(interval, duplicate, [a, b] + rest)
         == CopiesOf(interval, duplicate, a) + CopiesOf(interval, duplicate, b) + DividedCopies(interval, duplicate, rest)
  {
    hide *;
    assert [a, b] + rest == [a] + ([b] + rest);
    DividedOne(interval, duplicate, a, [b] + rest);
    DividedOne(interval, duplicate, b, rest);
  }

  lemma {:induction false} TotalsDivide(c: Faults, datagram: nat -> seq<byte>, ns: seq<nat>, s: Summary)
    ensures var t := Totals(s, Prepared(c, datagram, ns));
            && t.delayed == s.delayed + Divided(c.delayEvery, ns)
            && t.duplicates == s.duplicates + Divided(c.duplicateEvery, ns)
            && t.corrupted == s.corrupted + DividedCopies(c.corruptEvery, c.duplicateEvery, ns)
    decreases |ns|
  {
    hide P.Corrupted;
    if ns != [] {
      var ps := Prepared(c, datagram, ns);
      assert ps[1..] == Prepared(c, datagram, ns[1..]);
      TotalsDivide(c, datagram, ns[1..], Counted(s, ps[0]));
      CountedOne(s, ps[0]);
      hide Counted;
    }
  }

  lemma CountedOne(s: Summary, p: Pending)
    ensures var t := Counted(s, p);
            && t.delayed == s.delayed + One(p.delayed) && t.duplicates == s.duplicates + One(p.duplicate)
            && t.corrupted == s.corrupted + (if !p.corrupted then 0 else if p.duplicate then 2 else 1)
  {
  }

  /** Every n-th number of 1 to count: count / n of them. */
  lemma {:induction false} DroppedUpTo(c: Faults, n: nat, count: nat)
    requires 1 <= n <= count + 1 && c.dropEvery.Some?
    ensures DroppedFrom(c, n, count) == count / c.dropEvery.value - (n - 1) / c.dropEvery.value
    decreases count + 1 - n
  {
    if n <= count {
      DroppedUpTo(c, n + 1, count);
      NextMultiple(n, c.dropEvery.value);
    }
  }

  lemma NextMultiple(n: nat, d: nat)
    requires n >= 1 && d >= 1
    ensures n / d - (n - 1) / d == One(n % d == 0)
  {
    var q, r := (n - 1) / d, (n - 1) % d;
    assert n - 1 == d * q + r;
    if r + 1 == d {
      assert d * (q + 1) == d * q + d;
      DivModUnique(n, d, q + 1, 0);
    } else {
      DivModUnique(n, d, q, r + 1);
    }
  }

  lemma NoDropRule(c: Faults, n: nat, count: nat)
    requires c.dropEvery.None?
    ensures DroppedFrom(c, n, count) == 0
    decreases count + 1 - n
  {
  }

  /** Every counter of an uninterrupted run in terms of the configured intervals: one packet in
      `dropEvery` is dropped, and of the others those are delayed, duplicated or corrupted whose number
      the interval divides. */
  lemma CountersByInterval(c: Faults, count: nat, datagram: nat -> seq<byte>, stop: StopOracle)
    requires count > 0 && Never(stop)
    ensures var s := Loop(c, count, datagram, stop, None, IDLE).summary;
            && s.dropped == (if c.dropEvery.Some? then count / c.dropEvery.value else 0)
            && s.delayed == Divided(c.delayEvery, Kept(c, count))
            && s.duplicates == Divided(c.duplicateEvery, Kept(c, count))
            && s.corrupted == DividedCopies(c.corruptEvery, c.duplicateEvery, Kept(c, count))
  {
    RunSends(c, count, datagram, stop);
    DividedSwapped(c, c.delayEvery, c.duplicateEvery, Kept(c, count));
    DividedSwapped(c, c.duplicateEvery, c.duplicateEvery, Kept(c, count));
    DividedSwapped(c, c.corruptEvery, c.duplicateEvery, Kept(c, count));
    TotalsDivide(c, datagram, Swap(c, Kept(c, count)), NO_PACKETS);
    hide Loop, Swap, Swaps, Datagrams, Divided, DividedCopies, KeptFrom, Totals;
    if c.dropEvery.Some? {
      DroppedUpTo(c, 1, count);
      Zero(c.dropEvery.value);
    } else {
      NoDropRule(c, 1, count);
    }
  }

  lemma Zero(d: nat)
    requires d > 0
    ensures 0 / d == 0
  {
  }

  /* ----- reordering is a set of disjoint adjacent transpositions ----- */

  /** Position i keeps its element, or changes places with one neighbour. */
  ghost predicate StaysOrTrades(xs: seq<nat>, ys: seq<nat>, i: nat)
    requires |xs| == |ys| && i < |xs|
  {
    || ys[i] == xs[i]
    || (i + 1 < |xs| && ys[i] == xs[i + 1] && ys[i + 1] == xs[i])
    || (i > 0 && ys[i] == xs[i - 1] && ys[i - 1] == xs[i])
  }

  lemma {:induction false} SwapTransposes(c: Faults, xs: seq<nat>)
    ensures forall i: nat :: i < |xs| ==> StaysOrTrades(xs, Swap(c, xs), i)
    decreases |xs|
  {
    if xs != [] {
      var ys := Swap(c, xs);
      var k := if |xs| > 1 && Reorders(c, xs[0]) then 2 else 1;
      SwapTransposes(c, xs[k..]);
      forall i: nat | i < |xs|
        ensures StaysOrTrades(xs, ys, i)
      {
        if i >= k {
          assert StaysOrTrades(xs[k..], Swap(c, xs[k..]), i - k);
        }
      }
    }
  }

  lemma {:induction false} SwapKeepsElements(c: Faults, xs: seq<nat>)
    ensures multiset(Swap(c, xs)) == multiset(xs)
    decreases |xs|
  {
    hide Swap, Reorders;
    if xs == [] {
      SwapNothing(c);
    } else if |xs| > 1 && Reorders(c, xs[0]) {
      var rest := xs[2..];
      SwapKeepsElements(c, rest);
      SwapTwo(c, xs[0], xs[1], rest);
      TradePlaces(xs, Swap(c, rest));
    } else if |xs| > 1 {
      SwapKeepsElements(c, xs[1..]);
      SwapOne(c, xs[0], xs[1..]);
      KeepPlace(xs, Swap(c, xs[1..]));
    } else {
      SwapSingle(c, xs[0]);
      assert xs == [xs[0]];
    }
  }

  lemma TradePlaces(xs: seq<nat>, ys: seq<nat>)
    requires |xs| > 1 && multiset(ys) == multiset(xs[2..])
    ensures xs == [xs[0], xs[1]] + xs[2..] && multiset([xs[1], xs[0]] + ys) == multiset(xs)
  {
    assert multiset([xs[1], xs[0]] + ys) == multiset{xs[1], xs[0]} + multiset(ys);
    assert xs == [xs[0], xs[1]] + xs[2..];
    assert multiset([xs[0], xs[1]] + xs[2..]) == multiset{xs[0], xs[1]} + multiset(xs[2..]);
  }

  lemma KeepPlace(xs: seq<nat>, ys: seq<nat>)
    requires |xs| > 0 && multiset(ys) == multiset(xs[1..])
    ensures xs == [xs[0]] + xs[1..] && multiset([xs[0]] + ys) == multiset(xs)
  {
    assert multiset([xs[0]] + ys) == multiset{xs[0]} + multiset(ys);
    assert xs == [xs[0]] + xs[1..];
    assert multiset([xs[0]] + xs[1..]) == multiset{xs[0]} + multiset(xs[1..]);
  }

  lemma SwapNothing(c: Faults)
    ensures Swap(c, []) == []
  {
  }

  lemma SwapSingle(c: Faults, x: nat)
    ensures Swap(c, [x]) == [x]
  {
    assert Swap(c, [x]) == [x] + Swap(c, [x][1..]);
  }

  ghost predicate Increasing(xs: seq<nat>) {
    forall i, j :: 0 <= i < j < |xs| ==> xs[i] < xs[j]
  }

  /** How many elements lie below x. */
  function Below(x: nat, ys: seq<nat>): nat {
    if ys == [] then 0 else One(ys[0] < x) + Below(x, ys[1..])
  }

  /** The pairs that stand in the wrong order. */
  function Inversions(ys: seq<nat>): nat {
    if ys == [] then 0 else Below(ys[0], ys[1..]) + Inversions(ys[1..])
  }

  lemma {:induction false} NoneBelow(x: nat, ys: seq<nat>)
    requires forall i :: 0 <= i < |ys| ==> x <= ys[i]
    ensures Below(x, ys) == 0
  {
    if ys != [] {
      NoneBelow(x, ys[1..]);
    }
  }

  lemma SwapKeepsBound(c: Faults, xs: seq<nat>, x: nat)
    requires forall i :: 0 <= i < |xs| ==> x <= xs[i]
    ensures forall i :: 0 <= i < |xs| ==> x <= Swap(c, xs)[i]
  {
    SwapTransposes(c, xs);
    forall i: nat | i < |xs|
      ensures x <= Swap(c, xs)[i]
    {
      assert StaysOrTrades(xs, Swap(c, xs), i);
    }
  }

  /** The reorder events are exactly the inversions of what is sent. */
  lemma {:induction false} SwapsAreInversions(c: Faults, xs: seq<nat>)
    requires Increasing(xs)
    ensures Inversions(Swap(c, xs)) == Swaps(c, xs)
    decreases |xs|
  {
    if xs != [] {
      if |xs| > 1 && Reorders(c, xs[0]) {
        var rest := Swap(c, xs[2..]);
        assert Swap(c, xs)[1..] == [xs[0]] + rest;
        SwapsAreInversions(c, xs[2..]);
        SwapKeepsBound(c, xs[2..], xs[1]);
        NoneBelow(xs[0], rest);
        NoneBelow(xs[1], rest);
        assert ([xs[0]] + rest)[1..] == rest;
      } else {
        SwapsAreInversions(c, xs[1..]);
        SwapKeepsBound(c, xs[1..], xs[0]);
        NoneBelow(xs[0], Swap(c, xs[1..]));
      }
    }
  }

  lemma {:induction false} KeptIncreasing(c: Faults, n: nat, count: nat)
    ensures Increasing(KeptFrom(c, n, count))
    ensures forall i :: 0 <= i < |KeptFrom(c, n, count)| ==>
              n <= KeptFrom(c, n, count)[i] <= count && !Dropped(c, KeptFrom(c, n, count)[i])
    decreases count + 1 - n
  {
    if n <= count {
      KeptIncreasing(c, n + 1, count);
    }
  }

  /** The packets sent are the undropped ones, each exactly once, at most one place out of order, and
      the reorder events count the inversions. */
  lemma InjectorPermutes(c: Faults, count: nat)
    ensures var kept := Kept(c, count);
            var sent := Swap(c, kept);
            && Increasing(kept)
            && (forall n: nat :: n in kept <==> 1 <= n <= count && !Dropped(c, n))
            && multiset(sent) == multiset(kept)
            && (forall i: nat :: i < |kept| ==> StaysOrTrades(kept, sent, i))
            && Inversions(sent) == Swaps(c, kept)
  {
    KeptIncreasing(c, 1, count);
    KeptAll(c, 1, count);
    SwapTransposes(c, Kept(c, count));
    SwapKeepsElements(c, Kept(c, count));
    SwapsAreInversions(c, Kept(c, count));
  }

  lemma {:induction false} KeptAll(c: Faults, n: nat, count: nat)
    ensures forall m: nat :: m in KeptFrom(c, n, count) <==> n <= m <= count && !Dropped(c, m)
    decreases count + 1 - n
  {
    if n <= count {
      KeptAll(c, n + 1, count);
    }
  }

  /* ----- corruption ----- */

  function Rejected(datagrams: seq<seq<byte>>): nat {
    if datagrams == [] then 0 else One(P.Decode(datagrams[0]).Failed?) + Rejected(datagrams[1..])
  }

  lemma {:induction false} RejectedConcat(a: seq<seq<byte>>, b: seq<seq<byte>>)
    ensures Rejected(a + b) == Rejected(a) + Rejected(b)
  {
    if a == [] {
      assert a + b == b;
    } else {
      assert (a + b)[1..] == a[1..] + b;
      RejectedConcat(a[1..], b);
    }
  }

  ghost predicate SoundOrCorrupted(p: Pending) {
    P.Decode(p.bytes).Failed? <==> p.corrupted
  }

  lemma {:induction false} CorruptedRejected(s: Summary, ps: seq<Pending>)
    requires forall i :: 0 <= i < |ps| ==> SoundOrCorrupted(ps[i])
    ensures Totals(s, ps).corrupted == s.corrupted + Rejected(Datagrams(ps))
    decreases |ps|
  {
    if ps != [] {
      var p := ps[0];
      assert SoundOrCorrupted(p);
      CorruptedRejected(Counted(s, p), ps[1..]);
      RejectedConcat(Copies(p), Datagrams(ps[1..]));
      CopiesRejected(p);
    }
  }

  lemma CopiesRejected(p: Pending)
    ensures Rejected(Copies(p)) == if P.Decode(p.bytes).Failed? then |Copies(p)| else 0
  {
    hide P.Decode;
    assert Rejected([p.bytes]) == One(P.Decode(p.bytes).Failed?) + Rejected([]);
    if p.duplicate {
      assert [p.bytes, p.bytes][1..] == [p.bytes];
    }
  }

  /** A receiver rejects exactly the datagrams that the summary counts as corrupted. */
  lemma CorruptionAccounting(c: Faults, count: nat, datagram: nat -> seq<byte>, stop: StopOracle)
    requires count > 0 && Never(stop)
    requires forall n :: P.Decode(datagram(n)).Decoded?
    ensures var l := Loop(c, count, datagram, stop, None, IDLE);
            Rejected(l.sent) == l.summary.corrupted
  {
    hide Loop, Swap, Datagrams, P.Decode, P.Corrupted;
    var ps := Prepared(c, datagram, Swap(c, Kept(c, count)));
    forall i | 0 <= i < |ps|
      ensures SoundOrCorrupted(ps[i])
    {
      P.CorruptionRejected(datagram(Swap(c, Kept(c, count))[i]));
    }
    RunSends(c, count, datagram, stop);
    CorruptedRejected(NO_PACKETS, ps);
  }
}
