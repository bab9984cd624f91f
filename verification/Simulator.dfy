/** The fault injector and the simulator's send loop, without socket and clock. */
module Simulator {
  import opened Words
  import opened Types
  import P = PacketCodec

  datatype FaultConfig = FaultConfig(
    dropEvery: Option<nat>,
    duplicateEvery: Option<nat>,
    reorderEvery: Option<nat>,
    delayEvery: Option<nat>,
    corruptEvery: Option<nat>)
  {
    /** `validate_interval`: an interval that is given is positive. */
    predicate Valid() {
      && (dropEvery.Some? ==> dropEvery.value > 0)
      && (duplicateEvery.Some? ==> duplicateEvery.value > 0)
      && (reorderEvery.Some? ==> reorderEvery.value > 0)
      && (delayEvery.Some? ==> delayEvery.value > 0)
      && (corruptEvery.Some? ==> corruptEvery.value > 0)
    }
  }

  type Faults = c: FaultConfig | c.Valid() witness FaultConfig(None, None, None, None, None)

  predicate MatchesInterval(interval: Option<nat>, n: nat)
    requires interval.Some? ==> interval.value > 0
  {
    interval.Some? && n % interval.value == 0
  }

  predicate Dropped(c: Faults, n: nat) { MatchesInterval(c.dropEvery, n) }
  predicate Duplicated(c: Faults, n: nat) { MatchesInterval(c.duplicateEvery, n) }
  predicate Reorders(c: Faults, n: nat) { MatchesInterval(c.reorderEvery, n) }

  datatype Pending = Pending(bytes: seq<byte>, duplicate: bool, corrupted: bool, delayed: bool)

  datatype Batch = Batch(packets: seq<Pending>, dropped: nat, reorderEvents: nat)

  function Prepare(c: Faults, n: nat, bytes: seq<byte>): Pending {
    var corrupted := MatchesInterval(c.corruptEvery, n);
    Pending(if corrupted then P.Corrupted(bytes) else bytes,
            Duplicated(c, n), corrupted, MatchesInterval(c.delayEvery, n))
  }

  /** `process`: the new content of the one-slot buffer, and what to send now. */
  function Process(c: Faults, held: Option<Pending>, n: nat, bytes: seq<byte>): (Option<Pending>, Batch) {
    if Dropped(c, n) then (held, Batch([], 1, 0))
    else
      var packet := Prepare(c, n, bytes);
      if held.Some? then (None, Batch([packet, held.value], 0, 1))
      else if Reorders(c, n) then (Some(packet), Batch([], 0, 0))
      else (None, Batch([packet], 0, 0))
  }

  function Flush(held: Option<Pending>): Batch {
    Batch(if held.Some? then [held.value] else [], 0, 0)
  }

  class FaultInjector {
    const config: Faults
    var held: Pending
    var hasHeld: bool

    ghost function Buffer(): Option<Pending>
      reads this
    {
      if hasHeld then Some(held) else None
    }

    constructor (config: Faults)
      ensures this.config == config && Buffer() == None
    {
      this.config := config;
      held := Pending([], false, false, false);
      hasHeld := false;
    }

    method ProcessPacket(n: nat, bytes: seq<byte>) returns (batch: Batch)
      modifies this
      ensures (Buffer(), batch) == Process(config, old(Buffer()), n, bytes)
    {
      if MatchesInterval(config.dropEvery, n) {
        return Batch([], 1, 0);
      }
      var packet := Pending(bytes, MatchesInterval(config.duplicateEvery, n),
                            MatchesInterval(config.corruptEvery, n), MatchesInterval(config.delayEvery, n));
      if packet.corrupted {
        packet := packet.(bytes := P.Corrupted(bytes));
      }
      if hasHeld {
        batch := Batch([packet, held], 0, 1);
        held := Pending([], false, false, false);
        hasHeld := false;
        return;
      }
      if MatchesInterval(config.reorderEvery, n) {
        held := packet;
        hasHeld := true;
        return Batch([], 0, 0);
      }
      return Batch([packet], 0, 0);
    }

    method Finish() returns (batch: Batch)
      modifies this
      ensures batch == Flush(old(Buffer())) && Buffer() == None
    {
      batch := Batch([], 0, 0);
      if hasHeld {
        batch := Batch([held], 0, 0);
        held := Pending([], false, false, false);
        hasHeld := false;
      }
    }
  }

  /* ----- sending ----- */

  datatype Summary = Summary(
    generated: nat,
    sent: nat,
    dropped: nat,
    duplicates: nat,
    reorderEvents: nat,
    delayed: nat,
    corrupted: nat)

  const NO_PACKETS := Summary(0, 0, 0, 0, 0, 0, 0)

  /** The datagrams handed to the socket, the summary, and how often the stop predicate was asked. */
  datatype Link = Link(sent: seq<seq<byte>>, summary: Summary, polls: nat)

  const IDLE := Link([], NO_PACKETS, 0)

  /** The stop predicate and the clock as oracles: `answers(k)` is what the predicate says at its k-th
      look, and a wait that begins at that look sleeps `sleeps(k)` times before its deadline. */
  datatype StopOracle = StopOracle(answers: nat -> bool, sleeps: nat -> nat)

  /** A wait from look k on: how often it looks, and whether it saw a stop. */
  function WaitLooks(answers: nat -> bool, k: nat, sleeps: nat): (r: (nat, bool))
    ensures 1 <= r.0 <= sleeps + 1
    ensures r.1 <==> exists j: nat :: k <= j <= k + sleeps && answers(j)
    decreases sleeps
  {
    if answers(k) then (1, true)
    else if sleeps == 0 then (1, false)
    else
      var (looks, seen) := WaitLooks(answers, k + 1, sleeps - 1);
      (looks + 1, seen)
  }

  /** `wait_until_or_stop` as a function of the link before. */
  function Wait(stop: StopOracle, l: Link): (r: (Link, bool))
    ensures r.0.summary == l.summary && r.0.sent == l.sent
  {
    var (looks, seen) := WaitLooks(stop.answers, l.polls, stop.sleeps(l.polls));
    (l.(polls := l.polls + looks), seen)
  }

  function One(b: bool): nat {
    if b then 1 else 0
  }

  /** The datagrams of one prepared packet: one, or two equal ones. */
  function Copies(p: Pending): seq<seq<byte>> {
    if p.duplicate then [p.bytes, p.bytes] else [p.bytes]
  }

  function Transmit(l: Link, p: Pending): Link {
    var s, k := l.summary, |Copies(p)|;
    l.(sent := l.sent + Copies(p),
       summary := s.(sent := s.sent + k,
                     duplicates := s.duplicates + One(p.duplicate),
                     corrupted := s.corrupted + if p.corrupted then k else 0))
  }

  function CountDelay(l: Link, p: Pending): Link {
    l.(summary := l.summary.(delayed := l.summary.delayed + One(p.delayed)))
  }

  /** The delay of one packet; true means that a stop was noticed. */
  function Delay(stop: StopOracle, l: Link, p: Pending): (Link, bool) {
    if p.delayed then Wait(stop, CountDelay(l, p)) else (l, false)
  }

  /** The packet loop of `send_batch`; false means that a stop was noticed. */
  function SendPackets(stop: StopOracle, l: Link, ps: seq<Pending>): (r: (Link, bool))
    ensures r.0.summary.generated == l.summary.generated
    decreases |ps|
  {
    if ps == [] then (l, true)
    else if stop.answers(l.polls) then (Polled(l), false)
    else
      var (l1, interrupted) := Delay(stop, Polled(l), ps[0]);
      if interrupted then (l1, false) else SendPackets(stop, Transmit(l1, ps[0]), ps[1..])
  }

  function SendBatch(stop: StopOracle, l: Link, b: Batch): (r: (Link, bool))
    ensures r.0.summary.generated == l.summary.generated
  {
    var (l', ok) := SendPackets(stop, l, b.packets);
    if ok
    then (l'.(summary := l'.summary.(reorderEvents := l'.summary.reorderEvents + b.reorderEvents)), true)
    else (l', false)
  }

  function Polled(l: Link): Link {
    l.(polls := l.polls + 1)
  }

  /** Counts packet `summary.generated + 1` as generated and injects faults into it. */
  function Generate(c: Faults, datagram: nat -> seq<byte>, held: Option<Pending>, l: Link)
    : (Option<Pending>, Batch, Link)
  {
    var n := l.summary.generated + 1;
    var (held', batch) := Process(c, held, n, datagram(n));
    (held', batch, l.(summary := l.summary.(generated := n, dropped := l.summary.dropped + batch.dropped)))
  }

  /** What follows the loop unless a stop interrupted it. */
  function Final(stop: StopOracle, held: Option<Pending>, l: Link): Link {
    if stop.answers(l.polls) then Polled(l) else SendBatch(stop, Polled(l), Flush(held)).0
  }

  /** The generation loop and the final flush. */
  function Loop(c: Faults, count: nat, datagram: nat -> seq<byte>, stop: StopOracle,
                held: Option<Pending>, l: Link): Link
    decreases count - l.summary.generated
  {
    if l.summary.generated >= count || stop.answers(l.polls) then Final(stop, held, Polled(l))
    else
      var (held', batch, l1) := Generate(c, datagram, held, Polled(l));
      var (l2, ok) := SendBatch(stop, l1, batch);
      if !ok then l2
      else if l2.summary.generated == count then Final(stop, held', l2)
      else
        var (l3, interrupted) := Wait(stop, l2);
        if interrupted then l3 else Loop(c, count, datagram, stop, held', l3)
  }

  lemma FinalFlush(stop: StopOracle, held: Option<Pending>, l: Link)
    ensures Final(stop, held, l)
         == if stop.answers(l.polls) then Polled(l) else SendBatch(stop, Polled(l), Flush(held)).0
  {
  }

  lemma FinalKeeps(stop: StopOracle, held: Option<Pending>, l: Link)
    ensures Final(stop, held, l).summary.generated == l.summary.generated
  {
    hide SendBatch;
  }

  lemma {:induction false} LoopGrows(c: Faults, count: nat, datagram: nat -> seq<byte>, stop: StopOracle,
                                     held: Option<Pending>, l: Link)
    ensures Loop(c, count, datagram, stop, held, l).summary.generated >= l.summary.generated
    decreases count - l.summary.generated
  {
    hide SendBatch, Process, Wait, Final;
    FinalKeeps(stop, held, Polled(l));
    if l.summary.generated < count && !stop.answers(l.polls) {
      var (held', batch, l1) := Generate(c, datagram, held, Polled(l));
      var l2 := SendBatch(stop, l1, batch).0;
      FinalKeeps(stop, held', l2);
      if l2.summary.generated < count {
        LoopGrows(c, count, datagram, stop, held', Wait(stop, l2).0);
      }
    }
  }

  /** `run_simulator`.  Without a packet count the run ends only by a stop; `bound` is then any number of
      packets that it does not reach, and otherwise the count. */
  method RunSimulator(c: Faults, packetCount: Option<nat>, datagram: nat -> seq<byte>, stop: StopOracle, ghost bound: nat)
    returns (l: Link)
    requires packetCount.Some? ==> packetCount.value == bound > 0
    requires packetCount.None? ==> Loop(c, bound, datagram, stop, None, IDLE).summary.generated < bound
    ensures l == Loop(c, bound, datagram, stop, None, IDLE)
  {
    hide Process, SendBatch, Flush, Wait, Final;
    ghost var target := Loop(c, bound, datagram, stop, None, IDLE);
    LoopGrows(c, bound, datagram, stop, None, IDLE);
    var injector := new FaultInjector(c);
    l := IDLE;
    var stopped := false;
    var running := true;
    while running
      invariant fresh(injector) && injector.config == c
      invariant l.summary.generated <= bound
      invariant running ==> !stopped && l.summary.generated < bound
      invariant running ==> Loop(c, bound, datagram, stop, injector.Buffer(), l) == target
      invariant !running && !stopped ==> Final(stop, injector.Buffer(), l) == target
      invariant stopped ==> l == target
      decreases bound - l.summary.generated, running
    {
      var stopRequested := stop.answers(l.polls);
      l := Polled(l);
      if stopRequested {
        running := false;
      } else {
        var n := l.summary.generated + 1;
        var bytes := datagram(n);
        l := l.(summary := l.summary.(generated := n));
        var batch := injector.ProcessPacket(n, bytes);
        l := l.(summary := l.summary.(dropped := l.summary.dropped + batch.dropped));
        var ok;
        l, ok := SendWholeBatch(stop, l, batch);
        FinalKeeps(stop, injector.Buffer(), l);
        if !ok {
          stopped, running := true, false;
        } else if packetCount.Some? && l.summary.generated == packetCount.value {
          running := false;
        } else {
          var interrupted;
          l, interrupted := WaitUntilOrStop(stop, l);
          if interrupted {
            stopped, running := true, false;
          }
        }
      }
    }
    if !stopped {
      FinalFlush(stop, injector.Buffer(), l);
      var stopRequested := stop.answers(l.polls);
      l := Polled(l);
      if !stopRequested {
        var batch := injector.Finish();
        var ok;
        l, ok := SendWholeBatch(stop, l, batch);
      }
    }
  }

  /** The polling loop of a wait: every look at the predicate, and the sleeps between them. */
  method WaitUntilOrStop(stop: StopOracle, start: Link) returns (l: Link, interrupted: bool)
    ensures (l, interrupted) == Wait(stop, start)
  {
    l := start;
    var sleeps := stop.sleeps(start.polls);
    while !stop.answers(l.polls)
      invariant l == start.(polls := l.polls) && l.polls >= start.polls
      invariant var (looks, seen) := WaitLooks(stop.answers, l.polls, sleeps);
                Wait(stop, start) == (start.(polls := l.polls + looks), seen)
      decreases sleeps
    {
      l := Polled(l);
      if sleeps == 0 {
        return l, false;
      }
      sleeps := sleeps - 1;
    }
    return Polled(l), true;
  }

  method SendWholeBatch(stop: StopOracle, start: Link, batch: Batch) returns (l: Link, ok: bool)
    ensures (l, ok) == SendBatch(stop, start, batch)
  {
    l := start;
    var i := 0;
    while i < |batch.packets|
      invariant i <= |batch.packets|
      invariant SendPackets(stop, l, batch.packets[i..]) == SendPackets(stop, start, batch.packets)
    {
      var packet := batch.packets[i];
      assert batch.packets[i..][1..] == batch.packets[i + 1..];
      var stopRequested := stop.answers(l.polls);
      l := Polled(l);
      if stopRequested {
        return l, false;
      }
      if packet.delayed {
        l := l.(summary := l.summary.(delayed := l.summary.delayed + 1));
        var interrupted;
        l, interrupted := WaitUntilOrStop(stop, l);
        if interrupted {
          return l, false;
        }
      }
      l := Transmit(l, packet);
      i := i + 1;
    }
    l := l.(summary := l.summary.(reorderEvents := l.summary.reorderEvents + batch.reorderEvents));
    return l, true;
  }
}
