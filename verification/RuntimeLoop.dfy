/** Runtime::run as a program: the two nested loops over the components themselves.  The workers' calls
    run in turns between the statements of the loop; `RuntimeSystem` has every interleaving. */
module RuntimeLoop {
  import opened Words
  import opened Types
  import opened Tracker
  import opened Monitor
  import opened MonitorReport
  import opened SampleProcessor
  import opened MonitorRuns
  import opened RuntimeSystem
  import opened RuntimeRuns

  /* ----- which packets are received ----- */

  /** What successive polls of the receiver return. */
  type Polls = seq<seq<ReceivedPacket>>

  predicate Full(limit: Option<nat>, count: nat) {
    limit.Some? && count >= limit.value
  }

  /** The packets taken from one poll: up to the first look at the stop predicate that says stop, and up
      to the limit.  The predicate is looked at once per packet, from its n-th look on. */
  function TakenFrom(packets: seq<ReceivedPacket>, stop: nat -> bool, limit: Option<nat>, n: nat, count: nat)
    : (r: seq<ReceivedPacket>)
    ensures |r| <= |packets|
  {
    if packets == [] || stop(n) || Full(limit, count) then []
    else [packets[0]] + TakenFrom(packets[1..], stop, limit, n + 1, count + 1)
  }

  /** How often the inner loop looked at the stop predicate. */
  function Looks(packets: seq<ReceivedPacket>, taken: nat): nat {
    if taken < |packets| then taken + 1 else taken
  }

  lemma LooksAre(packets: seq<ReceivedPacket>, taken: nat)
    ensures Looks(packets, taken) == if taken < |packets| then taken + 1 else taken
  {
  }

  function ReceivedFrom(polls: Polls, stop: nat -> bool, limit: Option<nat>, n: nat, count: nat): seq<ReceivedPacket> {
    if polls == [] || stop(n) || Full(limit, count) then []
    else
      var taken := TakenFrom(polls[0], stop, limit, n + 1, count);
      taken + ReceivedFrom(polls[1..], stop, limit, n + 1 + Looks(polls[0], |taken|), count + |taken|)
  }

  function Flat(polls: Polls): seq<ReceivedPacket> {
    if polls == [] then [] else polls[0] + Flat(polls[1..])
  }

  /** How many looks in a row say no, from the n-th on, up to m. */
  function Calm(m: nat, stop: nat -> bool, n: nat): (r: nat)
    ensures r <= m
  {
    if m == 0 || stop(n) then 0 else 1 + Calm(m - 1, stop, n + 1)
  }

  /** From look n on, the outer loop gets past its guard often enough to reach a packet whose own look
      says no as well. */
  predicate Resumes(polls: Polls, stop: nat -> bool, n: nat) {
    polls != [] && !stop(n) &&
    ((polls[0] != [] && !stop(n + 1)) || Resumes(polls[1..], stop, n + 1 + (if polls[0] == [] then 0 else 1)))
  }

  /** Some look inside a poll, below the limit, says stop, which discards the rest of that poll; later
      looks take it back for a later packet. */
  predicate Skips(polls: Polls, stop: nat -> bool, limit: Option<nat>, n: nat, count: nat) {
    if polls == [] || stop(n) then false
    else
      var calm := Calm(|polls[0]|, stop, n + 1);
      if Full(limit, count + calm) then false
      else if calm < |polls[0]| then Resumes(polls[1..], stop, n + 2 + calm)
      else Skips(polls[1..], stop, limit, n + 1 + calm, count + calm)
  }

  lemma {:induction false} TakenIsPrefix(packets: seq<ReceivedPacket>, stop: nat -> bool, limit: Option<nat>, n: nat, count: nat)
    requires limit.Some? ==> count <= limit.value
    ensures var taken := TakenFrom(packets, stop, limit, n, count);
            && taken <= packets
            && (limit.Some? ==> count + |taken| <= limit.value)
            && (|taken| < |packets| ==> stop(n + |taken|) || Full(limit, count + |taken|))
  {
    if packets != [] && !stop(n) && !Full(limit, count) {
      TakenIsPrefix(packets[1..], stop, limit, n + 1, count + 1);
    }
  }

  lemma NothingReceived(polls: Polls, stop: nat -> bool, limit: Option<nat>, n: nat, count: nat)
    requires polls == [] || stop(n) || Full(limit, count)
    ensures ReceivedFrom(polls, stop, limit, n, count) == []
  {
  }

  /** What the outer loop does from poll k on. */
  lemma FromPoll(polls: Polls, k: nat, stop: nat -> bool, limit: Option<nat>, n: nat, count: nat)
    requires k <= |polls|
    ensures k == |polls| || stop(n) || Full(limit, count) ==> ReceivedFrom(polls[k..], stop, limit, n, count) == []
    ensures k < |polls| && !stop(n) && !Full(limit, count) ==>
              var taken := TakenFrom(polls[k], stop, limit, n + 1, count);
              ReceivedFrom(polls[k..], stop, limit, n, count)
              == taken + ReceivedFrom(polls[k + 1..], stop, limit, n + 1 + Looks(polls[k], |taken|), count + |taken|)
  {
    hide TakenFrom, Looks;
    if k < |polls| {
      assert polls[k..][0] == polls[k] && polls[k..][1..] == polls[k + 1..];
    }
  }

  /** What the inner loop does from packet j on. */
  lemma FromPacket(packets: seq<ReceivedPacket>, j: nat, stop: nat -> bool, limit: Option<nat>, n: nat, count: nat)
    requires j <= |packets|
    ensures j == |packets| || stop(n) || Full(limit, count) ==> TakenFrom(packets[j..], stop, limit, n, count) == []
    ensures j < |packets| && !stop(n) && !Full(limit, count) ==>
              && TakenFrom(packets[j..], stop, limit, n, count)
                 == [packets[j]] + TakenFrom(packets[j + 1..], stop, limit, n + 1, count + 1)
              && packets[..j + 1] == packets[..j] + [packets[j]]
  {
    if j < |packets| {
      assert packets[j..][0] == packets[j] && packets[j..][1..] == packets[j + 1..];
    }
  }

  /** Below the limit the inner loop takes the packets before the first stop. */
  lemma {:induction false} TakenCalm(packets: seq<ReceivedPacket>, stop: nat -> bool, limit: Option<nat>, n: nat, count: nat)
    ensures var taken, calm := |TakenFrom(packets, stop, limit, n, count)|, Calm(|packets|, stop, n);
            && taken <= calm
            && (!Full(limit, count + calm) ==> taken == calm)
            && (Full(limit, count + calm) ==> Full(limit, count + taken))
  {
    if packets != [] && !stop(n) && !Full(limit, count) {
      TakenCalm(packets[1..], stop, limit, n + 1, count + 1);
    }
  }

  /** Below the limit, something is received exactly when the looks let a packet through. */
  lemma {:induction false} ReceivesExactlyWhen(polls: Polls, stop: nat -> bool, limit: Option<nat>, n: nat, count: nat)
    requires !Full(limit, count)
    ensures ReceivedFrom(polls, stop, limit, n, count) != [] <==> Resumes(polls, stop, n)
    decreases |polls|
  {
    if polls != [] && !stop(n) {
      if polls[0] == [] || stop(n + 1) {
        ReceivesExactlyWhen(polls[1..], stop, limit, n + 1 + (if polls[0] == [] then 0 else 1), count);
      }
    }
  }

  /** One more poll. */
  lemma ReceivedStep(polls: Polls, stop: nat -> bool, limit: Option<nat>, n: nat, count: nat)
    requires limit.Some? ==> count <= limit.value
    requires polls != [] && !stop(n) && !Full(limit, count)
    ensures var taken := TakenFrom(polls[0], stop, limit, n + 1, count);
            var n', count' := n + 1 + Looks(polls[0], |taken|), count + |taken|;
            var rest := ReceivedFrom(polls[1..], stop, limit, n', count');
            && ReceivedFrom(polls, stop, limit, n, count) == taken + rest
            && taken <= polls[0]
            && (limit.Some? ==> count' <= limit.value)
            && (Skips(polls, stop, limit, n, count)
                <==> if |taken| < |polls[0]| then rest != [] else Skips(polls[1..], stop, limit, n', count'))
            && Flat(polls) == polls[0] + Flat(polls[1..])
  {
    hide TakenFrom, Skips, Looks;
    TakenIsPrefix(polls[0], stop, limit, n + 1, count);
    SkipsStep(polls, stop, limit, n, count);
  }

  lemma SkipsStep(polls: Polls, stop: nat -> bool, limit: Option<nat>, n: nat, count: nat)
    requires polls != [] && !stop(n) && !Full(limit, count)
    ensures var taken := |TakenFrom(polls[0], stop, limit, n + 1, count)|;
            var n', count' := n + 1 + Looks(polls[0], taken), count + taken;
            Skips(polls, stop, limit, n, count)
            <==> if taken < |polls[0]| then ReceivedFrom(polls[1..], stop, limit, n', count') != []
                 else Skips(polls[1..], stop, limit, n', count')
  {
    hide TakenFrom, Calm, Resumes;
    TakenCalm(polls[0], stop, limit, n + 1, count);
    var taken := |TakenFrom(polls[0], stop, limit, n + 1, count)|;
    var n', count' := n + 1 + Looks(polls[0], taken), count + taken;
    if Full(limit, count') {
      NothingReceived(polls[1..], stop, limit, n', count');
      SkipsBelowLimit(polls[1..], stop, limit, n', count');
    } else if taken < |polls[0]| {
      ReceivesExactlyWhen(polls[1..], stop, limit, n', count');
    }
  }

  lemma SkipsBelowLimit(polls: Polls, stop: nat -> bool, limit: Option<nat>, n: nat, count: nat)
    ensures Full(limit, count) ==> !Skips(polls, stop, limit, n, count)
  {
  }

  /** What is received never exceeds the limit, and is part of what the polls returned. */
  lemma {:induction false} ReceivedIsPart(polls: Polls, stop: nat -> bool, limit: Option<nat>, n: nat, count: nat)
    requires limit.Some? ==> count <= limit.value
    ensures limit.Some? ==> count + |ReceivedFrom(polls, stop, limit, n, count)| <= limit.value
    ensures multiset(ReceivedFrom(polls, stop, limit, n, count)) <= multiset(Flat(polls))
    decreases |polls|
  {
    hide *;
    if polls == [] || stop(n) || Full(limit, count) {
      NothingReceived(polls, stop, limit, n, count);
    } else {
      ReceivedStep(polls, stop, limit, n, count);
      var taken := TakenFrom(polls[0], stop, limit, n + 1, count);
      var n', count' := n + 1 + Looks(polls[0], |taken|), count + |taken|;
      ReceivedIsPart(polls[1..], stop, limit, n', count');
      PartOf(taken, polls[0], ReceivedFrom(polls[1..], stop, limit, n', count'), Flat(polls[1..]));
    }
  }

  /** What is received is a prefix of what the polls returned unless a stop that was taken back discarded
      packets before later ones. */
  lemma {:induction false} ReceivedIsPrefix(polls: Polls, stop: nat -> bool, limit: Option<nat>, n: nat, count: nat)
    requires limit.Some? ==> count <= limit.value
    ensures !Skips(polls, stop, limit, n, count) ==> ReceivedFrom(polls, stop, limit, n, count) <= Flat(polls)
    ensures limit.Some? ==> count + |ReceivedFrom(polls, stop, limit, n, count)| <= limit.value
    decreases |polls|
  {
    hide *;
    ReceivedIsPart(polls, stop, limit, n, count);
    if polls == [] || stop(n) || Full(limit, count) {
      NothingReceived(polls, stop, limit, n, count);
    } else if !Skips(polls, stop, limit, n, count) {
      ReceivedStep(polls, stop, limit, n, count);
      var taken := TakenFrom(polls[0], stop, limit, n + 1, count);
      var n', count' := n + 1 + Looks(polls[0], |taken|), count + |taken|;
      ReceivedIsPrefix(polls[1..], stop, limit, n', count');
      if |taken| < |polls[0]| {
        PrefixFirst(taken, polls[0], Flat(polls[1..]));
      } else {
        PrefixRest(polls[0], ReceivedFrom(polls[1..], stop, limit, n', count'), Flat(polls[1..]));
      }
    }
  }

  /** If no packet is returned twice, it is a prefix exactly then. */
  lemma {:induction false} PrefixExactlyWhen(polls: Polls, stop: nat -> bool, limit: Option<nat>, n: nat, count: nat)
    requires limit.Some? ==> count <= limit.value
    requires TrackerRuns.Distinct(Flat(polls))
    ensures ReceivedFrom(polls, stop, limit, n, count) <= Flat(polls) <==> !Skips(polls, stop, limit, n, count)
    decreases |polls|
  {
    hide *;
    ReceivedIsPrefix(polls, stop, limit, n, count);
    if Skips(polls, stop, limit, n, count) {
      SkipsNeedsMore(polls, stop, limit, n, count);
      ReceivedStep(polls, stop, limit, n, count);
      var taken := TakenFrom(polls[0], stop, limit, n + 1, count);
      var n', count' := n + 1 + Looks(polls[0], |taken|), count + |taken|;
      var rest := ReceivedFrom(polls[1..], stop, limit, n', count');
      if |taken| < |polls[0]| {
        ReceivedIsPart(polls[1..], stop, limit, n', count');
        OutOfPlace(taken, polls[0], rest, Flat(polls[1..]));
      } else {
        DistinctRest(polls[0], Flat(polls[1..]));
        PrefixExactlyWhen(polls[1..], stop, limit, n', count');
        NotPrefixRest(polls[0], rest, Flat(polls[1..]));
      }
    }
  }

  lemma SkipsNeedsMore(polls: Polls, stop: nat -> bool, limit: Option<nat>, n: nat, count: nat)
    requires Skips(polls, stop, limit, n, count)
    ensures polls != [] && !stop(n) && !Full(limit, count)
  {
  }

  /** A stop predicate that does not take its answer back skips nothing. */
  lemma {:induction false} StickySkipsNothing(polls: Polls, stop: nat -> bool, limit: Option<nat>, n: nat, count: nat)
    requires Sticky(stop)
    ensures !Skips(polls, stop, limit, n, count)
    decreases |polls|
  {
    if polls != [] && !stop(n) {
      var calm := Calm(|polls[0]|, stop, n + 1);
      CalmEnds(|polls[0]|, stop, n + 1);
      hide Calm;
      if calm < |polls[0]| {
        assert stop(n + 2 + calm);
      } else {
        StickySkipsNothing(polls[1..], stop, limit, n + 1 + calm, count + calm);
      }
    }
  }

  lemma {:induction false} CalmEnds(m: nat, stop: nat -> bool, n: nat)
    ensures Calm(m, stop, n) < m ==> stop(n + Calm(m, stop, n))
  {
    if m != 0 && !stop(n) {
      CalmEnds(m - 1, stop, n + 1);
    }
  }

  /** A run that skips: the look at the second of two packets says stop, the next looks do not, and the
      packet of the next poll is received without it. */
  lemma SkipHappens(p: ReceivedPacket, q: ReceivedPacket, r: ReceivedPacket)
    requires p != q && q != r && p != r
    ensures var polls, stop := [[p, q], [r]], (k: nat) => k == 2;
            && Skips(polls, stop, None, 0, 0)
            && ReceivedFrom(polls, stop, None, 0, 0) == [p, r]
            && !(ReceivedFrom(polls, stop, None, 0, 0) <= Flat(polls))
  {
    var polls: Polls, stop := [[p, q], [r]], (k: nat) => k == 2;
    assert polls[1..] == [[r]] && polls[1..][1..] == [];
    assert [p, q][1..] == [q] && [r][1..] == [];
    assert Calm(2, stop, 1) == 1 + Calm(1, stop, 2);
    assert TakenFrom([p, q], stop, None, 1, 0) == [p] + TakenFrom([q], stop, None, 2, 1) == [p];
    assert TakenFrom([r], stop, None, 4, 1) == [r] + TakenFrom([], stop, None, 5, 2) == [r];
    assert ReceivedFrom([[r]], stop, None, 3, 1) == [r] + ReceivedFrom([], stop, None, 5, 2) == [r];
    assert Flat(polls) == [p, q] + Flat([[r]]);
    assert Flat(polls)[1] == q && [p, r][1] == r;
  }

  lemma PartOf<T>(a: seq<T>, b: seq<T>, c: seq<T>, d: seq<T>)
    requires a <= b && multiset(c) <= multiset(d)
    ensures multiset(a + c) <= multiset(b + d)
  {
    assert b == a + b[|a|..];
    assert multiset(b) == multiset(a) + multiset(b[|a|..]);
  }

  lemma DistinctRest<T>(a: seq<T>, b: seq<T>)
    requires TrackerRuns.Distinct(a + b)
    ensures TrackerRuns.Distinct(b)
  {
    forall i, j | 0 <= i < j < |b|
      ensures b[i] != b[j]
    {
      assert (a + b)[|a| + i] == b[i] && (a + b)[|a| + j] == b[j];
    }
  }

  /** A later packet in the place of a discarded one. */
  lemma OutOfPlace<T>(a: seq<T>, b: seq<T>, c: seq<T>, d: seq<T>)
    requires TrackerRuns.Distinct(b + d) && |a| < |b| && c != [] && multiset(c) <= multiset(d)
    ensures !(a + c <= b + d)
  {
    assert c[0] in multiset(c);
    assert c[0] in d;
    var k :| 0 <= k < |d| && d[k] == c[0];
    assert (b + d)[|b| + k] == c[0];
    assert (a + c)[|a|] == c[0];
  }

  lemma NotPrefixRest<T>(a: seq<T>, b: seq<T>, c: seq<T>)
    requires !(b <= c)
    ensures !(a + b <= a + c)
  {
    if a + b <= a + c {
      forall i | 0 <= i < |b|
        ensures b[i] == c[i]
      {
        assert (a + b)[|a| + i] == (a + c)[|a| + i];
      }
    }
  }

  lemma PrefixFirst<T>(a: seq<T>, b: seq<T>, c: seq<T>)
    requires a <= b
    ensures a + [] <= b + c
  {
  }

  lemma PrefixRest<T>(a: seq<T>, b: seq<T>, c: seq<T>)
    requires b <= c
    ensures a + b <= a + c
  {
  }

  /** Everything is received unless the stop predicate speaks or the limit is reached. */
  lemma {:induction false} UnstoppedReceivesAll(polls: Polls, stop: nat -> bool, limit: Option<nat>, n: nat, count: nat)
    requires forall m: nat :: !stop(m)
    requires limit.Some? ==> count + |Flat(polls)| <= limit.value
    ensures ReceivedFrom(polls, stop, limit, n, count) == Flat(polls)
    decreases |polls|
  {
    hide *;
    if polls == [] || Full(limit, count) {
      NothingReceived(polls, stop, limit, n, count);
      NothingLeft(polls, limit, count);
    } else {
      ReceivedStep(polls, stop, limit, n, count);
      AllTaken(polls[0], stop, limit, n + 1, count);
      UnstoppedReceivesAll(polls[1..], stop, limit, n + 1 + Looks(polls[0], |polls[0]|), count + |polls[0]|);
    }
  }

  lemma NothingLeft(polls: Polls, limit: Option<nat>, count: nat)
    requires polls == [] || Full(limit, count)
    requires limit.Some? ==> count + |Flat(polls)| <= limit.value
    ensures Flat(polls) == []
  {
  }

  lemma AllTaken(packets: seq<ReceivedPacket>, stop: nat -> bool, limit: Option<nat>, n: nat, count: nat)
    requires forall m: nat :: !stop(m)
    requires limit.Some? ==> count + |packets| <= limit.value
    ensures TakenFrom(packets, stop, limit, n, count) == packets
  {
    hide TakenFrom;
    TakenIsPrefix(packets, stop, limit, n, count);
  }

  /* ----- the program ----- */

  lemma RunSnoc(max: nat, calls: seq<Call>, c: Call)
    ensures Monitor.Run(max, calls + [c]) == AfterCall(max, Monitor.Run(max, calls), c)
  {
    assert (calls + [c])[..|calls|] == calls;
  }

  /** What the tracker saw is what was received. */
  lemma {:induction false} SeenIsReceived(calls: seq<Call>)
    ensures Seen(calls) == ArrivalsOf(PacketsIn(calls))
  {
    if calls != [] {
      SeenIsReceived(calls[..|calls| - 1]);
    }
  }

  /** How many of the packets decode and make the handler throw; `throws(k)` says whether it throws at the
      k-th packet examined, if it is called for it at all. */
  function Thrown(ps: seq<ReceivedPacket>, throws: nat -> bool): nat {
    if ps == [] then 0
    else
      var last := |ps| - 1;
      Thrown(ps[..last], throws) + (if !Rejects(ps[last]) && throws(last) then 1 else 0)
  }

  lemma ThrownSnoc(ps: seq<ReceivedPacket>, p: ReceivedPacket, throws: nat -> bool)
    ensures Thrown(ps + [p], throws) == Thrown(ps, throws) + (if !Rejects(p) && throws(|ps|) then 1 else 0)
  {
    hide Rejects;
    assert (ps + [p])[..|ps|] == ps;
  }

  lemma {:induction false} ThrownAreDecoded(ps: seq<ReceivedPacket>, throws: nat -> bool)
    ensures Thrown(ps, throws) + |RejectedOf(ps)| <= |ps|
  {
    hide Rejects;
    if ps != [] {
      ThrownAreDecoded(ps[..|ps| - 1], throws);
    }
  }

  /** A call on the monitor about a packet that was observed keeps the calls grounded. */
  lemma GroundedCall(calls: seq<Call>, c: Call)
    requires Grounded(calls) && (c.IssueCall? ==> c.packet in PacketsIn(calls))
    ensures Grounded(calls + [c])
  {
    hide Grounded, PacketsIn;
    if c.IssueCall? {
      PacketsSeen(calls, c.packet);
    }
    GroundedSnoc(calls, c);
  }

  /** The components of one run.  The ghost fields record the calls on the monitor, the packets examined
      and the outcomes of the submissions. */
  class Runtime {
    const config: RuntimeSystem.Config
    const throws: nat -> bool
    const monitor: SourceHealthMonitor
    const processor: SensorSampleProcessor
    const pipeline: Pipeline.WorkerPipeline
    var received: nat
    ghost var calls: seq<Call>
    ghost var examined: seq<ReceivedPacket>
    ghost var outcomes: seq<Outcome>

    ghost predicate Valid()
      reads this, monitor, monitor.tracker, processor, pipeline
    {
      Books() && pipeline.config == config.pipeline && Accounted(pipeline.View()) && received == |outcomes|
    }

    /** The monitor and the processor are where the recorded calls lead. */
    ghost predicate Books()
      reads this, monitor, monitor.tracker, processor
    {
      && config.Valid() && Watched()
      && processor.Metrics() == SamplesOf(examined)
      && PacketsIn(calls) == Submitted(outcomes)
      && Reported(calls, Health.PayloadRejected) == RejectedOf(examined)
      && Reported(calls, Health.QueueDropped) == Chosen(outcomes, false)
    }

    ghost predicate Watched()
      reads this`calls, monitor, monitor.tracker
    {
      && monitor.Valid() && monitor.config == config.health
      && monitor.View() == Monitor.Run(config.health.maxSources, calls) && Grounded(calls)
    }

    ghost predicate Accounted(sh: Pipeline.Shared)
      reads this`outcomes, this`examined
    {
      && Chosen(outcomes, true) == examined + sh.queue
      && sh.metrics.submitted == |Chosen(outcomes, true)|
      && sh.metrics.droppedQueueFull == |Chosen(outcomes, false)|
      && sh.metrics.rejectedStopped == 0
      && sh.metrics.processed + sh.metrics.handlerFailures == |examined|
      && sh.metrics.handlerFailures == Thrown(examined, throws)
      && |sh.queue| <= sh.metrics.highWatermark <= config.pipeline.capacity
      && (sh.metrics.droppedQueueFull > 0 ==> sh.metrics.highWatermark == config.pipeline.capacity)
    }

    constructor (config: RuntimeSystem.Config, throws: nat -> bool)
      requires config.Valid()
      ensures Valid() && this.config == config && this.throws == throws && received == 0 && Submitted(outcomes) == [] && pipeline.accepting
      ensures fresh(monitor) && fresh(monitor.tracker) && fresh(processor) && fresh(pipeline)
    {
      this.config, this.throws := config, throws;
      monitor := new SourceHealthMonitor(config.health);
      processor := new SensorSampleProcessor();
      pipeline := new Pipeline.WorkerPipeline(config.pipeline);
      received := 0;
      calls, examined, outcomes := [], [], [];
    }

    /** `observe_packet`, recorded. */
    method Observe(packet: ReceivedPacket)
      requires Watched()
      modifies this`calls, monitor, monitor.tracker
      ensures Watched() && PacketsIn(calls) == old(PacketsIn(calls)) + [packet]
      ensures forall kind :: Reported(calls, kind) == old(Reported(calls, kind))
    {
      hide Monitor.Run, Grounded, AfterPacket, WellFormedAll;
      RunSnoc(config.health.maxSources, calls, PacketCall(packet));
      GroundedCall(calls, PacketCall(packet));
      assert (calls + [PacketCall(packet)])[..|calls|] == calls;
      var observation := monitor.ObservePacket(packet);
      calls := calls + [PacketCall(packet)];
    }

    /** `observe_issue`, recorded. */
    method TellIssue(packet: ReceivedPacket, issue: Health.IssueKind)
      requires Watched() && packet in PacketsIn(calls)
      modifies this`calls, monitor
      ensures Watched() && PacketsIn(calls) == old(PacketsIn(calls))
      ensures forall kind :: Reported(calls, kind)
                             == if kind == issue then old(Reported(calls, kind)) + [packet] else old(Reported(calls, kind))
    {
      hide Monitor.Run, Grounded, AfterIssue, WellFormedAll;
      RunSnoc(config.health.maxSources, calls, IssueCall(packet, issue));
      GroundedCall(calls, IssueCall(packet, issue));
      assert (calls + [IssueCall(packet, issue)])[..|calls|] == calls;
      monitor.ObserveIssue(packet, issue);
      calls := calls + [IssueCall(packet, issue)];
    }

    /** `try_submit`, recorded. */
    method Submit(packet: ReceivedPacket) returns (result: Pipeline.SubmitResult)
      requires pipeline.config == config.pipeline && Accounted(pipeline.View()) && pipeline.accepting
      modifies this`outcomes, pipeline
      ensures Accounted(pipeline.View()) && pipeline.accepting && result != Pipeline.Stopped
      ensures outcomes == old(outcomes) + [Outcome(packet, result == Pipeline.Accepted)]
    {
      hide Chosen, Thrown;
      result := pipeline.TrySubmit(packet);
      ChosenSnoc(outcomes, Outcome(packet, result == Pipeline.Accepted), true);
      ChosenSnoc(outcomes, Outcome(packet, result == Pipeline.Accepted), false);
      outcomes := outcomes + [Outcome(packet, result == Pipeline.Accepted)];
    }

    /** The body of the inner loop. */
    method HandlePacket(packet: ReceivedPacket)
      requires Valid() && pipeline.accepting
      modifies this, monitor, monitor.tracker, pipeline
      ensures Valid() && pipeline.accepting
      ensures received == old(received) + 1
      ensures Submitted(outcomes) == old(Submitted(outcomes)) + [packet]
    {
      hide Watched, Accounted, SamplesOf, RejectedOf, Reported, PacketsIn, Submitted, Chosen;
      Observe(packet);
      var result := Submit(packet);
      ChosenSnoc(old(outcomes), Outcome(packet, result == Pipeline.Accepted), false);
      if result == Pipeline.QueueFull {
        TellIssue(packet, Health.QueueDropped);
      }
      received := received + 1;
    }

    /** The packet processor: the sample processor, and the report of a payload it refuses. */
    method ProcessPacket(packet: ReceivedPacket) returns (threw: bool)
      requires Books() && packet in Chosen(outcomes, true)
      modifies this, monitor, processor
      ensures Books() && examined == old(examined) + [packet]
      ensures received == old(received) && outcomes == old(outcomes)
      ensures threw <==> !Rejects(packet) && throws(|old(examined)|)
    {
      hide Watched, SamplesOf, RejectedOf, Reported, PacketsIn, Submitted, Chosen, Examine, Rejects, SampleOf,
        SensorPayloads.Decode;
      SamplesSnoc(examined, packet);
      SamplesPartition(examined);
      var willThrow := throws(processor.examined);
      var result := processor.Process(packet, (_: SensorSample) => willThrow);
      examined := examined + [packet];
      if result.PayloadError? {
        ChosenSubmitted(outcomes, true, packet);
        TellIssue(packet, Health.PayloadRejected);
      }
      threw := result.Threw?;
    }

    /** One worker takes a packet, if there is one, and runs the packet processor on it. */
    method WorkerTurn()
      requires Valid()
      modifies this, monitor, processor, pipeline
      ensures Valid()
      ensures received == old(received) && outcomes == old(outcomes) && pipeline.accepting == old(pipeline.accepting)
      ensures var waiting := old(pipeline.queue);
              if waiting == [] then pipeline.queue == [] && examined == old(examined)
              else pipeline.queue == waiting[1..] && examined == old(examined) + [waiting[0]]
    {
      hide Books, RejectedOf, Thrown, Chosen, Rejects;
      var outlook := pipeline.TakeOrWait();
      if !outlook.Work? {
        return;
      }
      var packet := outlook.packet;
      ThrownSnoc(examined, packet, throws);
      var threw := ProcessPacket(packet);
      pipeline.CountFinished(!threw);
    }

    /** Some turns of the workers. */
    method WorkerTurns(turns: nat)
      requires Valid()
      modifies this, monitor, processor, pipeline
      ensures Valid()
      ensures received == old(received) && outcomes == old(outcomes) && pipeline.accepting == old(pipeline.accepting)
      ensures turns >= |old(pipeline.queue)| ==> pipeline.queue == []
    {
      hide Valid;
      var i := 0;
      while i < turns
        invariant i <= turns && Valid()
        invariant received == old(received) && outcomes == old(outcomes) && pipeline.accepting == old(pipeline.accepting)
        invariant i + |pipeline.queue| <= |old(pipeline.queue)| || pipeline.queue == []
      {
        WorkerTurn();
        i := i + 1;
      }
    }

    /** The inner loop over the packets of one poll.  `stop` is what the stop predicate says at each look,
        `turns` how many packets the workers get to after each received one. */
    method TakePoll(packets: seq<ReceivedPacket>, stop: nat -> bool, turns: nat -> nat, start: nat)
      returns (looks: nat)
      requires Valid() && pipeline.accepting
      modifies this, monitor, monitor.tracker, processor, pipeline
      ensures Valid() && pipeline.accepting
      ensures var taken := TakenFrom(packets, stop, config.limit, start, old(received));
              && Submitted(outcomes) == old(Submitted(outcomes)) + taken
              && received == old(received) + |taken|
              && looks == start + Looks(packets, |taken|)
    {
      hide *;
      ghost var before, count := Submitted(outcomes), received;
      ghost var taken := TakenFrom(packets, stop, config.limit, start, count);
      looks := start;
      var j := 0;
      assert packets[0..] == packets && packets[..0] == [];
      while j < |packets|
        invariant j <= |packets| && Valid() && pipeline.accepting
        invariant looks == start + j && received == count + j
        invariant Submitted(outcomes) == before + packets[..j]
        invariant taken == packets[..j] + TakenFrom(packets[j..], stop, config.limit, looks, received)
      {
        FromPacket(packets, j, stop, config.limit, looks, received);
        LooksAre(packets, j);
        looks := looks + 1;
        if stop(looks - 1) || Full(config.limit, received) {
          return;
        }
        HandlePacket(packets[j]);
        WorkerTurns(turns(looks));
        j := j + 1;
      }
      FromPacket(packets, j, stop, config.limit, looks, received);
      LooksAre(packets, j);
    }

    /** The outer loop over the polls. */
    method ReceiveLoop(polls: Polls, stop: nat -> bool, turns: nat -> nat)
      requires Valid() && pipeline.accepting && received == 0 && Submitted(outcomes) == []
      modifies this, monitor, monitor.tracker, processor, pipeline
      ensures Valid() && pipeline.accepting
      ensures Submitted(outcomes) == ReceivedFrom(polls, stop, config.limit, 0, 0)
    {
      hide Valid, Submitted, TakenFrom, Looks, ReceivedFrom, Full;
      var looks, k := 0, 0;
      assert polls[0..] == polls;
      while k < |polls| && !stop(looks) && !Full(config.limit, received)
        invariant k <= |polls| && Valid() && pipeline.accepting
        invariant ReceivedFrom(polls, stop, config.limit, 0, 0)
               == Submitted(outcomes) + ReceivedFrom(polls[k..], stop, config.limit, looks, received)
      {
        FromPoll(polls, k, stop, config.limit, looks, received);
        looks := TakePoll(polls[k], stop, turns, looks + 1);
        k := k + 1;
      }
      FromPoll(polls, k, stop, config.limit, looks, received);
    }

    /** `stop()`: no more submissions, and the workers drain the queue. */
    method Stop()
      requires Valid()
      modifies this, monitor, processor, pipeline
      ensures Valid() && !pipeline.accepting && pipeline.queue == []
      ensures received == old(received) && outcomes == old(outcomes)
    {
      pipeline.RequestStop();
      WorkerTurns(|pipeline.queue|);
    }

    /** What `run` returns, once the pipeline has stopped. */
    method Summarize(now: uint64) returns (r: Summary)
      requires Valid() && pipeline.queue == []
      ensures r == Summary(received, pipeline.metrics, SamplesOf(examined),
                           ReportOf(config.health, Monitor.Run(config.health.maxSources, calls), now))
    {
      hide Monitor.Run, SamplesOf, ReportOf;
      var report := MakeReport(monitor, now);
      r := Summary(received, pipeline.metrics, processor.Metrics(), report);
    }

    /** The accounting of a drained run. */
    lemma Drained()
      requires Valid() && pipeline.queue == []
      ensures examined == Chosen(outcomes, true)
      ensures var m := pipeline.metrics;
              && m.submitted == |examined| && m.droppedQueueFull == |Chosen(outcomes, false)| && m.rejectedStopped == 0
              && m.handlerFailures == Thrown(examined, throws) && m.processed == |examined| - Thrown(examined, throws)
      ensures var c := SamplesOf(examined);
              && c.examined == |examined| && c.rejected == |RejectedOf(examined)| && c.decoded == |examined| - c.rejected
              && c.imu == CountOfType(examined, Imu) && c.gnss == CountOfType(examined, Gnss)
              && c.camera == CountOfType(examined, CameraMeta)
    {
      hide Monitor.Run, SamplesOf, RejectedOf, Chosen, Reported, PacketsIn, Thrown, CountOfType;
      SamplesPartition(examined);
      SamplesByType(examined);
    }
  }

  /** What the report says of the calls that led to it. */
  ghost predicate Tellings(config: Health.Config, report: Report, calls: seq<Call>, now: uint64) {
    && (forall k :: 0 <= k < |report.sources| ==>
          Tells(config, report.sources[k], LogOf(calls, report.sources[k].source), now))
    && Ascending(report.sources)
    && (forall s :: (exists k :: 0 <= k < |report.sources| && report.sources[k].source == s)
                    <==> s in TrackerRuns.Admitted(config.maxSources, ArrivalsOf(PacketsIn(calls))))
  }

  lemma ReportTellings(config: Health.Config, calls: seq<Call>, now: uint64)
    ensures var report := ReportOf(config, Monitor.Run(config.maxSources, calls), now);
            && Tellings(config, report, calls, now)
            && report.streams == TrackerRuns.Run(config.maxSources, ArrivalsOf(PacketsIn(calls))).metrics
  {
    hide Monitor.Run, Tells, Ascending, LogOf, Sorted, TrackerRuns.Admitted, TrackerRuns.Run, WellFormedAll, Snapshots;
    var report := ReportOf(config, Monitor.Run(config.maxSources, calls), now);
    forall k | 0 <= k < |report.sources|
      ensures Tells(config, report.sources[k], LogOf(calls, report.sources[k].source), now)
    {
      ReportTellsHistories(config, calls, now, k);
    }
    ReportSources(config, calls, now);
    SeenIsReceived(calls);
    TrackerOf(config.maxSources, calls);
  }

  /** `Runtime::run`: it receives what the loops let through, and its summary says exactly what became of
      that.  `calls` are the calls on the monitor, `outcomes` the submissions in order. */
  method Run(config: RuntimeSystem.Config, polls: Polls, stop: nat -> bool, turns: nat -> nat, throws: nat -> bool,
             now: uint64) returns (r: Summary, ghost calls: seq<Call>, ghost outcomes: seq<Outcome>)
    requires config.Valid()
    ensures PacketsIn(calls) == Submitted(outcomes) == ReceivedFrom(polls, stop, config.limit, 0, 0) && Grounded(calls)
    ensures var accepted, dropped, m := Chosen(outcomes, true), Chosen(outcomes, false), r.pipeline;
            && r.received == |ReceivedFrom(polls, stop, config.limit, 0, 0)| == |accepted| + |dropped|
            && m.submitted == |accepted| && m.droppedQueueFull == |dropped| && m.rejectedStopped == 0
            && m.handlerFailures == Thrown(accepted, throws) && m.processed == |accepted| - Thrown(accepted, throws)
            && m.highWatermark <= config.pipeline.capacity
            && (dropped != [] ==> m.highWatermark == config.pipeline.capacity)
            && Reported(calls, Health.PayloadRejected) == RejectedOf(accepted)
            && Reported(calls, Health.QueueDropped) == dropped
    ensures var accepted, c := Chosen(outcomes, true), r.samples;
            && c.examined == |accepted| && c.rejected == |RejectedOf(accepted)| && c.decoded == |accepted| - c.rejected
            && c.imu == CountOfType(accepted, Imu) && c.gnss == CountOfType(accepted, Gnss)
            && c.camera == CountOfType(accepted, CameraMeta)
    ensures Tellings(config.health, r.report, calls, now)
    ensures r.report.streams
         == TrackerRuns.Run(config.health.maxSources, ArrivalsOf(ReceivedFrom(polls, stop, config.limit, 0, 0))).metrics
  {
    hide Tellings, ReportOf, Monitor.Run, SamplesOf, CountOfType, RejectedOf, Thrown, TrackerRuns.Run, ReceivedFrom;
    var runtime := new Runtime(config, throws);
    runtime.ReceiveLoop(polls, stop, turns);
    runtime.Stop();
    r := runtime.Summarize(now);
    calls, outcomes := runtime.calls, runtime.outcomes;
    runtime.Drained();
    ChosenCounts(outcomes);
    ReportTellings(config.health, calls, now);
  }
}
