/** SensorSampleProcessor: decode the typed payload of a packet and hand the sample on. */
module SampleProcessor {
  import opened Words
  import opened Types
  import opened Arrangements
  import SensorPayloads

  datatype Samples = Samples(examined: nat, decoded: nat, rejected: nat, imu: nat, gnss: nat, camera: nat)

  const NO_SAMPLES := Samples(0, 0, 0, 0, 0, 0)

  datatype SensorSample = SensorSample(
    sequenceNumber: uint64,
    sourceTimestamp: uint64,
    receiveTimestamp: uint64,
    source: Endpoint,
    listener: Endpoint,
    payload: SensorPayloads.SensorPayload)

  function DecodeOf(p: ReceivedPacket): SensorPayloads.DecodeResult {
    SensorPayloads.Decode(p.packet.header.messageType, p.packet.payload)
  }

  predicate Rejects(p: ReceivedPacket) {
    DecodeOf(p).Failed?
  }

  function SampleOf(p: ReceivedPacket): SensorSample
    requires !Rejects(p)
  {
    SensorSample(p.packet.header.sequenceNumber, p.packet.header.sourceTimestamp, p.receiveTimestamp,
                 p.source, p.listener, DecodeOf(p).payload)
  }

  /** How one call of `process` ends: with the decoder's error, with the handler's return, or with the
      exception of the handler passing through. */
  datatype ProcessResult =
    | PayloadError(error: SensorPayloads.PayloadError)
    | Handled(sample: SensorSample)
    | Threw(sample: SensorSample)

  /** The handler sees exactly the samples of the packets whose payload decodes. */
  function ResultOf(p: ReceivedPacket, throws: SensorSample -> bool): ProcessResult {
    if Rejects(p) then PayloadError(DecodeOf(p).error)
    else if throws(SampleOf(p)) then Threw(SampleOf(p))
    else Handled(SampleOf(p))
  }

  /** The counters after one more packet. */
  function Examine(m: Samples, p: ReceivedPacket): Samples {
    var m1 := m.(examined := m.examined + 1);
    if Rejects(p) then m1.(rejected := m1.rejected + 1)
    else
      var m2 := m1.(decoded := m1.decoded + 1);
      match DecodeOf(p).payload
      case ImuSample(_, _) => m2.(imu := m2.imu + 1)
      case GnssFix(_, _, _, _, _) => m2.(gnss := m2.gnss + 1)
      case CameraFrame(_, _, _, _, _) => m2.(camera := m2.camera + 1)
  }

  class SensorSampleProcessor {
    var examined: nat
    var decoded: nat
    var rejected: nat
    var imu: nat
    var gnss: nat
    var camera: nat

    function Metrics(): Samples
      reads this
    {
      Samples(examined, decoded, rejected, imu, gnss, camera)
    }

    constructor ()
      ensures Metrics() == NO_SAMPLES
    {
      examined, decoded, rejected, imu, gnss, camera := 0, 0, 0, 0, 0, 0;
    }

    /** `process`; `throws` tells for which samples the handler throws. */
    method Process(packet: ReceivedPacket, throws: SensorSample -> bool) returns (result: ProcessResult)
      modifies this
      ensures Metrics() == Examine(old(Metrics()), packet)
      ensures result == ResultOf(packet, throws)
      ensures match SensorPayloads.Decode(packet.packet.header.messageType, packet.packet.payload)
              case Failed(error) => result == PayloadError(error)
              case Decoded(payload) =>
                && !result.PayloadError? && (result.Threw? <==> throws(result.sample))
                && result.sample.payload == payload
                && result.sample.sequenceNumber == packet.packet.header.sequenceNumber
                && result.sample.sourceTimestamp == packet.packet.header.sourceTimestamp
                && result.sample.receiveTimestamp == packet.receiveTimestamp
                && result.sample.source == packet.source && result.sample.listener == packet.listener
    {
      hide SensorPayloads.Decode;
      examined := examined + 1;
      var decodeResult := SensorPayloads.Decode(packet.packet.header.messageType, packet.packet.payload);
      if decodeResult.Failed? {
        rejected := rejected + 1;
        return PayloadError(decodeResult.error);
      }
      var sample := SensorSample(packet.packet.header.sequenceNumber, packet.packet.header.sourceTimestamp,
                                 packet.receiveTimestamp, packet.source, packet.listener, decodeResult.payload);
      decoded := decoded + 1;
      match sample.payload {
        case ImuSample(_, _) => imu := imu + 1;
        case GnssFix(_, _, _, _, _) => gnss := gnss + 1;
        case CameraFrame(_, _, _, _, _) => camera := camera + 1;
      }
      if throws(sample) {
        return Threw(sample);
      }
      return Handled(sample);
    }
  }

  /* ----- whole runs ----- */

  function SamplesOf(ps: seq<ReceivedPacket>): Samples {
    if ps == [] then NO_SAMPLES else Examine(SamplesOf(ps[..|ps| - 1]), ps[|ps| - 1])
  }

  /** The packets whose payload does not decode. */
  function RejectedOf(ps: seq<ReceivedPacket>): seq<ReceivedPacket> {
    if ps == [] then []
    else
      var before, p := RejectedOf(ps[..|ps| - 1]), ps[|ps| - 1];
      if Rejects(p) then before + [p] else before
  }

  lemma {:induction false} SamplesPartition(ps: seq<ReceivedPacket>)
    ensures var m := SamplesOf(ps);
            && m.examined == |ps|
            && m.examined == m.decoded + m.rejected
            && m.decoded == m.imu + m.gnss + m.camera
            && m.rejected == |RejectedOf(ps)|
  {
    hide Rejects, DecodeOf;
    if ps != [] {
      SamplesPartition(ps[..|ps| - 1]);
    }
  }

  /** The packets of one message type whose payload decodes. */
  function CountOfType(ps: seq<ReceivedPacket>, t: MessageType): nat {
    if ps == [] then 0
    else
      var p := ps[|ps| - 1];
      CountOfType(ps[..|ps| - 1], t) + (if !Rejects(p) && p.packet.header.messageType == t then 1 else 0)
  }

  /** The counters per sample type count the message types of the headers. */
  lemma {:induction false} SamplesByType(ps: seq<ReceivedPacket>)
    ensures var m := SamplesOf(ps);
            m.imu == CountOfType(ps, Imu) && m.gnss == CountOfType(ps, Gnss) && m.camera == CountOfType(ps, CameraMeta)
  {
    hide SensorPayloads.Decode, SensorPayloads.Encode;
    if ps != [] {
      var p := ps[|ps| - 1];
      SamplesByType(ps[..|ps| - 1]);
      if !Rejects(p) {
        SensorPayloads.EncodeDecoded(p.packet.header.messageType, p.packet.payload);
      }
    }
  }

  lemma SamplesSnoc(ps: seq<ReceivedPacket>, p: ReceivedPacket)
    ensures SamplesOf(ps + [p]) == Examine(SamplesOf(ps), p)
    ensures RejectedOf(ps + [p]) == if Rejects(p) then RejectedOf(ps) + [p] else RejectedOf(ps)
  {
    hide Rejects, Examine;
    assert (ps + [p])[..|ps|] == ps;
  }

  lemma ExamineCommutes(m: Samples, p: ReceivedPacket, q: ReceivedPacket)
    ensures Examine(Examine(m, p), q) == Examine(Examine(m, q), p)
  {
    hide DecodeOf;
  }

  lemma {:induction false} ExamineLast(left: seq<ReceivedPacket>, p: ReceivedPacket, right: seq<ReceivedPacket>)
    ensures SamplesOf(left + [p] + right) == SamplesOf(left + right + [p])
    ensures multiset(RejectedOf(left + [p] + right)) == multiset(RejectedOf(left + right + [p]))
  {
    hide Examine, Rejects, SamplesOf, RejectedOf;
    if right == [] {
      assert left + [p] + right == left + right + [p];
    } else {
      var most, last := right[..|right| - 1], right[|right| - 1];
      ExamineLast(left, p, most);
      assert left + [p] + right == left + [p] + most + [last];
      assert left + right + [p] == left + most + [last] + [p];
      SamplesSnoc(left + [p] + most, last);
      SamplesSnoc(left + most, p);
      SamplesSnoc(left + most, last);
      SamplesSnoc(left + most + [last], p);
      ExamineCommutes(SamplesOf(left + most), p, last);
    }
  }

  /** The counters depend on which packets were examined, not on the order in which workers got to them. */
  lemma {:induction false} SamplesOrder(a: seq<ReceivedPacket>, b: seq<ReceivedPacket>)
    requires multiset(a) == multiset(b)
    ensures SamplesOf(a) == SamplesOf(b)
    ensures multiset(RejectedOf(a)) == multiset(RejectedOf(b))
    decreases |a|
  {
    hide Examine, Rejects, SamplesOf, RejectedOf;
    if a == [] {
      assert |multiset(b)| == |b|;
      assert b == [];
    } else {
      var before, p := a[..|a| - 1], a[|a| - 1];
      var k := SameLast(a, b);
      var left, right := b[..k], b[k + 1..];
      assert a == before + [p] && b == left + [p] + right;
      SamplesOrder(before, left + right);
      SamplesSnoc(before, p);
      SamplesSnoc(left + right, p);
      ExamineLast(left, p, right);
    }
  }
}

/** From the bytes of a datagram to the sample handler. */
module SampleDelivery {
  import opened Words
  import opened Types
  import opened SampleProcessor
  import P = PacketCodec
  import S = SensorPayloads
  import F = FullStack

  /** What the handler sees of a datagram that was sent for a sample: the sample itself, its number, and
      both timestamps and both endpoints in their own places. */
  ghost predicate Delivers(result: ProcessResult, p: S.SensorPayload, sequence: uint64, sent: uint64,
                           source: Endpoint, listener: Endpoint, received: uint64, throws: SensorSample -> bool)
  {
    && !result.PayloadError?
    && result.sample.payload == p
    && result.sample.sequenceNumber == sequence
    && result.sample.sourceTimestamp == sent && result.sample.receiveTimestamp == received
    && result.sample.source == source && result.sample.listener == listener
    && (result.Threw? <==> throws(result.sample))
  }

  /** Every sample that can be encoded reaches the handler. */
  lemma SampleDelivered(p: S.SensorPayload, sequence: uint64, sent: uint64, source: Endpoint, listener: Endpoint,
                        received: uint64, throws: SensorSample -> bool)
    requires S.Encode(p).Encoded?
    ensures var d := P.Decode(F.SampleDatagram(p, sequence, sent));
            d.Decoded? && Delivers(ResultOf(ReceivedPacket(d.packet, source, listener, received), throws),
                                   p, sequence, sent, source, listener, received, throws)
  {
    hide F.SampleDatagram, P.Decode, S.Decode, S.Encode;
    F.SampleRoundTrip(p, sequence, sent);
  }

  /** Nothing else does: whatever is handed on is the sample whose datagram the bytes are. */
  lemma HandedOnWasSent(bytes: seq<byte>, source: Endpoint, listener: Endpoint, received: uint64,
                        throws: SensorSample -> bool)
    requires P.Decode(bytes).Decoded?
    ensures var packet := P.Decode(bytes).packet;
            var result := ResultOf(ReceivedPacket(packet, source, listener, received), throws);
            if S.Decode(packet.header.messageType, packet.payload).Failed?
            then result == PayloadError(S.Decode(packet.header.messageType, packet.payload).error)
            else && !result.PayloadError? && S.Encode(result.sample.payload).Encoded?
                 && bytes == F.SampleDatagram(result.sample.payload, result.sample.sequenceNumber, result.sample.sourceTimestamp)
  {
    hide F.SampleDatagram, P.Decode, S.Decode, S.Encode;
    var packet := P.Decode(bytes).packet;
    if S.Decode(packet.header.messageType, packet.payload).Decoded? {
      F.DatagramRoundTrip(bytes);
    }
  }

  /** A datagram goes through the packet decoder and the sample processor. */
  method DeliverDatagram(processor: SensorSampleProcessor, bytes: seq<byte>, source: Endpoint, listener: Endpoint,
                         received: uint64, throws: SensorSample -> bool) returns (result: Option<ProcessResult>)
    modifies processor
    ensures result.None? <==> P.Decode(bytes).Failed?
    ensures forall p, sequence, sent :: S.Encode(p).Encoded? && bytes == F.SampleDatagram(p, sequence, sent) ==>
              result.Some? && Delivers(result.value, p, sequence, sent, source, listener, received, throws)
  {
    hide F.SampleDatagram, P.Decode, S.Decode, S.Encode, ResultOf, Delivers;
    var decoded := P.DecodePacket(bytes);
    if decoded.Failed? {
      result := None;
    } else {
      var answer := processor.Process(ReceivedPacket(decoded.packet, source, listener, received), throws);
      result := Some(answer);
    }
    forall p, sequence, sent | S.Encode(p).Encoded? && bytes == F.SampleDatagram(p, sequence, sent)
      ensures result.Some? && Delivers(result.value, p, sequence, sent, source, listener, received, throws)
    {
      SampleDelivered(p, sequence, sent, source, listener, received, throws);
    }
  }
}
