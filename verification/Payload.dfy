/** The three typed sensor payloads.  Floating-point fields are their IEEE 754 bit patterns. */
module SensorPayloads {
  import opened Words
  import opened Types
  import opened Wire
  import opened Ieee754

  datatype Vector3 = Vector3(x: uint32, y: uint32, z: uint32)

  datatype SensorPayload =
    | ImuSample(acceleration: Vector3, angularVelocity: Vector3)
    | GnssFix(latitude: uint64, longitude: uint64, altitude: uint64,
              horizontalAccuracy: uint32, verticalAccuracy: uint32)
    | CameraFrame(frameId: uint64, width: uint32, height: uint32, exposure: uint32, extra: seq<byte>)

  datatype PayloadError = SizeMismatch | NonFiniteNumber | ValueOutOfRange

  datatype EncodeResult = Encoded(bytes: seq<byte>) | Invalid(error: PayloadError) | ExtraTooLong

  datatype DecodeResult = Decoded(payload: SensorPayload) | Failed(error: PayloadError)

  const IMU_SIZE := 24
  const GNSS_SIZE := 32
  const CAMERA_FIXED_SIZE := 24
  const MAX_CAMERA_EXTRA := MAX_PAYLOAD - CAMERA_FIXED_SIZE

  /* ----- validation ----- */

  predicate FiniteVector(v: Vector3) {
    Finite32(v.x) && Finite32(v.y) && Finite32(v.z)
  }

  function Validate(p: SensorPayload): Option<PayloadError> {
    match p
    case ImuSample(a, w) =>
      if !FiniteVector(a) || !FiniteVector(w) then Some(NonFiniteNumber) else None
    case GnssFix(lat, lon, alt, h, v) =>
      if !Finite64(lat) || !Finite64(lon) || !Finite64(alt) || !Finite32(h) || !Finite32(v)
      then Some(NonFiniteNumber)
      else if || Value64(lat) < -90.0 || Value64(lat) > 90.0
              || Value64(lon) < -180.0 || Value64(lon) > 180.0
              || Value32(h) < 0.0 || Value32(v) < 0.0
      then Some(ValueOutOfRange)
      else None
    case CameraFrame(_, width, height, _, extra) =>
      if width == 0 || height == 0 || |extra| > MAX_CAMERA_EXTRA then Some(ValueOutOfRange) else None
  }

  /** The checks of a position fix, on the bit patterns: the signs of latitude and longitude do not
      matter, and the accuracies may be negative zero. */
  lemma FixPatterns(lat: uint64, lon: uint64, alt: uint64, h: uint32, v: uint32)
    ensures Validate(GnssFix(lat, lon, alt, h, v)) ==
      if !(Finite64(lat) && Finite64(lon) && Finite64(alt) && Finite32(h) && Finite32(v)) then Some(NonFiniteNumber)
      else if lat % TWO_63 > PATTERN_90 || lon % TWO_63 > PATTERN_180 || h > 0x8000_0000 || v > 0x8000_0000
      then Some(ValueOutOfRange)
      else None
  {
    hide Value32, Value64, Finite32, Finite64;
    Patterns();
    WithinPattern(lat, PATTERN_90, 90.0);
    WithinPattern(lon, PATTERN_180, 180.0);
    NegativePattern(h);
    NegativePattern(v);
  }

  /** Negative-zero accuracies are accepted wherever positive-zero ones are. */
  lemma NegativeZeroAccuracy(lat: uint64, lon: uint64, alt: uint64, v: uint32)
    ensures Validate(GnssFix(lat, lon, alt, 0x8000_0000, v)) == Validate(GnssFix(lat, lon, alt, 0, v))
    ensures Validate(GnssFix(lat, lon, alt, v, 0x8000_0000)) == Validate(GnssFix(lat, lon, alt, v, 0))
  {
    hide Value32, Value64, Finite64;
    NegativePattern(0x8000_0000);
    NegativePattern(0);
  }

  /* ----- encoding ----- */

  const IMU_WIDTHS: seq<nat> := [4, 4, 4, 4, 4, 4]
  const GNSS_WIDTHS: seq<nat> := [8, 8, 8, 4, 4]
  const CAMERA_WIDTHS: seq<nat> := [8, 4, 4, 4, 4]

  function TypeOfPayload(p: SensorPayload): MessageType {
    match p
    case ImuSample(_, _) => Imu
    case GnssFix(_, _, _, _, _) => Gnss
    case CameraFrame(_, _, _, _, _) => CameraMeta
  }

  function ImuFields(a: Vector3, w: Vector3): seq<nat> {
    [a.x, a.y, a.z, w.x, w.y, w.z]
  }

  /** The payload bytes of a sample, big-endian field after field. */
  function Bytes(p: SensorPayload): seq<byte>
    requires p.CameraFrame? ==> |p.extra| <= MAX_CAMERA_EXTRA
  {
    match p
    case ImuSample(a, w) => Fields(ImuFields(a, w), IMU_WIDTHS)
    case GnssFix(lat, lon, alt, h, v) => Fields([lat, lon, alt, h, v], GNSS_WIDTHS)
    case CameraFrame(id, width, height, exposure, extra) =>
      Fields([id, width, height, exposure, |extra|], CAMERA_WIDTHS) + extra
  }

  function Encode(p: SensorPayload): EncodeResult {
    if p.CameraFrame? && |p.extra| > MAX_CAMERA_EXTRA then ExtraTooLong
    else
      match Validate(p)
      case Some(error) => Invalid(error)
      case None => Encoded(Bytes(p))
  }

  /* ----- decoding ----- */

  function Checked(p: SensorPayload): DecodeResult {
    match Validate(p)
    case Some(error) => Failed(error)
    case None => Decoded(p)
  }

  function Field32(bytes: seq<byte>, offset: nat): uint32
    requires offset + 4 <= |bytes|
  {
    Bounds();
    FromBigEndianFits(bytes[offset..offset + 4]);
    FieldAt(bytes, offset, 4)
  }

  function Field64(bytes: seq<byte>, offset: nat): uint64
    requires offset + 8 <= |bytes|
  {
    Bounds();
    FromBigEndianFits(bytes[offset..offset + 8]);
    FieldAt(bytes, offset, 8)
  }

  function DecodeImu(bytes: seq<byte>): DecodeResult {
    if |bytes| != IMU_SIZE then Failed(SizeMismatch)
    else
      Checked(ImuSample(
        Vector3(Field32(bytes, 0), Field32(bytes, 4), Field32(bytes, 8)),
        Vector3(Field32(bytes, 12), Field32(bytes, 16), Field32(bytes, 20))))
  }

  function DecodeGnss(bytes: seq<byte>): DecodeResult {
    if |bytes| != GNSS_SIZE then Failed(SizeMismatch)
    else
      Checked(GnssFix(Field64(bytes, 0), Field64(bytes, 8), Field64(bytes, 16),
                      Field32(bytes, 24), Field32(bytes, 28)))
  }

  function DecodeCamera(bytes: seq<byte>): DecodeResult {
    if |bytes| < CAMERA_FIXED_SIZE then Failed(SizeMismatch)
    else
      var extraSize := Field32(bytes, 20);
      if extraSize > MAX_CAMERA_EXTRA then Failed(ValueOutOfRange)
      else if |bytes| != CAMERA_FIXED_SIZE + extraSize then Failed(SizeMismatch)
      else
        Checked(CameraFrame(Field64(bytes, 0), Field32(bytes, 8), Field32(bytes, 12), Field32(bytes, 16),
                            bytes[CAMERA_FIXED_SIZE..]))
  }

  function Decode(t: MessageType, bytes: seq<byte>): DecodeResult {
    match t
    case Imu => DecodeImu(bytes)
    case Gnss => DecodeGnss(bytes)
    case CameraMeta => DecodeCamera(bytes)
  }

  /* ----- the encoders, in place ----- */

  method EncodePayload(p: SensorPayload) returns (r: EncodeResult)
    ensures r == Encode(p)
  {
    if p.CameraFrame? && |p.extra| > MAX_CAMERA_EXTRA {
      return ExtraTooLong;
    }
    var error := Validate(p);
    if error.Some? {
      return Invalid(error.value);
    }
    hide Validate, Fields, BigEndian;
    var bytes: seq<byte>;
    match p {
      case ImuSample(a, w) => bytes := EncodeImu(a, w);
      case GnssFix(lat, lon, alt, h, v) => bytes := EncodeGnss(lat, lon, alt, h, v);
      case CameraFrame(id, width, height, exposure, extra) =>
        bytes := EncodeCamera(id, width, height, exposure, extra);
    }
    return Encoded(bytes);
  }

  method EncodeImu(a: Vector3, w: Vector3) returns (bytes: seq<byte>)
    ensures bytes == Fields(ImuFields(a, w), IMU_WIDTHS)
  {
    hide BigEndian;
    var output := new byte[IMU_SIZE](_ => 0);
    WriteBigEndian(output, 0, 4, a.x);
    WriteBigEndian(output, 4, 4, a.y);
    WriteBigEndian(output, 8, 4, a.z);
    WriteBigEndian(output, 12, 4, w.x);
    WriteBigEndian(output, 16, 4, w.y);
    WriteBigEndian(output, 20, 4, w.z);
    bytes := output[..];
    SixFields(ImuFields(a, w), IMU_WIDTHS);
    assert bytes == output[..24];
  }

  method EncodeGnss(lat: uint64, lon: uint64, alt: uint64, h: uint32, v: uint32) returns (bytes: seq<byte>)
    ensures bytes == Fields([lat, lon, alt, h, v], GNSS_WIDTHS)
  {
    hide BigEndian;
    var output := new byte[GNSS_SIZE](_ => 0);
    WriteBigEndian(output, 0, 8, lat);
    WriteBigEndian(output, 8, 8, lon);
    WriteBigEndian(output, 16, 8, alt);
    WriteBigEndian(output, 24, 4, h);
    WriteBigEndian(output, 28, 4, v);
    bytes := output[..];
    FiveFields([lat, lon, alt, h, v], GNSS_WIDTHS);
    assert bytes == output[..32];
  }

  method EncodeCamera(id: uint64, width: uint32, height: uint32, exposure: uint32, extra: seq<byte>)
    returns (bytes: seq<byte>)
    requires |extra| <= MAX_CAMERA_EXTRA
    ensures bytes == Fields([id, width, height, exposure, |extra|], CAMERA_WIDTHS) + extra
  {
    hide BigEndian;
    var output := new byte[CAMERA_FIXED_SIZE + |extra|](_ => 0);
    WriteBigEndian(output, 0, 8, id);
    WriteBigEndian(output, 8, 4, width);
    WriteBigEndian(output, 12, 4, height);
    WriteBigEndian(output, 16, 4, exposure);
    WriteBigEndian(output, 20, 4, |extra|);
    FiveFields([id, width, height, exposure, |extra|], CAMERA_WIDTHS);
    ghost var fixed := output[..24];
    forall i | 0 <= i < |extra| {
      output[CAMERA_FIXED_SIZE + i] := extra[i];
    }
    assert output[..24] == fixed && output[24..] == extra;
    bytes := output[..];
    assert bytes == output[..24] + output[24..];
  }

  lemma FiveFields(v: seq<nat>, w: seq<nat>)
    requires |v| == |w| == 5
    ensures Fields(v, w) == [] + BigEndian(v[0], w[0]) + BigEndian(v[1], w[1]) + BigEndian(v[2], w[2])
                            + BigEndian(v[3], w[3]) + BigEndian(v[4], w[4])
  {
    hide BigEndian;
    assert Fields(v[..0], w[..0]) == [];
    hide Fields;
    FieldsPrefix(v, w, 1);
    FieldsPrefix(v, w, 2);
    FieldsPrefix(v, w, 3);
    FieldsPrefix(v, w, 4);
    FieldsPrefix(v, w, 5);
    assert v[..5] == v && w[..5] == w;
  }

  lemma SixFields(v: seq<nat>, w: seq<nat>)
    requires |v| == |w| == 6
    ensures Fields(v, w) == [] + BigEndian(v[0], w[0]) + BigEndian(v[1], w[1]) + BigEndian(v[2], w[2])
                            + BigEndian(v[3], w[3]) + BigEndian(v[4], w[4]) + BigEndian(v[5], w[5])
  {
    FiveFields(v[..5], w[..5]);
    FieldsPrefix(v, w, 6);
    assert v[..6] == v && w[..6] == w;
  }

  /* ----- round trips ----- */

  lemma Offsets5(w: seq<nat>)
    requires |w| == 5
    ensures Offset(w[..0]) == 0
    ensures Offset(w[..1]) == w[0]
    ensures Offset(w[..2]) == w[0] + w[1]
    ensures Offset(w[..3]) == w[0] + w[1] + w[2]
    ensures Offset(w[..4]) == w[0] + w[1] + w[2] + w[3]
    ensures Offset(w) == w[0] + w[1] + w[2] + w[3] + w[4]
  {
    assert w[..1][..0] == w[..0];
    assert w[..2][..1] == w[..1];
    assert w[..3][..2] == w[..2];
    assert w[..4][..3] == w[..3];
    assert w[..5] == w;
  }

  lemma ImuOffsets()
    ensures Offset(IMU_WIDTHS[..0]) == 0 && Offset(IMU_WIDTHS[..1]) == 4 && Offset(IMU_WIDTHS[..2]) == 8
    ensures Offset(IMU_WIDTHS[..3]) == 12 && Offset(IMU_WIDTHS[..4]) == 16 && Offset(IMU_WIDTHS[..5]) == 20
    ensures Offset(IMU_WIDTHS) == IMU_SIZE
  {
    var w := IMU_WIDTHS;
    Offsets5(w[..5]);
    assert w[..5][..0] == w[..0] && w[..5][..1] == w[..1] && w[..5][..2] == w[..2];
    assert w[..5][..3] == w[..3] && w[..5][..4] == w[..4];
    assert w[..6] == w;
  }

  lemma ImuReadsBack(a: Vector3, w: Vector3)
    ensures DecodeImu(Fields(ImuFields(a, w), IMU_WIDTHS)) == Checked(ImuSample(a, w))
  {
    ImuOffsets();
    Bounds();
    var v := ImuFields(a, w);
    var bytes := Fields(v, IMU_WIDTHS);
    assert bytes + [] == bytes;
    FieldsReadBack(v, IMU_WIDTHS, [], 0);
    FieldsReadBack(v, IMU_WIDTHS, [], 1);
    FieldsReadBack(v, IMU_WIDTHS, [], 2);
    FieldsReadBack(v, IMU_WIDTHS, [], 3);
    FieldsReadBack(v, IMU_WIDTHS, [], 4);
    FieldsReadBack(v, IMU_WIDTHS, [], 5);
  }

  lemma GnssReadsBack(lat: uint64, lon: uint64, alt: uint64, h: uint32, v: uint32)
    ensures DecodeGnss(Fields([lat, lon, alt, h, v], GNSS_WIDTHS)) == Checked(GnssFix(lat, lon, alt, h, v))
  {
    FiveReadBack([lat, lon, alt, h, v], GNSS_WIDTHS, []);
    assert Fields([lat, lon, alt, h, v], GNSS_WIDTHS) + [] == Fields([lat, lon, alt, h, v], GNSS_WIDTHS);
  }

  lemma FiveReadBack(v: seq<nat>, w: seq<nat>, tail: seq<byte>)
    requires |v| == |w| == 5
    requires w == GNSS_WIDTHS || w == CAMERA_WIDTHS
    requires v[0] < TWO_64 && v[3] < TWO_32 && v[4] < TWO_32
    requires v[1] < TWO_32 || (w == GNSS_WIDTHS && v[1] < TWO_64)
    requires v[2] < TWO_32 || (w == GNSS_WIDTHS && v[2] < TWO_64)
    ensures var bytes := Fields(v, w) + tail;
            && |Fields(v, w)| == w[0] + w[1] + w[2] + w[3] + w[4]
            && FieldAt(bytes, 0, w[0]) == v[0]
            && FieldAt(bytes, w[0], w[1]) == v[1]
            && FieldAt(bytes, w[0] + w[1], w[2]) == v[2]
            && FieldAt(bytes, w[0] + w[1] + w[2], w[3]) == v[3]
            && FieldAt(bytes, w[0] + w[1] + w[2] + w[3], w[4]) == v[4]
  {
    Offsets5(w);
    Bounds();
    FieldsReadBack(v, w, tail, 0);
    FieldsReadBack(v, w, tail, 1);
    FieldsReadBack(v, w, tail, 2);
    FieldsReadBack(v, w, tail, 3);
    FieldsReadBack(v, w, tail, 4);
  }

  lemma CameraReadsBack(id: uint64, width: uint32, height: uint32, exposure: uint32, extra: seq<byte>)
    requires |extra| <= MAX_CAMERA_EXTRA
    ensures DecodeCamera(Fields([id, width, height, exposure, |extra|], CAMERA_WIDTHS) + extra)
         == Checked(CameraFrame(id, width, height, exposure, extra))
  {
    var fixed := Fields([id, width, height, exposure, |extra|], CAMERA_WIDTHS);
    FiveReadBack([id, width, height, exposure, |extra|], CAMERA_WIDTHS, extra);
    assert (fixed + extra)[24..] == extra;
  }

  /** Every sample the encoder accepts decodes to the same bits. */
  lemma DecodeEncoded(p: SensorPayload)
    requires Encode(p).Encoded?
    ensures Decode(TypeOfPayload(p), Encode(p).bytes) == Decoded(p)
    ensures |Encode(p).bytes| <= MAX_PAYLOAD
  {
    hide Fields, DecodeImu, DecodeGnss, DecodeCamera;
    match p
    case ImuSample(a, w) =>
      ImuOffsets();
      ImuReadsBack(a, w);
    case GnssFix(lat, lon, alt, h, v) =>
      Offsets5(GNSS_WIDTHS);
      GnssReadsBack(lat, lon, alt, h, v);
    case CameraFrame(id, width, height, exposure, extra) =>
      Offsets5(CAMERA_WIDTHS);
      CameraReadsBack(id, width, height, exposure, extra);
  }

  /** Whatever the decoder accepts encodes to exactly those bytes. */
  lemma EncodeDecoded(t: MessageType, bytes: seq<byte>)
    requires Decode(t, bytes).Decoded?
    ensures TypeOfPayload(Decode(t, bytes).payload) == t
    ensures Encode(Decode(t, bytes).payload) == Encoded(bytes)
  {
    match t
    case Imu => ImuWritesBack(bytes);
    case Gnss => GnssWritesBack(bytes);
    case CameraMeta => CameraWritesBack(bytes);
  }

  lemma ImuWritesBack(bytes: seq<byte>)
    requires |bytes| == IMU_SIZE
    ensures Fields(ImuFields(Vector3(Field32(bytes, 0), Field32(bytes, 4), Field32(bytes, 8)),
                             Vector3(Field32(bytes, 12), Field32(bytes, 16), Field32(bytes, 20))), IMU_WIDTHS)
         == bytes
  {
    ImuOffsets();
    FieldsWriteBack(bytes, [Field32(bytes, 0), Field32(bytes, 4), Field32(bytes, 8),
                            Field32(bytes, 12), Field32(bytes, 16), Field32(bytes, 20)], IMU_WIDTHS);
  }

  lemma GnssWritesBack(bytes: seq<byte>)
    requires |bytes| == GNSS_SIZE
    ensures Fields([Field64(bytes, 0), Field64(bytes, 8), Field64(bytes, 16),
                    Field32(bytes, 24), Field32(bytes, 28)], GNSS_WIDTHS) == bytes
  {
    Offsets5(GNSS_WIDTHS);
    FieldsWriteBack(bytes, [Field64(bytes, 0), Field64(bytes, 8), Field64(bytes, 16),
                            Field32(bytes, 24), Field32(bytes, 28)], GNSS_WIDTHS);
  }

  lemma CameraWritesBack(bytes: seq<byte>)
    requires |bytes| >= CAMERA_FIXED_SIZE
    ensures Fields([Field64(bytes, 0), Field32(bytes, 8), Field32(bytes, 12),
                    Field32(bytes, 16), Field32(bytes, 20)], CAMERA_WIDTHS) + bytes[24..] == bytes
  {
    Offsets5(CAMERA_WIDTHS);
    var head := bytes[..24];
    FieldOfHead(bytes, 24, 0, 8);
    FieldOfHead(bytes, 24, 8, 4);
    FieldOfHead(bytes, 24, 12, 4);
    FieldOfHead(bytes, 24, 16, 4);
    FieldOfHead(bytes, 24, 20, 4);
    FieldsWriteBack(head, [Field64(bytes, 0), Field32(bytes, 8), Field32(bytes, 12),
                           Field32(bytes, 16), Field32(bytes, 20)], CAMERA_WIDTHS);
  }
}

/** Envelope and payload together. */
module FullStack {
  import opened Words
  import P = PacketCodec
  import S = SensorPayloads

  /** The datagram the simulator sends for a sample. */
  function SampleDatagram(p: S.SensorPayload, sequence: uint64, timestamp: uint64): seq<byte>
    requires S.Encode(p).Encoded?
  {
    S.DecodeEncoded(p);
    P.Datagram(P.Code(S.TypeOfPayload(p)), sequence, timestamp, S.Encode(p).bytes)
  }

  /** Every valid sample survives the full stack bit for bit, with its number and timestamp. */
  lemma SampleRoundTrip(p: S.SensorPayload, sequence: uint64, timestamp: uint64)
    requires S.Encode(p).Encoded?
    ensures var d := P.Decode(SampleDatagram(p, sequence, timestamp));
            && d.Decoded?
            && d.packet.header.sequenceNumber == sequence
            && d.packet.header.sourceTimestamp == timestamp
            && d.packet.header.messageType == S.TypeOfPayload(p)
            && S.Decode(d.packet.header.messageType, d.packet.payload) == S.Decoded(p)
  {
    S.DecodeEncoded(p);
    P.DecodeEncoded(S.TypeOfPayload(p), sequence, timestamp, S.Encode(p).bytes);
  }

  /** Bytes that both decoders accept are the datagram of the sample they decode to. */
  lemma DatagramRoundTrip(bytes: seq<byte>)
    requires P.Decode(bytes).Decoded?
    requires var packet := P.Decode(bytes).packet; S.Decode(packet.header.messageType, packet.payload).Decoded?
    ensures var packet := P.Decode(bytes).packet;
            var sample := S.Decode(packet.header.messageType, packet.payload).payload;
            && S.Encode(sample) == S.Encoded(packet.payload)
            && SampleDatagram(sample, packet.header.sequenceNumber, packet.header.sourceTimestamp) == bytes
  {
    var packet := P.Decode(bytes).packet;
    P.EncodeDecoded(bytes);
    S.EncodeDecoded(packet.header.messageType, packet.payload);
  }
}
