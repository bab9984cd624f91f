/** The packet envelope: encode_packet and decode_packet. */
module PacketCodec {
  import opened Words
  import opened Types
  import opened Wire
  import opened Crc

  const MAGIC: uint32 := 0x4452_464C
  const VERSION: uint16 := 1
  const HEADER_SIZE := 32
  const CRC_OFFSET := 28

  function Code(t: MessageType): uint16 {
    match t
    case Imu => 1
    case Gnss => 2
    case CameraMeta => 3
  }

  /** `is_known_message_type`, with the type it stands for. */
  function TypeOf(code: nat): Option<MessageType> {
    if code == 1 then Some(Imu)
    else if code == 2 then Some(Gnss)
    else if code == 3 then Some(CameraMeta)
    else None
  }

  datatype EncodeResult = Encoded(bytes: seq<byte>) | UnknownType | PayloadTooLong

  datatype DecodeError =
    | TruncatedHeader
    | InvalidMagic
    | UnsupportedVersion
    | UnknownMessageType
    | PayloadTooLarge
    | TruncatedPayload
    | LengthMismatch
    | CrcMismatch

  datatype DecodeResult = Decoded(packet: Packet) | Failed(error: DecodeError)

  /* ----- the layout ----- */

  /** Widths of magic, version, type, sequence number, timestamp and payload length. */
  const PREFIX_WIDTHS: seq<nat> := [4, 2, 2, 8, 8, 4]

  lemma PrefixOffsets()
    ensures Offset(PREFIX_WIDTHS[..0]) == 0
    ensures Offset(PREFIX_WIDTHS[..1]) == 4
    ensures Offset(PREFIX_WIDTHS[..2]) == 6
    ensures Offset(PREFIX_WIDTHS[..3]) == 8
    ensures Offset(PREFIX_WIDTHS[..4]) == 16
    ensures Offset(PREFIX_WIDTHS[..5]) == 24
    ensures Offset(PREFIX_WIDTHS) == 28
  {
    var w := PREFIX_WIDTHS;
    assert w[..1][..0] == w[..0];
    assert w[..2][..1] == w[..1];
    assert w[..3][..2] == w[..2];
    assert w[..4][..3] == w[..3];
    assert w[..5][..4] == w[..4];
    assert w[..6][..5] == w[..5];
    assert w[..6] == w;
  }

  function Prefix(code: uint16, sequence: uint64, timestamp: uint64, length: uint32): (bytes: seq<byte>)
    ensures |bytes| == CRC_OFFSET
  {
    PrefixOffsets();
    Fields([MAGIC, VERSION, code, sequence, timestamp, length], PREFIX_WIDTHS)
  }

  /** The datagram: header prefix, checksum of prefix and payload, payload. */
  function Datagram(code: uint16, sequence: uint64, timestamp: uint64, payload: seq<byte>): seq<byte>
    requires |payload| <= MAX_PAYLOAD
  {
    var prefix := Prefix(code, sequence, timestamp, |payload|);
    prefix + BigEndian(PacketCrc(prefix, payload), 4) + payload
  }

  function DatagramCrc(code: uint16, sequence: uint64, timestamp: uint64, payload: seq<byte>): uint32
    requires |payload| <= MAX_PAYLOAD
  {
    PacketCrc(Prefix(code, sequence, timestamp, |payload|), payload)
  }

  function Encode(code: uint16, sequence: uint64, timestamp: uint64, payload: seq<byte>): EncodeResult {
    if TypeOf(code).None? then UnknownType
    else if |payload| > MAX_PAYLOAD then PayloadTooLong
    else Encoded(Datagram(code, sequence, timestamp, payload))
  }

  /** The checks of `decode_packet`, in its order. */
  function Decode(bytes: seq<byte>): DecodeResult {
    if |bytes| < HEADER_SIZE then Failed(TruncatedHeader)
    else
      var length := FieldAt(bytes, 24, 4);
      if FieldAt(bytes, 0, 4) != MAGIC then Failed(InvalidMagic)
      else if FieldAt(bytes, 4, 2) != VERSION then Failed(UnsupportedVersion)
      else if TypeOf(FieldAt(bytes, 6, 2)).None? then Failed(UnknownMessageType)
      else if length > MAX_PAYLOAD then Failed(PayloadTooLarge)
      else if |bytes| < HEADER_SIZE + length then Failed(TruncatedPayload)
      else if |bytes| != HEADER_SIZE + length then Failed(LengthMismatch)
      else if PacketCrc(bytes[..28], bytes[32..]) != FieldAt(bytes, 28, 4) then Failed(CrcMismatch)
      else
        Decoded(Packet(HeaderOf(bytes), bytes[32..]))
  }

  function HeaderOf(bytes: seq<byte>): PacketHeader
    requires |bytes| >= HEADER_SIZE
    requires TypeOf(FieldAt(bytes, 6, 2)).Some?
  {
    FieldFits(bytes, 0, 4);
    FieldFits(bytes, 4, 2);
    FieldFits(bytes, 8, 8);
    FieldFits(bytes, 16, 8);
    FieldFits(bytes, 24, 4);
    FieldFits(bytes, 28, 4);
    PacketHeader(
      FieldAt(bytes, 0, 4), FieldAt(bytes, 4, 2), TypeOf(FieldAt(bytes, 6, 2)).value,
      FieldAt(bytes, 8, 8), FieldAt(bytes, 16, 8), FieldAt(bytes, 24, 4), FieldAt(bytes, 28, 4))
  }

  lemma FieldFits(bytes: seq<byte>, offset: nat, width: nat)
    requires offset + width <= |bytes|
    requires width == 2 || width == 4 || width == 8
    ensures FieldAt(bytes, offset, width) < (if width == 2 then TWO_16 else if width == 4 then TWO_32 else TWO_64)
  {
    Bounds();
    FromBigEndianFits(bytes[offset..offset + width]);
  }

  /* ----- the methods ----- */

  method EncodePacket(code: uint16, sequence: uint64, timestamp: uint64, payload: seq<byte>)
    returns (r: EncodeResult)
    ensures r == Encode(code, sequence, timestamp, payload)
  {
    if TypeOf(code).None? {
      return UnknownType;
    }
    if |payload| > MAX_PAYLOAD {
      return PayloadTooLong;
    }
    var output := new byte[HEADER_SIZE + |payload|](_ => 0);
    WriteHeaderPrefix(output, code, sequence, timestamp, |payload|);
    forall i | 0 <= i < |payload| {
      output[HEADER_SIZE + i] := payload[i];
    }
    ghost var prefix := Prefix(code, sequence, timestamp, |payload|);
    assert output[..28] == prefix;
    assert output[32..] == payload;
    var state := UpdateCrc(INITIAL, output[..28]);
    state := UpdateCrc(state, output[32..]);
    WriteBigEndian(output, 28, 4, Xor32(state, INITIAL));
    assert output[..] == output[..32] + output[32..];
    return Encoded(output[..]);
  }

  method WriteHeaderPrefix(output: array<byte>, code: uint16, sequence: uint64, timestamp: uint64, length: uint32)
    requires output.Length >= HEADER_SIZE
    modifies output
    ensures output[..28] == Prefix(code, sequence, timestamp, length)
  {
    hide Fields, BigEndian;
    WriteBigEndian(output, 0, 4, MAGIC);
    WriteBigEndian(output, 4, 2, VERSION);
    WriteBigEndian(output, 6, 2, code);
    WriteBigEndian(output, 8, 8, sequence);
    WriteBigEndian(output, 16, 8, timestamp);
    WriteBigEndian(output, 24, 4, length);
    assert old(output[..0]) == [];
    PrefixWritten(code, sequence, timestamp, length);
  }

  lemma PrefixWritten(code: uint16, sequence: uint64, timestamp: uint64, length: uint32)
    ensures Prefix(code, sequence, timestamp, length)
         == [] + BigEndian(MAGIC, 4) + BigEndian(VERSION, 2) + BigEndian(code, 2)
            + BigEndian(sequence, 8) + BigEndian(timestamp, 8) + BigEndian(length, 4)
  {
    var v: seq<nat>, w := [MAGIC, VERSION, code, sequence, timestamp, length], PREFIX_WIDTHS;
    hide BigEndian;
    assert Fields(v[..0], w[..0]) == [];
    hide Fields;
    FieldsPrefix(v, w, 1);
    FieldsPrefix(v, w, 2);
    FieldsPrefix(v, w, 3);
    FieldsPrefix(v, w, 4);
    FieldsPrefix(v, w, 5);
    FieldsPrefix(v, w, 6);
    assert v[..6] == v && w[..6] == w;
  }

  method DecodePacket(bytes: seq<byte>) returns (r: DecodeResult)
    ensures r == Decode(bytes)
  {
    if |bytes| < HEADER_SIZE {
      return Failed(TruncatedHeader);
    }
    var magic := ReadBigEndian(bytes, 0, 4);
    var version := ReadBigEndian(bytes, 4, 2);
    var rawType := ReadBigEndian(bytes, 6, 2);
    var sequence := ReadBigEndian(bytes, 8, 8);
    var timestamp := ReadBigEndian(bytes, 16, 8);
    var length := ReadBigEndian(bytes, 24, 4);
    var crc := ReadBigEndian(bytes, 28, 4);
    if magic != MAGIC {
      return Failed(InvalidMagic);
    }
    if version != VERSION {
      return Failed(UnsupportedVersion);
    }
    if TypeOf(rawType).None? {
      return Failed(UnknownMessageType);
    }
    if length > MAX_PAYLOAD {
      return Failed(PayloadTooLarge);
    }
    var expected := HEADER_SIZE + length;
    if |bytes| < expected {
      return Failed(TruncatedPayload);
    }
    if |bytes| != expected {
      return Failed(LengthMismatch);
    }
    var state := UpdateCrc(INITIAL, bytes[..28]);
    state := UpdateCrc(state, bytes[32..]);
    if Xor32(state, INITIAL) != crc {
      return Failed(CrcMismatch);
    }
    ghost var header := HeaderOf(bytes);
    FieldFits(bytes, 8, 8);
    FieldFits(bytes, 16, 8);
    FieldFits(bytes, 24, 4);
    FieldFits(bytes, 28, 4);
    return Decoded(Packet(
      PacketHeader(magic, version, TypeOf(rawType).value, sequence, timestamp, length, crc), bytes[32..]));
  }

  /* ----- round trips ----- */

  lemma PrefixReadsBack(code: uint16, sequence: uint64, timestamp: uint64, length: uint32, tail: seq<byte>)
    ensures var bytes := Prefix(code, sequence, timestamp, length) + tail;
            && FieldAt(bytes, 0, 4) == MAGIC
            && FieldAt(bytes, 4, 2) == VERSION
            && FieldAt(bytes, 6, 2) == code
            && FieldAt(bytes, 8, 8) == sequence
            && FieldAt(bytes, 16, 8) == timestamp
            && FieldAt(bytes, 24, 4) == length
  {
    PrefixOffsets();
    Bounds();
    var v: seq<nat>, w := [MAGIC, VERSION, code, sequence, timestamp, length], PREFIX_WIDTHS;
    FieldsReadBack(v, w, tail, 0);
    FieldsReadBack(v, w, tail, 1);
    FieldsReadBack(v, w, tail, 2);
    FieldsReadBack(v, w, tail, 3);
    FieldsReadBack(v, w, tail, 4);
    FieldsReadBack(v, w, tail, 5);
  }

  /** The parts of a datagram, as the decoder slices them. */
  lemma DatagramParts(code: uint16, sequence: uint64, timestamp: uint64, payload: seq<byte>)
    requires |payload| <= MAX_PAYLOAD
    ensures var d, prefix := Datagram(code, sequence, timestamp, payload), Prefix(code, sequence, timestamp, |payload|);
            && |d| == HEADER_SIZE + |payload|
            && d[..28] == prefix
            && d[32..] == payload
            && FieldAt(d, 28, 4) == PacketCrc(prefix, payload)
  {
    var prefix := Prefix(code, sequence, timestamp, |payload|);
    var crc := BigEndian(PacketCrc(prefix, payload), 4);
    var d := Datagram(code, sequence, timestamp, payload);
    assert d[..28] == prefix && d[28..32] == crc && d[32..] == payload;
    Bounds();
    ReadWritten(PacketCrc(prefix, payload), 4);
  }

  /** Decoding what was encoded gives the same message, for every message the encoder accepts. */
  lemma DecodeEncoded(t: MessageType, sequence: uint64, timestamp: uint64, payload: seq<byte>)
    requires |payload| <= MAX_PAYLOAD
    ensures var d := Datagram(Code(t), sequence, timestamp, payload);
            && Encode(Code(t), sequence, timestamp, payload) == Encoded(d)
            && Decode(d) == Decoded(Packet(
                 PacketHeader(MAGIC, VERSION, t, sequence, timestamp, |payload|,
                              DatagramCrc(Code(t), sequence, timestamp, payload)),
                 payload))
  {
    DatagramFields(Code(t), sequence, timestamp, payload);
    DatagramParts(Code(t), sequence, timestamp, payload);
    AllChecksPass(Datagram(Code(t), sequence, timestamp, payload), t, sequence, timestamp, payload,
                  DatagramCrc(Code(t), sequence, timestamp, payload));
  }

  lemma AllChecksPass(d: seq<byte>, t: MessageType, sequence: uint64, timestamp: uint64, payload: seq<byte>,
                      crc: uint32)
    requires |d| == HEADER_SIZE + |payload| && |payload| <= MAX_PAYLOAD
    requires FieldAt(d, 0, 4) == MAGIC && FieldAt(d, 4, 2) == VERSION && FieldAt(d, 6, 2) == Code(t)
    requires FieldAt(d, 8, 8) == sequence && FieldAt(d, 16, 8) == timestamp && FieldAt(d, 24, 4) == |payload|
    requires d[32..] == payload && FieldAt(d, 28, 4) == PacketCrc(d[..28], d[32..]) == crc
    ensures Decode(d) == Decoded(Packet(
              PacketHeader(MAGIC, VERSION, t, sequence, timestamp, |payload|, crc), payload))
  {
    hide PacketCrc, FieldAt;
    assert TypeOf(Code(t)) == Some(t);
  }

  lemma DatagramFields(code: uint16, sequence: uint64, timestamp: uint64, payload: seq<byte>)
    requires |payload| <= MAX_PAYLOAD
    ensures var d := Datagram(code, sequence, timestamp, payload);
            && |d| == HEADER_SIZE + |payload|
            && FieldAt(d, 0, 4) == MAGIC
            && FieldAt(d, 4, 2) == VERSION
            && FieldAt(d, 6, 2) == code
            && FieldAt(d, 8, 8) == sequence
            && FieldAt(d, 16, 8) == timestamp
            && FieldAt(d, 24, 4) == |payload|
  {
    var prefix := Prefix(code, sequence, timestamp, |payload|);
    var crc := BigEndian(PacketCrc(prefix, payload), 4);
    Reassociate(prefix, crc, payload);
    PrefixReadsBack(code, sequence, timestamp, |payload|, crc + payload);
  }

  /** Whatever the decoder accepts is exactly what the encoder would have written. */
  lemma EncodeDecoded(bytes: seq<byte>)
    requires Decode(bytes).Decoded?
    ensures var p := Decode(bytes).packet;
            && |p.payload| <= MAX_PAYLOAD
            && Encode(Code(p.header.messageType), p.header.sequenceNumber, p.header.sourceTimestamp, p.payload)
               == Encoded(bytes)
            && p.header.magic == MAGIC && p.header.version == VERSION && p.header.payloadLength == |p.payload|
  {
    var h, payload := HeaderOf(bytes), bytes[32..];
    var prefix := Prefix(Code(h.messageType), h.sequenceNumber, h.sourceTimestamp, h.payloadLength);
    PrefixBytes(bytes, Code(h.messageType), h.sequenceNumber, h.sourceTimestamp, h.payloadLength);
    WriteRead(bytes[28..32]);
    assert bytes == bytes[..28] + bytes[28..32] + bytes[32..];
    assert PacketCrc(bytes[..28], payload) == FieldAt(bytes, 28, 4);
  }

  lemma PrefixBytes(bytes: seq<byte>, code: uint16, sequence: uint64, timestamp: uint64, length: uint32)
    requires |bytes| >= 28
    requires FieldAt(bytes, 0, 4) == MAGIC && FieldAt(bytes, 4, 2) == VERSION
    requires FieldAt(bytes, 6, 2) == code && FieldAt(bytes, 8, 8) == sequence
    requires FieldAt(bytes, 16, 8) == timestamp && FieldAt(bytes, 24, 4) == length
    ensures Prefix(code, sequence, timestamp, length) == bytes[..28]
  {
    PrefixOffsets();
    var v: seq<nat>, w := [MAGIC, VERSION, code, sequence, timestamp, length], PREFIX_WIDTHS;
    var head := bytes[..28];
    assert head[0..4] == bytes[0..4] && head[4..6] == bytes[4..6] && head[6..8] == bytes[6..8];
    assert head[8..16] == bytes[8..16] && head[16..24] == bytes[16..24] && head[24..28] == bytes[24..28];
    FieldsWriteBack(head, v, w);
  }

  /* ----- error detection ----- */

  /** The received datagram differs from the sent one only inside [from, from + width). */
  ghost predicate Damaged(sent: seq<byte>, got: seq<byte>, from: nat, width: nat) {
    && |got| == |sent| && from + width <= |sent|
    && got[..from] == sent[..from] && got[from + width..] == sent[from + width..]
    && got != sent
  }

  /** A damaged window of at most four bytes in the bytes the checksum covers changes the checksum. */
  lemma WindowChangesCrc(sent: seq<byte>, got: seq<byte>, from: nat, width: nat)
    requires Damaged(sent, got, from, width) && width <= 4 && |sent| >= HEADER_SIZE
    requires from + width <= 28 || from >= 32
    ensures PacketCrc(got[..28], got[32..]) != PacketCrc(sent[..28], sent[32..])
  {
    if from + width <= 28 {
      PrefixWindow(sent, got, from, width);
    } else {
      PayloadWindow(sent, got, from, width);
    }
  }

  lemma PrefixWindow(sent: seq<byte>, got: seq<byte>, from: nat, width: nat)
    requires Damaged(sent, got, from, width) && width <= 4 && |sent| >= HEADER_SIZE
    requires from + width <= 28
    ensures PacketCrc(got[..28], got[32..]) != PacketCrc(sent[..28], sent[32..])
  {
    hide Crc32, PacketCrc;
    PacketCrcIsCrc32(sent[..28], sent[32..]);
    PacketCrcIsCrc32(got[..28], got[32..]);
    var to := from + width;
    Window(sent, got, from, width);
    SameBytes(sent, got, from, width, to, 28);
    SameBytes(sent, got, from, width, 32, |sent|);
    assert got[32..] == got[32..|sent|] && sent[32..] == sent[32..|sent|];
    SplitInPrefix(sent, from, to);
    SplitInPrefix(got, from, to);
    BurstDetected(sent[..from], sent[from..to], got[from..to], sent[to..28] + sent[32..]);
  }

  lemma PayloadWindow(sent: seq<byte>, got: seq<byte>, from: nat, width: nat)
    requires Damaged(sent, got, from, width) && width <= 4 && |sent| >= HEADER_SIZE
    requires from >= 32
    ensures PacketCrc(got[..28], got[32..]) != PacketCrc(sent[..28], sent[32..])
  {
    hide Crc32, PacketCrc;
    PacketCrcIsCrc32(sent[..28], sent[32..]);
    PacketCrcIsCrc32(got[..28], got[32..]);
    var to := from + width;
    Window(sent, got, from, width);
    SameBytes(sent, got, from, width, 0, 28);
    SameBytes(sent, got, from, width, 32, from);
    SplitInPayload(sent, from, to);
    SplitInPayload(got, from, to);
    BurstDetected(sent[..28] + sent[32..from], sent[from..to], got[from..to], sent[to..]);
  }

  lemma SplitInPrefix(d: seq<byte>, from: nat, to: nat)
    requires from <= to <= 28 && 32 <= |d|
    ensures d[..28] + d[32..] == d[..from] + d[from..to] + (d[to..28] + d[32..])
  {
  }

  lemma SplitInPayload(d: seq<byte>, from: nat, to: nat)
    requires 32 <= from <= to <= |d|
    ensures d[..28] + d[32..] == d[..28] + d[32..from] + d[from..to] + d[to..]
  {
  }

  lemma Window(sent: seq<byte>, got: seq<byte>, from: nat, width: nat)
    requires Damaged(sent, got, from, width)
    ensures got[from..from + width] != sent[from..from + width]
  {
    var to := from + width;
    assert sent == sent[..from] + sent[from..to] + sent[to..];
    assert got == got[..from] + got[from..to] + got[to..];
  }

  lemma SameBytes(sent: seq<byte>, got: seq<byte>, from: nat, width: nat, lo: nat, hi: nat)
    requires Damaged(sent, got, from, width) && lo <= hi <= |sent|
    requires hi <= from || from + width <= lo
    ensures got[lo..hi] == sent[lo..hi]
  {
    forall i | lo <= i < hi
      ensures got[i] == sent[i]
    {
      var to := from + width;
      if hi <= from {
        assert got[..from][i] == sent[..from][i];
      } else {
        assert got[to..][i - to] == sent[to..][i - to];
      }
    }
  }

  lemma SameField(sent: seq<byte>, got: seq<byte>, from: nat, width: nat, offset: nat, size: nat)
    requires Damaged(sent, got, from, width)
    requires offset + size <= from || (from + width <= offset && offset + size <= |sent|)
    ensures FieldAt(got, offset, size) == FieldAt(sent, offset, size)
  {
    SameBytes(sent, got, from, width, offset, offset + size);
  }

  /** Damage confined to four bytes of the header, checksum field included, never goes unnoticed. */
  lemma HeaderDamageDetected(sent: seq<byte>, got: seq<byte>, from: nat, width: nat)
    requires Decode(sent).Decoded?
    requires Damaged(sent, got, from, width) && width <= 4 && from + width <= 32
    ensures Decode(got).Failed?
  {
    hide PacketCrc;
    if from + width <= 28 {
      WindowChangesCrc(sent, got, from, width);
      SameField(sent, got, from, width, 28, 4);
    } else if Decode(got).Decoded? {
      // The length field decides the size, so it is intact, and the damage is in the checksum alone.
      LengthIntact(sent, got);
      SameBytes(sent, got, from, width, 0, Min(from, 24));
      SameBytes(sent, got, from, width, 32, |sent|);
      ChecksumAlone(sent, got);
      CrcFieldDamage(sent, got, 28, 4);
    }
  }

  lemma LengthIntact(sent: seq<byte>, got: seq<byte>)
    requires Decode(sent).Decoded? && Decode(got).Decoded? && |sent| == |got|
    ensures got[24..28] == sent[24..28]
  {
    hide PacketCrc;
    WriteRead(got[24..28]);
    WriteRead(sent[24..28]);
  }

  lemma ChecksumAlone(sent: seq<byte>, got: seq<byte>)
    requires |sent| == |got| >= 32 && got != sent
    requires got[..24] == sent[..24] && got[24..28] == sent[24..28] && got[32..] == sent[32..]
    ensures Damaged(sent, got, 28, 4)
  {
    assert got[..28] == got[..24] + got[24..28] && sent[..28] == sent[..24] + sent[24..28];
  }

  /** Damage confined to four bytes of the payload, or to the checksum field, is a CRC mismatch. */
  lemma BodyDamageIsCrcMismatch(sent: seq<byte>, got: seq<byte>, from: nat, width: nat)
    requires Decode(sent).Decoded?
    requires Damaged(sent, got, from, width) && width <= 4
    requires from >= 32 || (from >= 28 && from + width <= 32)
    ensures Decode(got) == Failed(CrcMismatch)
  {
    hide PacketCrc;
    SameField(sent, got, from, width, 0, 4);
    SameField(sent, got, from, width, 4, 2);
    SameField(sent, got, from, width, 6, 2);
    SameField(sent, got, from, width, 24, 4);
    if from >= 32 {
      WindowChangesCrc(sent, got, from, width);
      SameField(sent, got, from, width, 28, 4);
    } else {
      CrcFieldDamage(sent, got, from, width);
    }
  }

  lemma CrcFieldDamage(sent: seq<byte>, got: seq<byte>, from: nat, width: nat)
    requires Damaged(sent, got, from, width) && |sent| >= 32 && from >= 28 && from + width <= 32
    ensures got[..28] == sent[..28] && got[32..] == sent[32..]
    ensures FieldAt(got, 28, 4) != FieldAt(sent, 28, 4)
  {
    SameBytes(sent, got, from, width, 0, 28);
    SameBytes(sent, got, from, width, 32, |sent|);
    assert got == got[..28] + got[28..32] + got[32..] && sent == sent[..28] + sent[28..32] + sent[32..];
    WriteRead(got[28..32]);
    WriteRead(sent[28..32]);
  }

  /** Damage behind the header prefix, wherever it lies: it passes exactly if the change of the checksum
      field is the register that the change of the payload leads to from zero. */
  lemma DamagePassesExactlyWhen(sent: seq<byte>, got: seq<byte>)
    requires Decode(sent).Decoded? && |got| == |sent| && got[..28] == sent[..28]
    ensures Decode(got).Decoded?
            <==> Xor(FieldAt(sent, 28, 4), FieldAt(got, 28, 4)) == Update(0, XorBytes(sent[32..], got[32..]))
    ensures Decode(got).Decoded? || Decode(got) == Failed(CrcMismatch)
  {
    hide PacketCrc, Update, Xor;
    FieldFits(sent, 28, 4);
    FieldFits(got, 28, 4);
    assert FieldAt(got, 0, 4) == FieldAt(sent, 0, 4) && FieldAt(got, 4, 2) == FieldAt(sent, 4, 2)
        && FieldAt(got, 6, 2) == FieldAt(sent, 6, 2) && FieldAt(got, 24, 4) == FieldAt(sent, 24, 4) by {
      assert forall k | 0 <= k < 28 :: got[k] == got[..28][k] == sent[..28][k] == sent[k];
      assert got[0..4] == sent[0..4] && got[4..6] == sent[4..6] && got[6..8] == sent[6..8] && got[24..28] == sent[24..28];
    }
    CrcDifference(sent[..28], sent[32..], got[32..]);
    EqualSums(FieldAt(sent, 28, 4), PacketCrc(got[..28], got[32..]), FieldAt(got, 28, 4));
  }

  /** The checksums of two payloads under one header differ by the register of their difference. */
  lemma CrcDifference(header: seq<byte>, a: seq<byte>, b: seq<byte>)
    requires |a| == |b|
    ensures Xor(PacketCrc(header, a), PacketCrc(header, b)) == Update(0, XorBytes(a, b))
  {
    hide Update, Xor;
    var u := Update(INITIAL, header);
    XorSwap(Update(u, a), INITIAL, Update(u, b), INITIAL);
    XorSelf(INITIAL);
    XorZero(Xor(Update(u, a), Update(u, b)));
    UpdateLinear(u, u, a, b);
    XorSelf(u);
  }

  lemma EqualSums(a: nat, b: nat, c: nat)
    ensures Xor(a, c) == Xor(a, b) <==> b == c
  {
    hide Xor;
    if Xor(a, c) == Xor(a, b) {
      XorComm(a, b);
      XorComm(a, c);
      XorInjective(b, c, a);
    }
  }

  /** A message of three payload bytes with damage in two bytes of the checksum field and two of the
      payload. */
  function Straddled(sent: seq<byte>): seq<byte>
    requires |sent| == 35
  {
    sent[..28] + BigEndian(Xor(FieldAt(sent, 28, 4), 0x51DE), 4) + XorBytes(sent[32..], [49, 58, 0])
  }

  /** Damage within four bytes across the end of the checksum field can go unnoticed. */
  lemma StraddlingDamagePasses(sent: seq<byte>)
    requires Decode(sent).Decoded? && |sent| == 35
    ensures Damaged(sent, Straddled(sent), 30, 4) && Decode(Straddled(sent)).Decoded?
  {
    hide Decode, Update, Xor, XorBytes, BigEndian, FromBigEndian;
    var got, f, c := Straddled(sent), FieldAt(sent, 28, 4), Xor(FieldAt(sent, 28, 4), 0x51DE);
    assert got[..28] == sent[..28] && got[28..32] == BigEndian(c, 4) && got[32..] == XorBytes(sent[32..], [49, 58, 0]);
    FieldFits(sent, 28, 4);
    Bounds();
    Pow2Values();
    XorBound(f, 0x51DE, 32);
    ReadWritten(c, 4);
    XorTwice(f, 0x51DE);
    XorBytesCancel(sent[32..], [49, 58, 0]);
    SmallRegister();
    DamagePassesExactlyWhen(sent, got);
    StraddledBytes(sent);
  }

  lemma StraddledBytes(sent: seq<byte>)
    requires |sent| == 35
    ensures Damaged(sent, Straddled(sent), 30, 4)
  {
    hide Xor;
    var got, f, c := Straddled(sent), FieldAt(sent, 28, 4), Xor(FieldAt(sent, 28, 4), 0x51DE);
    WriteRead(sent[28..32]);
    assert BigEndian(f, 4) == sent[28..32];
    HighBytesKept(f, 0x51DE);
    TopBytes(f);
    TopBytes(c);
    assert got[28..32] == BigEndian(c, 4) && got[..28] == sent[..28];
    assert got[..30] == got[..28] + got[28..32][..2] && sent[..30] == sent[..28] + sent[28..32][..2];
    var p, d: seq<byte> := sent[32..], [49, 58, 0];
    assert got[32..] == XorBytes(p, d);
    assert d[1..] == [58, 0] && d[1..][1..] == [0];
    assert XorBytes(p, d) == [Xor(p[0], 49)] + XorBytes(p[1..], [58, 0]);
    assert XorBytes(p[1..], [58, 0]) == [Xor(p[1], 58)] + XorBytes(p[1..][1..], [0]);
    assert XorBytes(p[1..][1..], [0]) == [Xor(p[2], 0)] + XorBytes([], []);
    XorZero(p[2]);
    assert got[34..] == sent[34..];
    if Xor(p[0], 49) == p[0] {
      XorZero(p[0]);
      EqualSums(p[0], 0, 49);
    }
    assert got[32] != sent[32];
  }

  lemma TopBytes(v: nat)
    ensures BigEndian(v, 4)[..2] == BigEndian(v / 0x1_0000, 2)
  {
    assert v / 0x100 / 0x100 == v / 0x1_0000;
    assert BigEndian(v, 4) == BigEndian(v / 0x100 / 0x100, 2) + [v / 0x100 % 0x100] + [v % 0x100];
  }

  lemma HighBytesKept(v: nat, c: nat)
    requires c < 0x1_0000
    ensures Xor(v, c) / 0x1_0000 == v / 0x1_0000
  {
    hide Xor;
    Pow2Values();
    var low, high := v % 0x1_0000, v / 0x1_0000;
    XorHigh(low, high, 16);
    XorBound(low, c, 16);
    XorHigh(Xor(low, c), high, 16);
    XorAssoc(low, high * 0x1_0000, c);
    XorComm(high * 0x1_0000, c);
    XorAssoc(low, c, high * 0x1_0000);
  }

  /** `^= 0x01` on one byte. */
  function FlipLow(b: byte): byte {
    Pow2Values();
    XorBound(b, 1, 8);
    Xor(b, 1)
  }

  /** The simulator's corruption: the lowest bit of the last byte flipped. */
  function Corrupted(bytes: seq<byte>): seq<byte> {
    if bytes == [] then bytes else bytes[|bytes| - 1 := FlipLow(bytes[|bytes| - 1])]
  }

  lemma FlipLowBit(b: byte)
    ensures FlipLow(b) == (if b % 2 == 0 then b + 1 else b - 1)
  {
    XorHalf(b, 1);
    XorZero(b / 2);
  }

  /** Every datagram the simulator corrupts is rejected, and always as a CRC mismatch. */
  lemma CorruptionRejected(sent: seq<byte>)
    requires Decode(sent).Decoded?
    ensures Decode(Corrupted(sent)) == Failed(CrcMismatch)
  {
    hide FlipLow;
    var from := |sent| - 1;
    assert Damaged(sent, Corrupted(sent), from, 1) by {
      FlipLowBit(sent[from]);
    }
    BodyDamageIsCrcMismatch(sent, Corrupted(sent), from, 1);
  }
}
