/** Which answer the packet decoder gives to which bytes, and what the encoder writes, byte for byte. */
module PacketAnswers {
  import opened Words
  import opened Types
  import opened Wire
  import opened Crc
  import opened PacketCodec

  /** The letters DRFL. */
  const MAGIC_BYTES: seq<byte> := [0x44, 0x52, 0x46, 0x4C]
  const VERSION_BYTES: seq<byte> := [0, 1]

  /** The type field stands for one of the three message types. */
  predicate KnownType(bytes: seq<byte>)
    requires |bytes| >= 8
  {
    bytes[6] == 0 && 1 <= bytes[7] <= 3
  }

  lemma FixedBytes()
    ensures BigEndian(MAGIC, 4) == [0x44, 0x52, 0x46, 0x4C] && BigEndian(VERSION, 2) == [0, 1]
  {
    assert BigEndian(0x44, 1) == [0x44] && BigEndian(0x4452, 2) == [0x44, 0x52];
    assert BigEndian(0x44_5246, 3) == [0x44, 0x52, 0x46];
    assert BigEndian(0, 1) == [0];
  }

  lemma FieldIs(bytes: seq<byte>, offset: nat, width: nat, value: nat)
    requires offset + width <= |bytes| && value < Bound(width)
    ensures FieldAt(bytes, offset, width) == value <==> bytes[offset..offset + width] == BigEndian(value, width)
  {
    WriteRead(bytes[offset..offset + width]);
    ReadWritten(value, width);
  }

  lemma MagicAndVersion(bytes: seq<byte>)
    requires |bytes| >= 8
    ensures FieldAt(bytes, 0, 4) == MAGIC <==> bytes[..4] == MAGIC_BYTES
    ensures FieldAt(bytes, 4, 2) == VERSION <==> bytes[4..6] == VERSION_BYTES
  {
    Bounds();
    FixedBytes();
    hide Bound, BigEndian, FieldAt;
    FieldIs(bytes, 0, 4, MAGIC);
    FieldIs(bytes, 4, 2, VERSION);
  }

  lemma TypeField(bytes: seq<byte>)
    requires |bytes| >= 8
    ensures var high: nat, low: nat := bytes[6], bytes[7];
            FieldAt(bytes, 6, 2) == 0x100 * high + low
  {
    var pair := bytes[6..8];
    assert pair[..1] == [bytes[6]] && pair[..1][..0] == [];
    assert FromBigEndian(pair[..1]) == bytes[6];
  }

  /** The answer to any bytes: each reason applies exactly if the ones before it do not. */
  lemma AnswerExactly(bytes: seq<byte>)
    ensures Decode(bytes) == Failed(TruncatedHeader) <==> |bytes| < 32
    ensures |bytes| >= 32 ==>
              var r, length := Decode(bytes), FieldAt(bytes, 24, 4);
              var named := bytes[..4] == MAGIC_BYTES && bytes[4..6] == VERSION_BYTES && KnownType(bytes);
              && (r == Failed(InvalidMagic) <==> bytes[..4] != MAGIC_BYTES)
              && (r == Failed(UnsupportedVersion) <==> bytes[..4] == MAGIC_BYTES && bytes[4..6] != VERSION_BYTES)
              && (r == Failed(UnknownMessageType)
                  <==> bytes[..4] == MAGIC_BYTES && bytes[4..6] == VERSION_BYTES && !KnownType(bytes))
              && (r == Failed(PayloadTooLarge) <==> named && length > 65_475)
              && (r == Failed(TruncatedPayload) <==> named && length <= 65_475 && |bytes| < 32 + length)
              && (r == Failed(LengthMismatch) <==> named && length <= 65_475 && |bytes| > 32 + length)
              && (r == Failed(CrcMismatch)
                  <==> named && length <= 65_475 && |bytes| == 32 + length
                       && Crc32(bytes[..28] + bytes[32..]) != FieldAt(bytes, 28, 4))
              && (r.Decoded?
                  <==> named && length <= 65_475 && |bytes| == 32 + length
                       && Crc32(bytes[..28] + bytes[32..]) == FieldAt(bytes, 28, 4))
  {
    hide FieldAt, PacketCrc, Crc32;
    if |bytes| >= 32 {
      MagicAndVersion(bytes);
      TypeField(bytes);
      PacketCrcIsCrc32(bytes[..28], bytes[32..]);
    }
  }

  /** Which type a type field stands for. */
  lemma TypeExactly(bytes: seq<byte>)
    requires Decode(bytes).Decoded?
    ensures var t := Decode(bytes).packet.header.messageType;
            (t == Imu <==> bytes[7] == 1) && (t == Gnss <==> bytes[7] == 2) && (t == CameraMeta <==> bytes[7] == 3)
  {
    hide FieldAt, PacketCrc;
    TypeField(bytes);
  }

  /* ----- what becomes of a valid datagram ----- */

  /** Cut off inside the header, cut off later, or with bytes appended. */
  lemma CutOrExtended(sent: seq<byte>, k: nat, extra: seq<byte>)
    requires Decode(sent).Decoded?
    ensures k < 32 ==> Decode(sent[..k]) == Failed(TruncatedHeader)
    ensures 32 <= k < |sent| ==> Decode(sent[..k]) == Failed(TruncatedPayload)
    ensures extra != [] ==> Decode(sent + extra) == Failed(LengthMismatch)
  {
    AnswerExactly(sent);
    AnswerExactly(sent + extra);
    SamePrefix(sent, sent + extra);
    if k <= |sent| {
      AnswerExactly(sent[..k]);
      if k >= 32 {
        SamePrefix(sent[..k], sent);
      }
    }
    hide Decode, FieldAt, Crc32;
  }

  lemma SamePrefix(a: seq<byte>, b: seq<byte>)
    requires |a| >= 32 && a <= b
    ensures a[..4] == b[..4] && a[4..6] == b[4..6] && a[6] == b[6] && a[7] == b[7]
    ensures FieldAt(a, 24, 4) == FieldAt(b, 24, 4)
  {
    assert a[24..28] == b[24..28];
  }

  /** Changed in the header, and however else: the first of the four checked fields that is wrong decides,
      whatever follows it. */
  lemma HeaderFieldDecides(sent: seq<byte>, got: seq<byte>)
    requires Decode(sent).Decoded? && |got| >= 32
    ensures got[..4] != sent[..4] ==> Decode(got) == Failed(InvalidMagic)
    ensures got[..4] == sent[..4] && got[4..6] != sent[4..6] ==> Decode(got) == Failed(UnsupportedVersion)
    ensures got[..6] == sent[..6] && !KnownType(got) ==> Decode(got) == Failed(UnknownMessageType)
    ensures got[..6] == sent[..6] && KnownType(got) && FieldAt(got, 24, 4) > 65_475 ==> Decode(got) == Failed(PayloadTooLarge)
  {
    AnswerExactly(sent);
    AnswerExactly(got);
    if got[..6] == sent[..6] {
      assert got[..4] == got[..6][..4] == sent[..6][..4] == sent[..4];
      assert got[4..6] == got[..6][4..] == sent[..6][4..] == sent[4..6];
    }
    hide Decode, FieldAt, Crc32, KnownType;
  }

  /** Damage within the magic number, or within the version. */
  lemma DamagedName(sent: seq<byte>, got: seq<byte>, from: nat, width: nat)
    requires Decode(sent).Decoded? && Damaged(sent, got, from, width)
    ensures from + width <= 4 ==> Decode(got) == Failed(InvalidMagic)
    ensures 4 <= from && from + width <= 6 ==> Decode(got) == Failed(UnsupportedVersion)
  {
    hide *;
    AnswerExactly(sent);
    if from + width <= 4 {
      DamagedPart(sent, got, from, width, 0, 4);
      assert got[0..4] == got[..4] && sent[0..4] == sent[..4];
      HeaderFieldDecides(sent, got);
    }
    if 4 <= from && from + width <= 6 {
      DamagedPart(sent, got, from, width, 4, 6);
      HeaderFieldDecides(sent, got);
    }
  }

  /** The part that holds the damage differs, and what comes before it does not. */
  lemma DamagedPart(sent: seq<byte>, got: seq<byte>, from: nat, width: nat, lo: nat, hi: nat)
    requires Damaged(sent, got, from, width) && lo <= from && from + width <= hi <= |sent|
    ensures |got| == |sent| && got[lo..hi] != sent[lo..hi] && got[..lo] == sent[..lo]
  {
    SameBytes(sent, got, from, width, 0, lo);
    SameBytes(sent, got, from, width, hi, |sent|);
    assert got == got[0..lo] + got[lo..hi] + got[hi..|sent|] && sent == sent[0..lo] + sent[lo..hi] + sent[hi..|sent|];
  }

  /* ----- what the encoder writes ----- */

  /** The datagram, byte for byte, and the two reasons not to write one. */
  lemma EncodesExactly(code: uint16, sequence: uint64, timestamp: uint64, payload: seq<byte>)
    ensures var prefix := MAGIC_BYTES + VERSION_BYTES + [code / 0x100, code % 0x100] + BigEndian(sequence, 8)
                          + BigEndian(timestamp, 8) + BigEndian(|payload|, 4);
            Encode(code, sequence, timestamp, payload) ==
              if code == 0 || code > 3 then UnknownType
              else if |payload| > 65_475 then PayloadTooLong
              else Encoded(prefix + BigEndian(Crc32(prefix + payload), 4) + payload)
  {
    if 1 <= code <= 3 && |payload| <= 65_475 {
      FixedBytes();
      assert BigEndian(code / 0x100, 1) == [code / 0x100 % 0x100];
      assert BigEndian(code, 2) == [code / 0x100, code % 0x100];
      hide BigEndian, Crc32, PacketCrc;
      PrefixWritten(code, sequence, timestamp, |payload|);
      assert [] + MAGIC_BYTES == MAGIC_BYTES;
      PacketCrcIsCrc32(Prefix(code, sequence, timestamp, |payload|), payload);
    }
  }
}
