/** Which byte strings each payload decoder accepts, as what, and why it refuses the others; and what the
    encoders write and refuse.  Everything is said of bit patterns and of bytes. */
module PayloadBytes {
  import opened Words
  import opened Types
  import opened Wire
  import opened Ieee754
  import opened SensorPayloads

  /** Neither infinite nor a NaN: below the pattern of infinity, whatever the sign. */
  predicate AllFinite(patterns: seq<uint32>) {
    forall k :: 0 <= k < |patterns| ==> patterns[k] % 0x8000_0000 < 0x7F80_0000
  }

  /** Zero of either sign, or positive and finite. */
  predicate Accuracy(b: uint32) {
    b < 0x7F80_0000 || b == 0x8000_0000
  }

  /* ----- what is valid, on the bit patterns ----- */

  lemma ImuPatterns(a: Vector3, w: Vector3)
    ensures Validate(ImuSample(a, w))
         == if AllFinite([a.x, a.y, a.z, w.x, w.y, w.z]) then None else Some(NonFiniteNumber)
  {
    var patterns := [a.x, a.y, a.z, w.x, w.y, w.z];
    forall k | 0 <= k < 6
      ensures Finite32(patterns[k]) <==> patterns[k] % 0x8000_0000 < 0x7F80_0000
    {
      FinitePattern32(patterns[k]);
    }
    hide Finite32;
    assert AllFinite(patterns) <==> forall k :: 0 <= k < 6 ==> Finite32(patterns[k]);
    assert patterns[0] == a.x && patterns[1] == a.y && patterns[2] == a.z
        && patterns[3] == w.x && patterns[4] == w.y && patterns[5] == w.z;
  }

  /** A number of this pattern is neither infinite nor a NaN. */
  predicate Finite(b: uint64) {
    b % TWO_63 < 0x7FF0_0000_0000_0000
  }

  lemma GnssPatterns(lat: uint64, lon: uint64, alt: uint64, h: uint32, v: uint32)
    ensures var answer := Validate(GnssFix(lat, lon, alt, h, v));
            var finite := Finite(lat) && Finite(lon) && Finite(alt) && AllFinite([h, v]);
            var inRange := lat % TWO_63 <= PATTERN_90 && lon % TWO_63 <= PATTERN_180 && h <= 0x8000_0000 && v <= 0x8000_0000;
            && (answer == Some(NonFiniteNumber) <==> !finite)
            && (answer == Some(ValueOutOfRange) <==> finite && !inRange)
            && (answer == None <==> finite && inRange)
            && (answer == None <==> lat % TWO_63 <= PATTERN_90 && lon % TWO_63 <= PATTERN_180 && Finite(alt)
                                    && Accuracy(h) && Accuracy(v))
            && answer != Some(SizeMismatch)
  {
    FixPatterns(lat, lon, alt, h, v);
    FinitePattern64(lat);
    FinitePattern64(lon);
    FinitePattern64(alt);
    FinitePattern32(h);
    FinitePattern32(v);
    hide Validate, Finite32, Finite64;
    assert [h, v][0] == h && [h, v][1] == v;
  }

  lemma CameraSizes(id: uint64, width: uint32, height: uint32, exposure: uint32, extra: seq<byte>)
    ensures Validate(CameraFrame(id, width, height, exposure, extra))
         == if width > 0 && height > 0 && |extra| <= 65_451 then None else Some(ValueOutOfRange)
  {
  }

  /* ----- the layouts ----- */

  lemma ImuLayout(a: Vector3, w: Vector3)
    ensures Bytes(ImuSample(a, w)) == BigEndian(a.x, 4) + BigEndian(a.y, 4) + BigEndian(a.z, 4)
                                      + BigEndian(w.x, 4) + BigEndian(w.y, 4) + BigEndian(w.z, 4)
  {
    hide Fields, BigEndian;
    SixFields([a.x, a.y, a.z, w.x, w.y, w.z], IMU_WIDTHS);
    assert [] + BigEndian(a.x, 4) == BigEndian(a.x, 4);
  }

  lemma GnssLayout(lat: uint64, lon: uint64, alt: uint64, h: uint32, v: uint32)
    ensures Bytes(GnssFix(lat, lon, alt, h, v))
         == BigEndian(lat, 8) + BigEndian(lon, 8) + BigEndian(alt, 8) + BigEndian(h, 4) + BigEndian(v, 4)
  {
    hide Fields, BigEndian;
    FiveFields([lat, lon, alt, h, v], GNSS_WIDTHS);
    assert [] + BigEndian(lat, 8) == BigEndian(lat, 8);
  }

  lemma CameraLayout(id: uint64, width: uint32, height: uint32, exposure: uint32, extra: seq<byte>)
    requires |extra| <= 65_451
    ensures Bytes(CameraFrame(id, width, height, exposure, extra))
         == BigEndian(id, 8) + BigEndian(width, 4) + BigEndian(height, 4) + BigEndian(exposure, 4)
            + BigEndian(|extra|, 4) + extra
  {
    hide Fields, BigEndian;
    FiveFields([id, width, height, exposure, |extra|], CAMERA_WIDTHS);
    assert [] + BigEndian(id, 8) == BigEndian(id, 8);
  }

  /* ----- encoding ----- */

  /** Inertial samples: encoded exactly if all six components are finite, in this layout. */
  lemma ImuEncodes(a: Vector3, w: Vector3)
    ensures Encode(ImuSample(a, w)) ==
      if AllFinite([a.x, a.y, a.z, w.x, w.y, w.z])
      then Encoded(BigEndian(a.x, 4) + BigEndian(a.y, 4) + BigEndian(a.z, 4)
                   + BigEndian(w.x, 4) + BigEndian(w.y, 4) + BigEndian(w.z, 4))
      else Invalid(NonFiniteNumber)
  {
    hide Validate, AllFinite, BigEndian, Bytes;
    ImuPatterns(a, w);
    ImuLayout(a, w);
  }

  /** Position fixes: in range, and with accuracies that are not negative, in this layout. */
  lemma GnssEncodes(lat: uint64, lon: uint64, alt: uint64, h: uint32, v: uint32)
    ensures Encode(GnssFix(lat, lon, alt, h, v)) ==
      if lat % TWO_63 <= PATTERN_90 && lon % TWO_63 <= PATTERN_180 && Finite(alt)
         && Accuracy(h) && Accuracy(v)
      then Encoded(BigEndian(lat, 8) + BigEndian(lon, 8) + BigEndian(alt, 8) + BigEndian(h, 4) + BigEndian(v, 4))
      else if Finite(lat) && Finite(lon) && Finite(alt) && AllFinite([h, v]) then Invalid(ValueOutOfRange)
      else Invalid(NonFiniteNumber)
  {
    hide Validate, BigEndian, Bytes, Finite, AllFinite, Accuracy;
    GnssPatterns(lat, lon, alt, h, v);
    GnssLayout(lat, lon, alt, h, v);
  }

  /** Camera metadata: with at least one pixel and room for the extra bytes, in this layout. */
  lemma CameraEncodes(id: uint64, width: uint32, height: uint32, exposure: uint32, extra: seq<byte>)
    ensures Encode(CameraFrame(id, width, height, exposure, extra)) ==
      if |extra| > 65_451 then ExtraTooLong
      else if width == 0 || height == 0 then Invalid(ValueOutOfRange)
      else Encoded(BigEndian(id, 8) + BigEndian(width, 4) + BigEndian(height, 4) + BigEndian(exposure, 4)
                   + BigEndian(|extra|, 4) + extra)
  {
    hide Validate, BigEndian, Bytes;
    CameraSizes(id, width, height, exposure, extra);
    if |extra| <= 65_451 {
      CameraLayout(id, width, height, exposure, extra);
    }
  }

  /* ----- decoding: what is accepted, and as what ----- */

  lemma DecodesExactly(t: MessageType, bytes: seq<byte>, p: SensorPayload)
    ensures Decode(t, bytes) == Decoded(p) <==> t == TypeOfPayload(p) && Encode(p) == Encoded(bytes)
  {
    hide DecodeImu, DecodeGnss, DecodeCamera, Encode;
    if Decode(t, bytes) == Decoded(p) {
      EncodeDecoded(t, bytes);
    }
    if Encode(p) == Encoded(bytes) {
      DecodeEncoded(p);
    }
  }

  /** A byte string decodes to an inertial sample exactly if it is these six finite components in order. */
  lemma ImuAccepts(bytes: seq<byte>, a: Vector3, w: Vector3)
    ensures Decode(Imu, bytes) == Decoded(ImuSample(a, w))
            <==> && bytes == BigEndian(a.x, 4) + BigEndian(a.y, 4) + BigEndian(a.z, 4)
                             + BigEndian(w.x, 4) + BigEndian(w.y, 4) + BigEndian(w.z, 4)
                 && AllFinite([a.x, a.y, a.z, w.x, w.y, w.z])
  {
    hide Decode, Encode, BigEndian, AllFinite;
    DecodesExactly(Imu, bytes, ImuSample(a, w));
    ImuEncodes(a, w);
  }

  lemma GnssAccepts(bytes: seq<byte>, lat: uint64, lon: uint64, alt: uint64, h: uint32, v: uint32)
    ensures Decode(Gnss, bytes) == Decoded(GnssFix(lat, lon, alt, h, v))
            <==> && bytes == BigEndian(lat, 8) + BigEndian(lon, 8) + BigEndian(alt, 8) + BigEndian(h, 4) + BigEndian(v, 4)
                 && lat % TWO_63 <= PATTERN_90 && lon % TWO_63 <= PATTERN_180 && Finite(alt)
                 && Accuracy(h) && Accuracy(v)
  {
    hide Decode, Encode, BigEndian, AllFinite, Accuracy;
    DecodesExactly(Gnss, bytes, GnssFix(lat, lon, alt, h, v));
    GnssEncodes(lat, lon, alt, h, v);
  }

  lemma CameraAccepts(bytes: seq<byte>, id: uint64, width: uint32, height: uint32, exposure: uint32, extra: seq<byte>)
    ensures Decode(CameraMeta, bytes) == Decoded(CameraFrame(id, width, height, exposure, extra))
            <==> && |extra| <= 65_451 && width > 0 && height > 0
                 && bytes == BigEndian(id, 8) + BigEndian(width, 4) + BigEndian(height, 4) + BigEndian(exposure, 4)
                             + BigEndian(|extra|, 4) + extra
  {
    hide Decode, Encode, BigEndian;
    DecodesExactly(CameraMeta, bytes, CameraFrame(id, width, height, exposure, extra));
    CameraEncodes(id, width, height, exposure, extra);
  }

  /* ----- decoding: why the others are refused ----- */

  /** An inertial payload is refused for its size, or else for a component that is not finite. */
  lemma ImuRefuses(bytes: seq<byte>)
    ensures Decode(Imu, bytes) == Failed(SizeMismatch) <==> |bytes| != 24
    ensures Decode(Imu, bytes) == Failed(NonFiniteNumber)
            <==> |bytes| == 24 && exists i :: 0 <= i < 6 && FieldAt(bytes, 4 * i, 4) % 0x8000_0000 >= 0x7F80_0000
    ensures Decode(Imu, bytes) != Failed(ValueOutOfRange)
  {
    hide FromBigEndian, Validate;
    if |bytes| == 24 {
      var a := Vector3(Field32(bytes, 0), Field32(bytes, 4), Field32(bytes, 8));
      var w := Vector3(Field32(bytes, 12), Field32(bytes, 16), Field32(bytes, 20));
      ImuPatterns(a, w);
      hide Field32, FieldAt;
      assert forall i :: 0 <= i < 6 ==> [a.x, a.y, a.z, w.x, w.y, w.z][i] == FieldAt(bytes, 4 * i, 4);
    }
  }

  /** A fix is refused for its size, else for a number that is not finite, else for its range. */
  lemma GnssRefuses(bytes: seq<byte>)
    ensures Decode(Gnss, bytes) == Failed(SizeMismatch) <==> |bytes| != 32
    ensures |bytes| == 32 ==>
              var finite := && Finite(FieldAt(bytes, 0, 8)) && Finite(FieldAt(bytes, 8, 8)) && Finite(FieldAt(bytes, 16, 8))
                            && AllFinite([FieldAt(bytes, 24, 4), FieldAt(bytes, 28, 4)]);
              var inRange := && FieldAt(bytes, 0, 8) % TWO_63 <= PATTERN_90 && FieldAt(bytes, 8, 8) % TWO_63 <= PATTERN_180
                             && FieldAt(bytes, 24, 4) <= 0x8000_0000 && FieldAt(bytes, 28, 4) <= 0x8000_0000;
              && (Decode(Gnss, bytes) == Failed(NonFiniteNumber) <==> !finite)
              && (Decode(Gnss, bytes) == Failed(ValueOutOfRange) <==> finite && !inRange)
  {
    if |bytes| == 32 {
      GnssReads(bytes);
      hide *;
      var lat: uint64, lon: uint64, alt: uint64 := Field64(bytes, 0), Field64(bytes, 8), Field64(bytes, 16);
      var h: uint32, v: uint32 := Field32(bytes, 24), Field32(bytes, 28);
      GnssPatterns(lat, lon, alt, h, v);
    }
  }

  lemma GnssReads(bytes: seq<byte>)
    requires |bytes| == 32
    ensures var answer := Validate(GnssFix(Field64(bytes, 0), Field64(bytes, 8), Field64(bytes, 16),
                                           Field32(bytes, 24), Field32(bytes, 28)));
            Decode(Gnss, bytes).Failed? == answer.Some? && (answer.Some? ==> Decode(Gnss, bytes).error == answer.value)
    ensures Field64(bytes, 0) == FieldAt(bytes, 0, 8) && Field64(bytes, 8) == FieldAt(bytes, 8, 8)
         && Field64(bytes, 16) == FieldAt(bytes, 16, 8)
         && Field32(bytes, 24) == FieldAt(bytes, 24, 4) && Field32(bytes, 28) == FieldAt(bytes, 28, 4)
  {
    hide FieldAt, Validate;
  }

  /** Camera metadata are refused for an extra length that does not fit or is not the one there is, or for
      an empty picture. */
  lemma CameraRefuses(bytes: seq<byte>)
    ensures Decode(CameraMeta, bytes) == Failed(SizeMismatch)
            <==> |bytes| < 24 || (FieldAt(bytes, 20, 4) <= 65_451 && |bytes| != 24 + FieldAt(bytes, 20, 4))
    ensures Decode(CameraMeta, bytes) == Failed(ValueOutOfRange)
            <==> |bytes| >= 24 && (FieldAt(bytes, 20, 4) > 65_451
                                   || (|bytes| == 24 + FieldAt(bytes, 20, 4)
                                       && (FieldAt(bytes, 8, 4) == 0 || FieldAt(bytes, 12, 4) == 0)))
    ensures Decode(CameraMeta, bytes) != Failed(NonFiniteNumber)
  {
    hide FromBigEndian;
  }
}
