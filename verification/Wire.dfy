/** Big-endian integers in byte buffers (wire.hpp), and fixed layouts made of them. */
module Wire {
  import opened Words

  function BigEndian(value: nat, width: nat): (bytes: seq<byte>)
    ensures |bytes| == width
    decreases width, value
  {
    if width == 0 then [] else BigEndian(value / 0x100, width - 1) + [value % 0x100]
  }

  function FromBigEndian(bytes: seq<byte>): nat {
    if bytes == [] then 0 else 0x100 * FromBigEndian(bytes[..|bytes| - 1]) + bytes[|bytes| - 1]
  }

  /** The bound of an unsigned integer of so many bytes. */
  function Bound(width: nat): (r: nat)
    ensures r > 0
    decreases width
  {
    if width == 0 then 1 else 0x100 * Bound(width - 1)
  }

  lemma Bounds()
    ensures Bound(1) == 0x100 && Bound(2) == TWO_16 && Bound(4) == TWO_32 && Bound(8) == TWO_64
  {
    assert Bound(3) == 0x100_0000;
    assert Bound(5) == 0x100_0000_0000;
    assert Bound(6) == 0x1_0000_0000_0000;
    assert Bound(7) == 0x100_0000_0000_0000;
  }

  lemma {:induction false} FromBigEndianFits(bytes: seq<byte>)
    ensures FromBigEndian(bytes) < Bound(|bytes|)
  {
    if bytes != [] {
      FromBigEndianFits(bytes[..|bytes| - 1]);
    }
  }

  /** Writing and reading back gives the value. */
  lemma {:induction false} ReadWritten(value: nat, width: nat)
    requires value < Bound(width)
    ensures FromBigEndian(BigEndian(value, width)) == value
    decreases width
  {
    if width != 0 {
      var bytes := BigEndian(value, width);
      assert bytes[..|bytes| - 1] == BigEndian(value / 0x100, width - 1);
      ReadWritten(value / 0x100, width - 1);
    }
  }

  /** Reading and writing back gives the bytes. */
  lemma {:induction false} WriteRead(bytes: seq<byte>)
    ensures BigEndian(FromBigEndian(bytes), |bytes|) == bytes
  {
    if bytes != [] {
      WriteRead(bytes[..|bytes| - 1]);
    }
  }

  /** The byte that `value >> shift` leaves at each index. */
  lemma {:induction false} ByteAt(value: nat, width: nat, i: nat)
    requires i < width
    ensures BigEndian(value, width)[i] == value / Bound(width - 1 - i) % 0x100
    decreases width
  {
    if i < width - 1 {
      ByteAt(value / 0x100, width - 1, i);
      DivDiv(value, 0x100, Bound(width - 2 - i));
    }
  }

  lemma DivDiv(x: nat, a: nat, b: nat)
    requires a > 0 && b > 0
    ensures a * b > 0 && x / a / b == x / (a * b)
  {
    var q, r := x / a / b, x / a % b;
    var s := x % a;
    assert x == a * (x / a) + s && x / a == b * q + r;
    assert a * (b * q + r) == (a * b) * q + a * r by {
      assert a * (b * q + r) == a * (b * q) + a * r;
      assert a * (b * q) == (a * b) * q;
    }
    assert a * r <= a * (b - 1);
    assert a * (b - 1) == a * b - a;
    DivModUnique(x, a * b, q, a * r + s);
  }

  /** The write loop, in place; `value >> shift` is division by the weight of the byte. */
  method WriteBigEndian(output: array<byte>, offset: nat, width: nat, value: nat)
    requires offset + width <= output.Length
    modifies output
    ensures output[..offset + width] == old(output[..offset]) + BigEndian(value, width)
    ensures output[offset + width..] == old(output[offset + width..])
  {
    var index := 0;
    while index < width
      invariant index <= width
      invariant output[..offset] == old(output[..offset])
      invariant output[offset + width..] == old(output[offset + width..])
      invariant output[offset..offset + index] == BigEndian(value, width)[..index]
    {
      output[offset + index] := value / Bound(width - 1 - index) % 0x100;
      ByteAt(value, width, index);
      assert output[offset..offset + index + 1] == output[offset..offset + index] + [output[offset + index]];
      assert BigEndian(value, width)[..index + 1]
          == BigEndian(value, width)[..index] + [BigEndian(value, width)[index]];
      index := index + 1;
    }
    assert output[..offset + width] == output[..offset] + output[offset..offset + width];
  }

  /** The read loop; the shifted value has zeros where the byte is or-ed in, so `|` is addition. */
  method ReadBigEndian(input: seq<byte>, offset: nat, width: nat) returns (value: nat)
    requires offset + width <= |input|
    ensures value == FromBigEndian(input[offset..offset + width])
  {
    hide Bound;
    value := 0;
    var index := 0;
    assert input[offset..offset] == [];
    while index < width
      invariant index <= width
      invariant value == FromBigEndian(input[offset..offset + index])
    {
      NextByte(input[offset..offset + index], input[offset + index], width);
      assert input[offset..offset + (index + 1)] == input[offset..offset + index] + [input[offset + index]];
      value := (0x100 * value + input[offset + index]) % Bound(width);
      index := index + 1;
    }
  }

  lemma NextByte(before: seq<byte>, b: byte, width: nat)
    requires |before| < width
    ensures (0x100 * FromBigEndian(before) + b) % Bound(width) == FromBigEndian(before + [b])
  {
    var bytes := before + [b];
    assert bytes[..|bytes| - 1] == before;
    assert FromBigEndian(bytes) == 0x100 * FromBigEndian(before) + b;
    hide FromBigEndian, Bound;
    FromBigEndianFits(bytes);
    BoundGrows(|bytes|, width);
    SmallMod(FromBigEndian(bytes), Bound(width));
  }

  lemma {:induction false} BoundGrows(m: nat, n: nat)
    requires m <= n
    ensures Bound(m) <= Bound(n)
    decreases n
  {
    if m < n {
      BoundGrows(m, n - 1);
    }
  }

  /* ----- layouts: consecutive big-endian fields ----- */

  function Offset(widths: seq<nat>): nat {
    if widths == [] then 0 else Offset(widths[..|widths| - 1]) + widths[|widths| - 1]
  }

  ghost predicate Fit(values: seq<nat>, widths: seq<nat>) {
    |values| == |widths| && forall k :: 0 <= k < |values| ==> values[k] < Bound(widths[k])
  }

  function Fields(values: seq<nat>, widths: seq<nat>): (bytes: seq<byte>)
    requires |values| == |widths|
    ensures |bytes| == Offset(widths)
  {
    if values == [] then []
    else
      var n := |values| - 1;
      Fields(values[..n], widths[..n]) + BigEndian(values[n], widths[n])
  }

  function FieldAt(bytes: seq<byte>, offset: nat, width: nat): nat
    requires offset + width <= |bytes|
  {
    FromBigEndian(bytes[offset..offset + width])
  }

  lemma {:induction false} OffsetGrows(widths: seq<nat>, k: nat)
    requires k < |widths|
    ensures Offset(widths[..k]) + widths[k] <= Offset(widths)
  {
    var n := |widths| - 1;
    if k < n {
      OffsetGrows(widths[..n], k);
      assert widths[..n][..k] == widths[..k];
    }
  }

  /** Each field of a layout reads back, whatever follows the layout. */
  lemma {:induction false} FieldsReadBack(values: seq<nat>, widths: seq<nat>, tail: seq<byte>, k: nat)
    requires Fit(values, widths) && k < |values|
    ensures Offset(widths[..k]) + widths[k] <= Offset(widths)
    ensures FieldAt(Fields(values, widths) + tail, Offset(widths[..k]), widths[k]) == values[k]
    decreases |values|
  {
    hide BigEndian, FromBigEndian;
    var n := |values| - 1;
    OffsetGrows(widths, k);
    var head := Fields(values[..n], widths[..n]);
    if k == n {
      LastReadsBack(head, values[n], widths[n], tail);
    } else {
      var last := BigEndian(values[n], widths[n]);
      assert widths[..n][..k] == widths[..k];
      FieldsReadBack(values[..n], widths[..n], last + tail, k);
      Reassociate(head, last, tail);
    }
  }

  lemma LastReadsBack(head: seq<byte>, value: nat, width: nat, tail: seq<byte>)
    requires value < Bound(width)
    ensures FieldAt(head + BigEndian(value, width) + tail, |head|, width) == value
  {
    var last := BigEndian(value, width);
    ReadWritten(value, width);
    assert (head + last + tail)[|head|..|head| + width] == last;
  }

  lemma Reassociate(a: seq<byte>, b: seq<byte>, c: seq<byte>)
    ensures a + b + c == a + (b + c)
  {
  }

  /** Bytes are the layout of the fields read from them. */
  lemma {:induction false} FieldsWriteBack(bytes: seq<byte>, values: seq<nat>, widths: seq<nat>)
    requires |values| == |widths| && |bytes| == Offset(widths)
    requires forall k :: 0 <= k < |values| ==>
               Offset(widths[..k]) + widths[k] <= |bytes| && values[k] == FieldAt(bytes, Offset(widths[..k]), widths[k])
    ensures Fields(values, widths) == bytes
    decreases |values|
  {
    if values != [] {
      var n := |values| - 1;
      var split := Offset(widths[..n]);
      var head := bytes[..split];
      FieldsOfPrefix(bytes, values, widths);
      FieldsWriteBack(head, values[..n], widths[..n]);
      LastField(bytes, split, widths[n]);
      assert values[n] == FieldAt(bytes, split, widths[n]);
    }
  }

  lemma LastField(bytes: seq<byte>, split: nat, width: nat)
    requires split + width == |bytes|
    ensures bytes[..split] + BigEndian(FieldAt(bytes, split, width), width) == bytes
  {
    assert bytes[split..split + width] == bytes[split..];
    WriteRead(bytes[split..]);
  }

  lemma FieldsOfPrefix(bytes: seq<byte>, values: seq<nat>, widths: seq<nat>)
    requires |values| == |widths| > 0 && |bytes| == Offset(widths)
    requires forall k :: 0 <= k < |values| ==>
               Offset(widths[..k]) + widths[k] <= |bytes| && values[k] == FieldAt(bytes, Offset(widths[..k]), widths[k])
    ensures var n := |values| - 1;
            var vs, ws, head := values[..n], widths[..n], bytes[..Offset(widths[..n])];
            forall k :: 0 <= k < n ==>
              Offset(ws[..k]) + ws[k] <= |head| && vs[k] == FieldAt(head, Offset(ws[..k]), ws[k])
  {
    var n := |values| - 1;
    var vs, ws, head := values[..n], widths[..n], bytes[..Offset(widths[..n])];
    forall k | 0 <= k < n
      ensures Offset(ws[..k]) + ws[k] <= |head| && vs[k] == FieldAt(head, Offset(ws[..k]), ws[k])
    {
      assert ws[..k] == widths[..k];
      OffsetGrows(ws, k);
      assert values[k] == FieldAt(bytes, Offset(widths[..k]), widths[k]);
      FieldOfHead(bytes, |head|, Offset(widths[..k]), widths[k]);
    }
  }

  lemma FieldOfHead(bytes: seq<byte>, split: nat, offset: nat, width: nat)
    requires offset + width <= split <= |bytes|
    ensures FieldAt(bytes[..split], offset, width) == FieldAt(bytes, offset, width)
  {
    assert bytes[..split][offset..offset + width] == bytes[offset..offset + width];
  }

  /** A layout grows by one field at a time. */
  lemma FieldsPrefix(v: seq<nat>, w: seq<nat>, k: nat)
    requires |v| == |w| && 0 < k <= |v|
    ensures Fields(v[..k], w[..k]) == Fields(v[..k - 1], w[..k - 1]) + BigEndian(v[k - 1], w[k - 1])
  {
    assert v[..k][..k - 1] == v[..k - 1] && w[..k][..k - 1] == w[..k - 1];
  }
}
