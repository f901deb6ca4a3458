/** Four-byte integers on the wire: `XLCodec.decodeInt`, which composes an
    unsigned big-endian value from four bytes, and `struct.pack('>i', x)`,
    which writes a signed 32-bit value and raises when `x` does not fit.
 */
module Wire {
  import opened XLoper

  const TWO_31: int := 0x8000_0000
  const TWO_32: int := 0x1_0000_0000

  /** The range `struct.pack('>i', x)` accepts. */
  predicate InI32(x: int)
  {
    -TWO_31 <= x < TWO_31
  }

  /** The unsigned 32-bit reading of a signed 32-bit value. */
  function Unsigned(x: int): int
  {
    if x < 0 then x + TWO_32 else x
  }

  /** `bs` holds the bytes `e` from position `at` on. */
  predicate At(bs: seq<byte>, at: nat, e: seq<byte>)
  {
    at + |e| <= |bs| && forall i :: 0 <= i < |e| ==> bs[at + i] == e[i]
  }

  /** `decodeInt` reading from position `at`: `b0 << 24 | b1 << 16 | b2 << 8 | b3`
      of the next four bytes; fewer than four bytes is the end of the stream. */
  function DecodeInt(bs: seq<byte>, at: nat): (r: Result<int>)
    ensures r.Ok? <==> at + 4 <= |bs|
    ensures r.Fail? ==> r.fault == EndOfStream
    ensures r.Ok? ==> 0 <= r.value < TWO_32
  {
    if |bs| < at + 4 then Fail(EndOfStream)
    else Ok((bs[at] as int) * 0x100_0000 + (bs[at + 1] as int) * 0x1_0000 + (bs[at + 2] as int) * 0x100 + bs[at + 3] as int)
  }

  /** `struct.pack('>i', x)`: four big-endian two's-complement bytes, or
      struct.error outside the signed 32-bit range. */
  function PackInt(x: int): (r: Result<seq<byte>>)
    ensures r.Ok? <==> InI32(x)
    ensures r.Fail? ==> r.fault == PackRange
    ensures r.Ok? ==> |r.value| == 4
  {
    if !InI32(x) then Fail(PackRange)
    else
      var u := Unsigned(x);
      var q1 := u / 0x100;
      var q2 := q1 / 0x100;
      Ok([q2 / 0x100, q2 % 0x100, q1 % 0x100, u % 0x100])
  }

  /** Reading back a packed value gives it unchanged when it is not
      negative and shifted up by 2^32 when it is; bytes around it are not
      read. */
  lemma UnpackPack(x: int, bs: seq<byte>, at: nat)
    requires InI32(x) && At(bs, at, PackInt(x).value)
    ensures DecodeInt(bs, at) == Ok(Unsigned(x))
    ensures 0 <= x ==> DecodeInt(bs, at) == Ok(x)
    ensures x < 0 ==> DecodeInt(bs, at) == Ok(x + TWO_32)
  {
    var u := Unsigned(x);
    var q1 := u / 0x100;
    var q2 := q1 / 0x100;
    var e := PackInt(x).value;
    assert bs[at] == e[0] && bs[at + 1] == e[1] && bs[at + 2] == e[2] && bs[at + 3] == e[3];
    assert u == ((e[0] as int * 0x100 + e[1] as int) * 0x100 + e[2] as int) * 0x100 + e[3] as int;
  }

  /** The other direction: the four bytes `decodeInt` read are exactly what
      `struct.pack('>i', ...)` writes for the signed reading of the value. */
  lemma PackUnpack(bs: seq<byte>, at: nat)
    requires at + 4 <= |bs|
    ensures var u := DecodeInt(bs, at).value;
            var s := if u < TWO_31 then u else u - TWO_32;
            InI32(s) && Unsigned(s) == u && PackInt(s) == Ok(bs[at..at + 4])
  {
    var u := DecodeInt(bs, at).value;
    var s := if u < TWO_31 then u else u - TWO_32;
    assert Unsigned(s) == u;
    var b0, b1, b2, b3 := bs[at] as int, bs[at + 1] as int, bs[at + 2] as int, bs[at + 3] as int;
    var q1 := u / 0x100;
    var q2 := q1 / 0x100;
    assert u == ((b0 * 0x100 + b1) * 0x100 + b2) * 0x100 + b3;
    assert q1 == (b0 * 0x100 + b1) * 0x100 + b2 && u % 0x100 == b3;
    assert q2 == b0 * 0x100 + b1 && q1 % 0x100 == b2;
    assert q2 / 0x100 == b0 && q2 % 0x100 == b1;
    assert PackInt(s).value == [b0, b1, b2, b3] == bs[at..at + 4];
  }
}
