/** `XLCodec` as pure functions over byte sequences: `Decode` reads one
    value from a position of the input and says where the next value
    starts, `Encode` gives the bytes `encode` sends for a host value,
    together with the fault that stopped it, if any (bytes sent before a
    fault stay sent).
 */
module Codec {
  import opened XLoper
  import opened Wire

  /* ---------------------------------------------------------------- decode */

  /** One value read from position `at` of `bs`, and the position after it.
      Every successful read consumes at least the tag byte. */
  function Decode(bs: seq<byte>, at: nat): (r: Result<(Value, nat)>)
    requires at <= |bs|
    decreases |bs| - at, 1, 0
    ensures r.Ok? ==> at < r.value.1 <= |bs|
  {
    if |bs| == at then Fail(EndOfStream)
    else if bs[at] == MULTI then DecodeMulti(bs, at + 1)
    else DecodeScalar(bs[at], bs, at + 1)
  }

  /** The payload of every tag but MULTI, read from position `at`. */
  function DecodeScalar(tag: byte, bs: seq<byte>, at: nat): (r: Result<(Value, nat)>)
    requires at <= |bs|
    ensures r.Ok? ==> at <= r.value.1 <= |bs|
  {
    if tag == NUM then
      if |bs| < at + 8 then Fail(EndOfStream) else Ok((Float(bs[at..at + 8]), at + 8))
    else if tag == STR then
      if |bs| == at then Fail(EndOfStream)
      else
        var len := bs[at] as int;
        if |bs| < at + 1 + len then Fail(EndOfStream)
        else Ok((Str(bs[at + 1..at + 1 + len]), at + 1 + len))
    else if tag == BOOL then
      if |bs| == at then Fail(EndOfStream) else Ok((Bool(bs[at] != 0), at + 1))
    else if tag == ERR then
      if |bs| < at + 4 then Fail(EndOfStream) else Ok((Error(DecodeInt(bs, at).value), at + 4))
    else if tag == MISSING || tag == NIL then Ok((None, at))
    else if tag == INT then
      if |bs| < at + 4 then Fail(EndOfStream) else Ok((Int(DecodeInt(bs, at).value), at + 4))
    else if tag == SREF then
      if |bs| < at + 16 then Fail(EndOfStream)
      else
        Ok((SRef(DecodeInt(bs, at).value, DecodeInt(bs, at + 4).value,
                 DecodeInt(bs, at + 8).value, DecodeInt(bs, at + 12).value), at + 16))
    else Fail(UnknownTag(tag))
  }

  /** The payload of a MULTI tag: the row and column counts, then the
      values, which together become one list. */
  function DecodeMulti(bs: seq<byte>, at: nat): (r: Result<(Value, nat)>)
    requires at <= |bs|
    decreases |bs| - at, 0, 0
    ensures r.Ok? ==> at + 8 <= r.value.1 <= |bs| && r.value.0.List?
  {
    if |bs| < at + 8 then Fail(EndOfStream)
    else
      match DecodeCells(bs, at + 8, DecodeInt(bs, at).value, DecodeInt(bs, at + 4).value)
      case Fail(f) => Fail(f)
      case Ok(d) => Ok((List(d.0), d.1))
  }

  /** The values of a `rows` x `cols` block: none when either count is zero,
      `rows` bare values when there is one column, and otherwise a fresh
      row of `cols` values per row (the evident intent of line 60). */
  function DecodeCells(bs: seq<byte>, at: nat, rows: nat, cols: nat): (r: Result<(seq<Value>, nat)>)
    requires at <= |bs|
    decreases |bs| - at, 4, 0
    ensures r.Ok? ==> at <= r.value.1 <= |bs|
  {
    if rows == 0 || cols == 0 then Ok(([], at))
    else if cols == 1 then DecodeMany(bs, at, rows)
    else DecodeRows(bs, at, rows, cols)
  }

  /** `xs` followed by the values of `r`; a fault in `r` is the fault of both. */
  function Extend(xs: seq<Value>, r: Result<(seq<Value>, nat)>): (e: Result<(seq<Value>, nat)>)
    ensures r.Fail? ==> e == r
    ensures r.Ok? ==> e.Ok? && e.value.0 == xs + r.value.0 && e.value.1 == r.value.1
  {
    match r
    case Fail(_) => r
    case Ok(y) => Ok((xs + y.0, y.1))
  }

  /** `k` values read one after another. */
  function DecodeMany(bs: seq<byte>, at: nat, k: nat): (r: Result<(seq<Value>, nat)>)
    requires at <= |bs|
    decreases |bs| - at, 2, k
    ensures r.Ok? ==> |r.value.0| == k && at <= r.value.1 <= |bs|
  {
    if k == 0 then Ok(([], at))
    else
      match Decode(bs, at)
      case Fail(f) => Fail(f)
      case Ok(h) => Extend([h.0], DecodeMany(bs, h.1, k - 1))
  }

  /** `rows` rows of `cols` values each; every row becomes a list. */
  function DecodeRows(bs: seq<byte>, at: nat, rows: nat, cols: nat): (r: Result<(seq<Value>, nat)>)
    requires at <= |bs|
    decreases |bs| - at, 3, rows
    ensures r.Ok? ==> |r.value.0| == rows && at <= r.value.1 <= |bs|
    ensures r.Ok? ==> forall i :: 0 <= i < rows ==>
              r.value.0[i].List? && |r.value.0[i].items| == cols
  {
    if rows == 0 then Ok(([], at))
    else
      match DecodeMany(bs, at, cols)
      case Fail(f) => Fail(f)
      case Ok(h) =>
        var t := DecodeRows(bs, h.1, rows - 1, cols);
        assert t.Ok? ==> forall i :: 1 <= i < rows ==> ([List(h.0)] + t.value.0)[i] == t.value.0[i - 1];
        Extend([List(h.0)], t)
  }

  /* ---------------------------------------------------------------- encode */

  datatype Status = Done | Raised(fault: Fault)

  /** The bytes sent, and whether `encode` returned or raised. */
  datatype Encoding = Encoding(bytes: seq<byte>, status: Status)

  function Emit(bs: seq<byte>): Encoding
  {
    Encoding(bs, Done)
  }

  /** `a` followed by `b`; `b` never starts when `a` raised. */
  function Then(a: Encoding, b: Encoding): (e: Encoding)
    ensures a.status.Raised? ==> e == a
    ensures a.status.Done? ==> e.bytes == a.bytes + b.bytes && e.status == b.status
  {
    if a.status.Raised? then a else Encoding(a.bytes + b.bytes, b.status)
  }

  /** `socket.send(struct.pack('>i', x))`. */
  function Packed(x: int): (e: Encoding)
    ensures e.status.Done? <==> InI32(x)
    ensures e.status.Raised? ==> e == Encoding([], Raised(PackRange))
    ensures e.status.Done? ==> |e.bytes| == 4 && DecodeInt(e.bytes, 0) == Ok(Unsigned(x))
  {
    match PackInt(x)
    case Ok(b) => UnpackPack(x, b, 0); Emit(b)
    case Fail(f) => Encoding([], Raised(f))
  }

  /** `n` NIL tags: the padding `encode(None)` writes (nothing when n <= 0). */
  function Nils(n: int): (e: Encoding)
    ensures e.status == Done
    ensures |e.bytes| == if n <= 0 then 0 else n
    ensures forall i :: 0 <= i < |e.bytes| ==> e.bytes[i] == NIL
  {
    if n <= 0 then Emit([]) else Emit(seq(n, _ => NIL))
  }

  /** The tag `encode` writes first for each kind of host value. */
  function TagOf(v: Value): byte
  {
    match v
    case Str(_) => STR
    case Float(_) => NUM
    case Bool(_) => NUM
    case Int(_) => NUM
    case None => NIL
    case Error(_) => ERR
    case SRef(_, _, _, _) => SREF
    case List(_) => MULTI
    case Tuple(_) => 0
  }

  /** `encode(value, socket)`, checking the host type in the source's
      order.  A tuple reaches the misspelt `isintance` and raises NameError
      before anything is sent, and so the tuple branch never runs. */
  function Encode(v: Value, ops: FloatOps): (e: Encoding)
    decreases v, 1
    ensures v.Tuple? <==> e.bytes == []
    ensures v.Tuple? ==> e.status == Raised(NameError)
    ensures e.bytes != [] ==> e.bytes[0] == TagOf(v)
  {
    match v
    case Str(s) =>
      if |s| > 255 then Encoding([STR], Raised(PackRange))
      else Emit([STR, |s|] + s)
    case Float(d) => Emit([NUM] + d)
    case None => Emit([NIL])
    case Error(e) => Then(Emit([ERR]), Packed(e))
    case SRef(c1, c2, r1, r2) =>
      Then(Emit([SREF]), Then(Packed(c1), Then(Packed(c2), Then(Packed(r1), Packed(r2)))))
    case Bool(b) => Emit([NUM] + ops.ofInt(if b then 1 else 0))
    case Int(i) => Emit([NUM] + ops.ofInt(i))
    case List(xs) => EncodeList(xs, ops)
    case Tuple(_) => Encoding([], Raised(NameError))
  }

  function EncodeList(xs: seq<Value>, ops: FloatOps): (e: Encoding)
    decreases xs, 3
  {
    Then(Emit([MULTI]), Then(Packed(|xs|),
      if |xs| == 0 then Packed(0)
      else if xs[0].List? then
        Then(Packed(|xs[0].items|), EncodeRows(xs, |xs[0].items|, ops))
      else
        Then(Packed(1), EncodeFirst(xs, |xs|, ops))))
  }

  /** The first `k` elements of `xs`, one after another. */
  function EncodeFirst(xs: seq<Value>, k: int, ops: FloatOps): Encoding
    decreases xs, 0
  {
    if k <= 0 || |xs| == 0 then Emit([])
    else Then(Encode(xs[0], ops), EncodeFirst(xs[1..], k - 1, ops))
  }

  /** One row of a two-dimensional array of width `cols`: a short row is
      padded with NIL, a long one cut to `cols`, and a row that is not a
      list is written once and followed by `cols - 1` NILs. */
  function EncodeRow(row: Value, cols: int, ops: FloatOps): Encoding
    decreases row, 2
  {
    if row.List? then
      var l := |row.items|;
      if l < cols then Then(EncodeFirst(row.items, l, ops), Nils(cols - l))
      else EncodeFirst(row.items, cols, ops)
    else Then(Encode(row, ops), Nils(cols - 1))
  }

  /** Every row of a two-dimensional array, in order. */
  function EncodeRows(rows: seq<Value>, cols: int, ops: FloatOps): Encoding
    decreases rows, 0
  {
    if |rows| == 0 then Emit([])
    else Then(EncodeRow(rows[0], cols, ops), EncodeRows(rows[1..], cols, ops))
  }
}
