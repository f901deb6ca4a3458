/** `XLCodec` as it runs on a connection: `Decode` and `DecodeInt` receive
    bytes step by step, `Encode` sends them step by step, with the source's
    loops.  Each method is proved to read or write exactly what the
    functions of module Codec describe.
 */
module XLCodec {
  import opened XLoper
  import opened Wire
  import opened Codec
  import opened DecodeProps
  import opened Sockets

  /** What a reader of values sees of a decode result: the value, or the fault. */
  function ValueOf<T>(d: Result<(T, nat)>): Result<T>
  {
    match d
    case Ok(p) => Ok(p.0)
    case Fail(f) => Fail(f)
  }

  /** `ord(socket.recv(1))`; `ord('')` raises at the end of the stream. */
  method RecvByte(c: Connection) returns (r: Result<byte>)
    requires c.Valid()
    modifies c
    ensures c.Valid() && c.output == old(c.output)
    ensures old(c.pos) < |c.input| ==> r == Ok(c.input[old(c.pos)]) && c.pos == old(c.pos) + 1
    ensures old(c.pos) == |c.input| ==> r == Fail(EndOfStream)
  {
    var b :- c.Recv(1);
    return Ok(b[0]);
  }

  /** `decodeInt`: four bytes, composed big-endian and unsigned. */
  method DecodeInt(c: Connection) returns (r: Result<int>)
    requires c.Valid()
    modifies c
    ensures c.Valid() && c.output == old(c.output)
    ensures r == Wire.DecodeInt(c.input, old(c.pos))
    ensures r.Ok? ==> c.pos == old(c.pos) + 4
  {
    var l :- c.Recv(4);
    return Ok(l[0] as int * 0x100_0000 + l[1] as int * 0x1_0000 + l[2] as int * 0x100 + l[3] as int);
  }

  /** `decode`: one value, read from where the connection stands. */
  method Decode(c: Connection) returns (r: Result<Value>)
    requires c.Valid()
    modifies c
    decreases |c.input| - c.pos, 0
    ensures c.Valid() && c.output == old(c.output)
    ensures r == ValueOf(Codec.Decode(c.input, old(c.pos)))
    ensures r.Ok? ==> c.pos == Codec.Decode(c.input, old(c.pos)).value.1
  {
    var tag :- RecvByte(c);
    if tag == MULTI {
      r := DecodeArray(c);
    } else {
      r := DecodeScalar(tag, c);
    }
  }

  /** Every branch of `decode` but MULTI, after the tag byte. */
  method DecodeScalar(tag: byte, c: Connection) returns (r: Result<Value>)
    requires c.Valid()
    modifies c
    ensures c.Valid() && c.output == old(c.output)
    ensures r == ValueOf(Codec.DecodeScalar(tag, c.input, old(c.pos)))
    ensures r.Ok? ==> c.pos == Codec.DecodeScalar(tag, c.input, old(c.pos)).value.1
  {
    if tag == NUM {
      var d :- c.Recv(8);
      return Ok(Float(d));
    } else if tag == STR {
      var len :- RecvByte(c);
      var s :- c.Recv(len);
      return Ok(Str(s));
    } else if tag == BOOL {
      var b :- RecvByte(c);
      if b == 0 {
        return Ok(Bool(false));
      } else {
        return Ok(Bool(true));
      }
    } else if tag == ERR {
      var e :- DecodeInt(c);
      return Ok(Error(e));
    } else if tag == MISSING {
      return Ok(None);
    } else if tag == NIL {
      return Ok(None);
    } else if tag == INT {
      var n :- DecodeInt(c);
      return Ok(Int(n));
    } else if tag == SREF {
      var c1 :- DecodeInt(c);
      var c2 :- DecodeInt(c);
      var r1 :- DecodeInt(c);
      var r2 :- DecodeInt(c);
      return Ok(SRef(c1, c2, r1, r2));
    } else {
      return Fail(UnknownTag(tag));
    }
  }

  /** The MULTI branch of `decode`, after the tag byte: the counts, then
      the values, row by row when there is more than one column. */
  method DecodeArray(c: Connection) returns (r: Result<Value>)
    requires c.Valid()
    modifies c
    decreases |c.input| - c.pos, 3
    ensures c.Valid() && c.output == old(c.output)
    ensures r == ValueOf(DecodeMulti(c.input, old(c.pos)))
    ensures r.Ok? ==> c.pos == DecodeMulti(c.input, old(c.pos)).value.1
  {
    var rows :- DecodeInt(c);
    var cols :- DecodeInt(c);
    if cols == 0 || rows == 0 {
      return Ok(List([]));
    }
    var a;
    if cols > 1 {
      a :- DecodeRows(c, rows, cols);
    } else {
      a :- DecodeValues(c, rows);
    }
    return Ok(List(a));
  }

  /** `for i in xrange(k): a.append(decode(socket))`. */
  method DecodeValues(c: Connection, k: nat) returns (r: Result<seq<Value>>)
    requires c.Valid()
    modifies c
    decreases |c.input| - c.pos, 1
    ensures c.Valid() && c.output == old(c.output)
    ensures r == ValueOf(DecodeMany(c.input, old(c.pos), k))
    ensures r.Ok? ==> c.pos == DecodeMany(c.input, old(c.pos), k).value.1
  {
    var a := [];
    var j := 0;
    while j < k
      invariant 0 <= j <= k && c.Valid() && old(c.pos) <= c.pos
      invariant c.output == old(c.output)
      invariant DecodeMany(c.input, old(c.pos), j) == Ok((a, c.pos))
    {
      var x := Decode(c);
      if x.Fail? {
        ManyFailsAt(c.input, old(c.pos), j, k);
        return Fail(x.fault);
      }
      ManySnoc(c.input, old(c.pos), j);
      a := a + [x.value];
      j := j + 1;
    }
    return Ok(a);
  }

  /** The two nested loops of a block with more than one column: each row
      is `cols` values gathered into a fresh list. */
  method DecodeRows(c: Connection, rows: nat, cols: nat) returns (r: Result<seq<Value>>)
    requires c.Valid()
    modifies c
    decreases |c.input| - c.pos, 2
    ensures c.Valid() && c.output == old(c.output)
    ensures r == ValueOf(Codec.DecodeRows(c.input, old(c.pos), rows, cols))
    ensures r.Ok? ==> c.pos == Codec.DecodeRows(c.input, old(c.pos), rows, cols).value.1
  {
    var a := [];
    var i := 0;
    while i < rows
      invariant 0 <= i <= rows && c.Valid() && old(c.pos) <= c.pos
      invariant c.output == old(c.output)
      invariant Codec.DecodeRows(c.input, old(c.pos), i, cols) == Ok((a, c.pos))
    {
      var aa := DecodeValues(c, cols);
      if aa.Fail? {
        RowsFailAt(c.input, old(c.pos), i, rows, cols);
        return Fail(aa.fault);
      }
      RowsSnoc(c.input, old(c.pos), i, cols);
      a := a + [List(aa.value)];
      i := i + 1;
    }
    return Ok(a);
  }

  /* ---------------------------------------------------------------- encode */

  /** `socket.send(struct.pack('>i', x))`: struct.error before anything is
      sent when `x` does not fit. */
  method SendInt(c: Connection, x: int) returns (st: Status)
    modifies c
    ensures c.output == old(c.output) + Packed(x).bytes && c.pos == old(c.pos)
    ensures st == Packed(x).status
  {
    match PackInt(x)
    case Fail(f) =>
      return Raised(f);
    case Ok(b) =>
      c.Send(b);
      return Done;
  }

  /** `encode(value, socket)`: sends exactly the bytes Codec.Encode gives
      and returns, or raises, as it says. */
  method Encode(v: Value, c: Connection, ops: FloatOps) returns (st: Status)
    modifies c
    decreases v, 1
    ensures c.output == old(c.output) + Codec.Encode(v, ops).bytes && c.pos == old(c.pos)
    ensures st == Codec.Encode(v, ops).status
  {
    match v
    case Str(s) =>
      c.Send([STR]);
      if |s| > 255 {
        return Raised(PackRange);
      }
      c.Send([|s|]);
      c.Send(s);
      return Done;
    case Float(d) =>
      c.Send([NUM]);
      c.Send(d);
      return Done;
    case None =>
      c.Send([NIL]);
      return Done;
    case Error(e) =>
      c.Send([ERR]);
      st := SendInt(c, e);
    case SRef(c1, c2, r1, r2) =>
      st := EncodeRef(c1, c2, r1, r2, c, ops);
    case Bool(b) =>
      c.Send([NUM]);
      c.Send(ops.ofInt(if b then 1 else 0));
      return Done;
    case Int(i) =>
      c.Send([NUM]);
      c.Send(ops.ofInt(i));
      return Done;
    case List(xs) =>
      st := EncodeArray(xs, c, ops);
    case Tuple(_) =>
      return Raised(NameError);
  }

  /** The XLSRef branch of `encode`: the SREF tag and four packed fields. */
  method EncodeRef(c1: int, c2: int, r1: int, r2: int, c: Connection, ops: FloatOps) returns (st: Status)
    modifies c
    ensures c.output == old(c.output) + Codec.Encode(SRef(c1, c2, r1, r2), ops).bytes && c.pos == old(c.pos)
    ensures st == Codec.Encode(SRef(c1, c2, r1, r2), ops).status
  {
    c.Send([SREF]);
    st := SendInt(c, c1);
    if st.Raised? {
      return;
    }
    st := SendInt(c, c2);
    if st.Raised? {
      return;
    }
    st := SendInt(c, r1);
    if st.Raised? {
      return;
    }
    st := SendInt(c, r2);
  }

  /** The list branch of `encode`: the MULTI tag and the row count, then
      the column count and the values, two-dimensional when the first
      element is itself a list. */
  method EncodeArray(xs: seq<Value>, c: Connection, ops: FloatOps) returns (st: Status)
    modifies c
    decreases xs, 3
    ensures c.output == old(c.output) + EncodeList(xs, ops).bytes && c.pos == old(c.pos)
    ensures st == EncodeList(xs, ops).status
  {
    c.Send([MULTI]);
    st := SendInt(c, |xs|);
    if st.Raised? {
      return;
    }
    if |xs| == 0 {
      st := SendInt(c, 0);
    } else if xs[0].List? {
      var cols := |xs[0].items|;
      st := SendInt(c, cols);
      if st.Raised? {
        return;
      }
      st := EncodeRows(xs, cols, c, ops);
    } else {
      st := SendInt(c, 1);
      if st.Raised? {
        return;
      }
      st := EncodeItems(xs, |xs|, c, ops);
    }
  }

  /** The first step of the loops below: the element at `j`, then the rest. */
  lemma FirstStep(xs: seq<Value>, j: nat, k: nat, ops: FloatOps, sent: seq<byte>)
    requires j < k <= |xs|
    ensures var e := Codec.Encode(xs[j], ops);
            var r := EncodeFirst(xs[j..], k - j, ops);
            var rest := EncodeFirst(xs[j + 1..], k - j - 1, ops);
            (e.status.Raised? ==> r == e) &&
            (e.status.Done? ==> sent + r.bytes == (sent + e.bytes) + rest.bytes && r.status == rest.status)
  {
    assert xs[j..][0] == xs[j] && xs[j..][1..] == xs[j + 1..];
    var e := Codec.Encode(xs[j], ops);
    var rest := EncodeFirst(xs[j + 1..], k - j - 1, ops);
    assert sent + (e.bytes + rest.bytes) == (sent + e.bytes) + rest.bytes;
  }

  lemma RowsStep(rows: seq<Value>, i: nat, cols: nat, ops: FloatOps, sent: seq<byte>)
    requires i < |rows|
    ensures var e := Codec.EncodeRow(rows[i], cols, ops);
            var r := Codec.EncodeRows(rows[i..], cols, ops);
            var rest := Codec.EncodeRows(rows[i + 1..], cols, ops);
            (e.status.Raised? ==> r == e) &&
            (e.status.Done? ==> sent + r.bytes == (sent + e.bytes) + rest.bytes && r.status == rest.status)
  {
    assert rows[i..][0] == rows[i] && rows[i..][1..] == rows[i + 1..];
    var e := Codec.EncodeRow(rows[i], cols, ops);
    var rest := Codec.EncodeRows(rows[i + 1..], cols, ops);
    assert sent + (e.bytes + rest.bytes) == (sent + e.bytes) + rest.bytes;
  }

  /** `for j in xrange(k): encode(xs[j], socket)`. */
  method EncodeItems(xs: seq<Value>, k: nat, c: Connection, ops: FloatOps) returns (st: Status)
    requires k <= |xs|
    modifies c
    decreases xs, 0
    ensures c.output == old(c.output) + EncodeFirst(xs, k, ops).bytes && c.pos == old(c.pos)
    ensures st == EncodeFirst(xs, k, ops).status
  {
    var j := 0;
    while j < k
      invariant 0 <= j <= k && c.pos == old(c.pos)
      invariant old(c.output) + EncodeFirst(xs, k, ops).bytes == c.output + EncodeFirst(xs[j..], k - j, ops).bytes
      invariant EncodeFirst(xs, k, ops).status == EncodeFirst(xs[j..], k - j, ops).status
    {
      ghost var sent := c.output;
      st := Encode(xs[j], c, ops);
      FirstStep(xs, j, k, ops, sent);
      if st.Raised? {
        return;
      }
      j := j + 1;
    }
    assert c.output + [] == c.output;
    return Done;
  }

  /** `for j in ...: encode(None, socket)`, `n` times: one NIL tag each. */
  method EncodeNils(c: Connection, n: int)
    modifies c
    ensures c.output == old(c.output) + Nils(n).bytes && c.pos == old(c.pos)
  {
    var j := 0;
    while j < n
      invariant 0 <= j <= (if n <= 0 then 0 else n) && c.pos == old(c.pos)
      invariant c.output == old(c.output) + Nils(j).bytes
    {
      c.Send([NIL]);
      assert Nils(j).bytes + [NIL] == Nils(j + 1).bytes;
      j := j + 1;
    }
    assert Nils(j).bytes == Nils(n).bytes;
  }

  /** One row of a two-dimensional array: a list row padded with NIL
      or cut to `cols` values, or a scalar followed by `cols - 1` NILs. */
  method EncodeRow(row: Value, cols: nat, c: Connection, ops: FloatOps) returns (st: Status)
    modifies c
    decreases row, 2
    ensures c.output == old(c.output) + Codec.EncodeRow(row, cols, ops).bytes && c.pos == old(c.pos)
    ensures st == Codec.EncodeRow(row, cols, ops).status
  {
    if row.List? {
      var l := |row.items|;
      if l < cols {
        st := EncodeItems(row.items, l, c, ops);
        if st.Raised? {
          return;
        }
        EncodeNils(c, cols - l);
      } else {
        st := EncodeItems(row.items, cols, c, ops);
      }
    } else {
      st := Encode(row, c, ops);
      if st.Raised? {
        return;
      }
      EncodeNils(c, cols - 1);
    }
  }

  /** `for i in xrange(rows): ...`: every row, in order, until one raises. */
  method EncodeRows(rows: seq<Value>, cols: nat, c: Connection, ops: FloatOps) returns (st: Status)
    modifies c
    decreases rows, 1
    ensures c.output == old(c.output) + Codec.EncodeRows(rows, cols, ops).bytes && c.pos == old(c.pos)
    ensures st == Codec.EncodeRows(rows, cols, ops).status
  {
    var i := 0;
    while i < |rows|
      invariant 0 <= i <= |rows| && c.pos == old(c.pos)
      invariant old(c.output) + Codec.EncodeRows(rows, cols, ops).bytes == c.output + Codec.EncodeRows(rows[i..], cols, ops).bytes
      invariant Codec.EncodeRows(rows, cols, ops).status == Codec.EncodeRows(rows[i..], cols, ops).status
    {
      ghost var sent := c.output;
      st := EncodeRow(rows[i], cols, c, ops);
      RowsStep(rows, i, cols, ops, sent);
      if st.Raised? {
        return;
      }
      i := i + 1;
    }
    assert c.output + [] == c.output;
    return Done;
  }
}
