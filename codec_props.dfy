/** What a peer's `decode` reads back from the bytes `encode` sends: the
    image of the host value on the wire.  Strings, doubles and None come
    back unchanged, an error code or reference field as its unsigned
    32-bit reading, an int or bool as the double `float()` gives for it,
    and a list as the block shape the MULTI policy writes.
 */
module CodecProps {
  import opened XLoper
  import opened Wire
  import opened Codec
  import opened DecodeProps

  /* ------------------------------------------------------ the wire image */

  /** `n` None values: what `n` NIL tags decode to. */
  function Nones(n: int): (r: seq<Value>)
    ensures |r| == if n <= 0 then 0 else n
    ensures forall i :: 0 <= i < |r| ==> r[i] == None
  {
    if n <= 0 then [] else seq(n, _ => None)
  }

  /** The value `decode` returns for the encoding of `v`, when `v` encodes
      without raising.  A list of rows whose first row is empty is written
      with zero columns and so reads back as the empty list. */
  function Image(v: Value, ops: FloatOps): Value
    decreases v, 1
  {
    match v
    case Str(_) => v
    case Float(_) => v
    case None => None
    case Error(e) => Error(Unsigned(e))
    case SRef(c1, c2, r1, r2) => SRef(Unsigned(c1), Unsigned(c2), Unsigned(r1), Unsigned(r2))
    case Bool(b) => Float(ops.ofInt(if b then 1 else 0))
    case Int(i) => Float(ops.ofInt(i))
    case List(xs) =>
      if |xs| == 0 then List([])
      else if xs[0].List? then
        var cols := |xs[0].items|;
        if cols == 0 then List([]) else List(ImageRows(xs, cols, ops))
      else List(ImageFirst(xs, |xs|, ops))
    case Tuple(_) => v
  }

  /** The images of the first `k` elements of `xs`. */
  function ImageFirst(xs: seq<Value>, k: int, ops: FloatOps): (r: seq<Value>)
    decreases xs, 0
    ensures |r| == if k <= 0 then 0 else if k < |xs| then k else |xs|
  {
    if k <= 0 || |xs| == 0 then []
    else [Image(xs[0], ops)] + ImageFirst(xs[1..], k - 1, ops)
  }

  /** The `cols` cells one row of a block reads back as: the row's first
      `cols` elements, padded with None when it is shorter; a row that is
      not a list is its own first cell. */
  function RowImage(row: Value, cols: int, ops: FloatOps): (r: seq<Value>)
    decreases row, 2
    ensures cols >= 1 ==> |r| == cols
  {
    if row.List? then
      var l := |row.items|;
      if l < cols then ImageFirst(row.items, l, ops) + Nones(cols - l)
      else ImageFirst(row.items, cols, ops)
    else [Image(row, ops)] + Nones(cols - 1)
  }

  /** The rows of a block of width `cols`: bare cells when `cols` is 1,
      and lists of `cols` cells otherwise. */
  function ImageRows(rows: seq<Value>, cols: int, ops: FloatOps): (r: seq<Value>)
    requires cols >= 1
    decreases rows, 0
    ensures |r| == |rows|
  {
    if |rows| == 0 then []
    else
      var cells := RowImage(rows[0], cols, ops);
      [if cols == 1 then cells[0] else List(cells)] + ImageRows(rows[1..], cols, ops)
  }

  /** `v` reads back as exactly the bytes written for it: no list inside it
      has an empty first row together with a row that is not a list (such
      a row is written after a zero-column header, and `decode` leaves it
      unread). */
  predicate Framed(v: Value)
    decreases v, 1
  {
    match v
    case List(xs) =>
      if |xs| == 0 then true
      else if xs[0].List? then
        var cols := |xs[0].items|;
        if cols == 0 then forall i :: 0 <= i < |xs| ==> xs[i].List?
        else FramedRows(xs, cols)
      else FramedFirst(xs, |xs|)
    case _ => true
  }

  predicate FramedFirst(xs: seq<Value>, k: int)
    decreases xs, 0
  {
    k <= 0 || |xs| == 0 || (Framed(xs[0]) && FramedFirst(xs[1..], k - 1))
  }

  predicate FramedRow(row: Value, cols: int)
    decreases row, 2
  {
    if row.List? then FramedFirst(row.items, if |row.items| < cols then |row.items| else cols)
    else Framed(row)
  }

  predicate FramedRows(rows: seq<Value>, cols: int)
    decreases rows, 0
  {
    |rows| == 0 || (FramedRow(rows[0], cols) && FramedRows(rows[1..], cols))
  }

  /* ------------------------------------------------------ reading pieces */

  /** Bytes written one after another sit one after another. */
  lemma AtSplit(bs: seq<byte>, at: nat, e1: seq<byte>, e2: seq<byte>)
    requires At(bs, at, e1 + e2)
    ensures At(bs, at, e1) && At(bs, at + |e1|, e2)
  {
    forall i | 0 <= i < |e1|
      ensures bs[at + i] == e1[i]
    {
      assert (e1 + e2)[i] == e1[i];
    }
    forall i | 0 <= i < |e2|
      ensures bs[at + |e1| + i] == e2[i]
    {
      assert (e1 + e2)[|e1| + i] == e2[i];
    }
  }

  /** A run of `m` NIL tags reads as `m` None values. */
  lemma {:induction false} NilRunRead(bs: seq<byte>, at: nat, m: nat)
    requires at + m <= |bs| && forall i :: at <= i < at + m ==> bs[i] == NIL
    ensures DecodeMany(bs, at, m) == Ok((Nones(m), at + m))
    decreases m
  {
    if m > 0 {
      NilRunRead(bs, at + 1, m - 1);
      assert [None] + Nones(m - 1) == Nones(m);
    }
  }

  lemma NilsRead(n: int, bs: seq<byte>, at: nat)
    requires At(bs, at, Nils(n).bytes)
    ensures DecodeMany(bs, at, |Nils(n).bytes|) == Ok((Nones(n), at + |Nils(n).bytes|))
  {
    var e := Nils(n).bytes;
    forall j | at <= j < at + |e|
      ensures bs[j] == NIL
    {
      assert bs[at + (j - at)] == e[j - at];
    }
    NilRunRead(bs, at, |e|);
  }

  lemma StrRead(s: seq<byte>, bs: seq<byte>, at: nat)
    requires |s| <= 255 && At(bs, at, [STR, |s|] + s)
    ensures Decode(bs, at) == Ok((Str(s), at + 2 + |s|))
  {
    var e := [STR, |s|] + s;
    assert bs[at] == e[0] && bs[at + 1] == e[1];
    forall i | 0 <= i < |s|
      ensures bs[at + 2 + i] == s[i]
    {
      assert e[2 + i] == s[i];
    }
    assert bs[at + 2..at + 2 + |s|] == s;
  }

  lemma NumRead(d: Double, bs: seq<byte>, at: nat)
    requires At(bs, at, [NUM] + d)
    ensures Decode(bs, at) == Ok((Float(d), at + 9))
  {
    var e := [NUM] + d;
    assert bs[at] == e[0];
    forall i | 0 <= i < 8
      ensures bs[at + 1 + i] == d[i]
    {
      assert e[1 + i] == d[i];
    }
    assert bs[at + 1..at + 9] == d;
  }

  lemma ErrorRead(x: int, bs: seq<byte>, at: nat)
    requires InI32(x) && At(bs, at, [ERR] + PackInt(x).value)
    ensures Decode(bs, at) == Ok((Error(Unsigned(x)), at + 5))
  {
    AtSplit(bs, at, [ERR], PackInt(x).value);
    assert bs[at] == ([ERR] + PackInt(x).value)[0];
    UnpackPack(x, bs, at + 1);
  }

  lemma SRefRead(c1: int, c2: int, r1: int, r2: int, bs: seq<byte>, at: nat)
    requires InI32(c1) && InI32(c2) && InI32(r1) && InI32(r2)
    requires At(bs, at, [SREF] + (PackInt(c1).value + (PackInt(c2).value + (PackInt(r1).value + PackInt(r2).value))))
    ensures Decode(bs, at) == Ok((SRef(Unsigned(c1), Unsigned(c2), Unsigned(r1), Unsigned(r2)), at + 17))
  {
    var p1, p2, p3, p4 := PackInt(c1).value, PackInt(c2).value, PackInt(r1).value, PackInt(r2).value;
    assert bs[at] == ([SREF] + (p1 + (p2 + (p3 + p4))))[0];
    AtSplit(bs, at, [SREF], p1 + (p2 + (p3 + p4)));
    AtSplit(bs, at + 1, p1, p2 + (p3 + p4));
    AtSplit(bs, at + 5, p2, p3 + p4);
    AtSplit(bs, at + 9, p3, p4);
    UnpackPack(c1, bs, at + 1);
    UnpackPack(c2, bs, at + 5);
    UnpackPack(r1, bs, at + 9);
    UnpackPack(r2, bs, at + 13);
  }

  /** A list of rows whose rows are all lists writes nothing at width 0. */
  lemma {:induction false} RowsAtZeroWidth(rows: seq<Value>, ops: FloatOps)
    requires forall i :: 0 <= i < |rows| ==> rows[i].List?
    ensures EncodeRows(rows, 0, ops) == Emit([])
    decreases rows
  {
    if |rows| > 0 {
      RowsAtZeroWidth(rows[1..], ops);
      assert rows[0].List? && EncodeRow(rows[0], 0, ops) == Emit([]);
      assert Emit([]).bytes + Emit([]).bytes == [];
    }
  }

  /* ------------------------------------------------------ the round trip */

  /** Decoding the bytes `encode` wrote for `v` gives the image of `v` and
      ends right after those bytes, wherever they sit in the stream. */
  lemma {:induction false} RoundTrip(v: Value, ops: FloatOps, bs: seq<byte>, at: nat)
    requires Encode(v, ops).status == Done && Framed(v)
    requires At(bs, at, Encode(v, ops).bytes)
    ensures Decode(bs, at) == Ok((Image(v, ops), at + |Encode(v, ops).bytes|))
    decreases v, 1
  {
    match v
    case Str(s) => StrRead(s, bs, at);
    case Float(d) => NumRead(d, bs, at);
    case None => assert bs[at] == [NIL][0];
    case Error(e) => ErrorRead(e, bs, at);
    case SRef(c1, c2, r1, r2) => SRefRead(c1, c2, r1, r2, bs, at);
    case Bool(b) => NumRead(ops.ofInt(if b then 1 else 0), bs, at);
    case Int(i) => NumRead(ops.ofInt(i), bs, at);
    case List(xs) => ListRoundTrip(xs, ops, bs, at);
    case Tuple(_) =>
  }

  /** The column count `encode` writes for a list. */
  function Width(xs: seq<Value>): int
  {
    if |xs| == 0 then 0 else if xs[0].List? then |xs[0].items| else 1
  }

  /** What `encode` writes for a list after its two counts. */
  function Body(xs: seq<Value>, ops: FloatOps): Encoding
  {
    if |xs| == 0 then Emit([])
    else if xs[0].List? then EncodeRows(xs, Width(xs), ops)
    else EncodeFirst(xs, |xs|, ops)
  }

  /** A list that encodes is the MULTI tag, its length, its width, and its
      body, and the two counts read back unchanged. */
  lemma ListHeader(xs: seq<Value>, ops: FloatOps, bs: seq<byte>, at: nat)
    requires Encode(List(xs), ops).status == Done
    requires At(bs, at, Encode(List(xs), ops).bytes)
    ensures at + 9 <= |bs| && bs[at] == MULTI
    ensures DecodeInt(bs, at + 1) == Ok(|xs|) && DecodeInt(bs, at + 5) == Ok(Width(xs))
    ensures Body(xs, ops).status == Done && At(bs, at + 9, Body(xs, ops).bytes)
    ensures |Encode(List(xs), ops).bytes| == 9 + |Body(xs, ops).bytes|
  {
    var n, cols, body := |xs|, Width(xs), Body(xs, ops);
    if n == 0 {
      assert Packed(0).bytes + [] == Packed(0).bytes;
    }
    assert Encode(List(xs), ops) == Then(Emit([MULTI]), Then(Packed(n), Then(Packed(cols), body)));
    var pn, pc := PackInt(n).value, PackInt(cols).value;
    var e := [MULTI] + (pn + (pc + body.bytes));
    assert Encode(List(xs), ops).bytes == e;
    assert bs[at] == e[0];
    AtSplit(bs, at, [MULTI], pn + (pc + body.bytes));
    AtSplit(bs, at + 1, pn, pc + body.bytes);
    AtSplit(bs, at + 5, pc, body.bytes);
    UnpackPack(n, bs, at + 1);
    UnpackPack(cols, bs, at + 5);
  }

  lemma {:induction false} ListRoundTrip(xs: seq<Value>, ops: FloatOps, bs: seq<byte>, at: nat)
    requires Encode(List(xs), ops).status == Done && Framed(List(xs))
    requires At(bs, at, Encode(List(xs), ops).bytes)
    ensures Decode(bs, at) == Ok((Image(List(xs), ops), at + |Encode(List(xs), ops).bytes|))
    decreases xs, 2
  {
    if |xs| == 0 || (xs[0].List? && |xs[0].items| == 0) {
      EmptyBlockRoundTrip(xs, ops, bs, at);
    } else if !xs[0].List? {
      VectorRoundTrip(xs, ops, bs, at);
    } else if |xs[0].items| == 1 {
      ColumnBlockRoundTrip(xs, ops, bs, at);
    } else {
      BlockRoundTrip(xs, ops, bs, at);
    }
  }

  /** The empty list, and rows whose first row is empty: no cells. */
  lemma EmptyBlockRoundTrip(xs: seq<Value>, ops: FloatOps, bs: seq<byte>, at: nat)
    requires |xs| == 0 || (xs[0].List? && |xs[0].items| == 0)
    requires Encode(List(xs), ops).status == Done && Framed(List(xs))
    requires At(bs, at, Encode(List(xs), ops).bytes)
    ensures Decode(bs, at) == Ok((Image(List(xs), ops), at + |Encode(List(xs), ops).bytes|))
  {
    ListHeader(xs, ops, bs, at);
    if |xs| > 0 {
      RowsAtZeroWidth(xs, ops);
    }
    MultiRead(bs, at, |xs|, Width(xs), [], at + 9);
  }

  /** A list whose first element is not a list: one column of values. */
  lemma {:induction false} VectorRoundTrip(xs: seq<Value>, ops: FloatOps, bs: seq<byte>, at: nat)
    requires |xs| > 0 && !xs[0].List?
    requires Encode(List(xs), ops).status == Done && Framed(List(xs))
    requires At(bs, at, Encode(List(xs), ops).bytes)
    ensures Decode(bs, at) == Ok((Image(List(xs), ops), at + |Encode(List(xs), ops).bytes|))
    decreases xs, 1
  {
    ListHeader(xs, ops, bs, at);
    FirstRoundTrip(xs, |xs|, ops, bs, at + 9);
    MultiRead(bs, at, |xs|, 1, ImageFirst(xs, |xs|, ops), at + 9 + |Body(xs, ops).bytes|);
  }

  /** Rows one cell wide: each row reads back as its first cell. */
  lemma {:induction false} ColumnBlockRoundTrip(xs: seq<Value>, ops: FloatOps, bs: seq<byte>, at: nat)
    requires |xs| > 0 && xs[0].List? && |xs[0].items| == 1
    requires Encode(List(xs), ops).status == Done && Framed(List(xs))
    requires At(bs, at, Encode(List(xs), ops).bytes)
    ensures Decode(bs, at) == Ok((Image(List(xs), ops), at + |Encode(List(xs), ops).bytes|))
    decreases xs, 1
  {
    ListHeader(xs, ops, bs, at);
    ColumnRoundTrip(xs, ops, bs, at + 9);
    MultiRead(bs, at, |xs|, 1, ImageRows(xs, 1, ops), at + 9 + |Body(xs, ops).bytes|);
  }

  /** Rows at least two cells wide: each row reads back as a list. */
  lemma {:induction false} BlockRoundTrip(xs: seq<Value>, ops: FloatOps, bs: seq<byte>, at: nat)
    requires |xs| > 0 && xs[0].List? && |xs[0].items| > 1
    requires Encode(List(xs), ops).status == Done && Framed(List(xs))
    requires At(bs, at, Encode(List(xs), ops).bytes)
    ensures Decode(bs, at) == Ok((Image(List(xs), ops), at + |Encode(List(xs), ops).bytes|))
    decreases xs, 1
  {
    ListHeader(xs, ops, bs, at);
    RowsRoundTrip(xs, Width(xs), ops, bs, at + 9);
    MultiRead(bs, at, |xs|, Width(xs), ImageRows(xs, Width(xs), ops), at + 9 + |Body(xs, ops).bytes|);
  }

  /** A MULTI header with counts `rows` and `cols`, then cells that read as `cells`. */
  lemma MultiRead(bs: seq<byte>, at: nat, rows: nat, cols: nat, cells: seq<Value>, end: nat)
    requires at + 9 <= |bs| && bs[at] == MULTI
    requires DecodeInt(bs, at + 1) == Ok(rows) && DecodeInt(bs, at + 5) == Ok(cols)
    requires DecodeCells(bs, at + 9, rows, cols) == Ok((cells, end))
    ensures Decode(bs, at) == Ok((List(cells), end))
  {
  }

  lemma {:induction false} FirstRoundTrip(xs: seq<Value>, k: int, ops: FloatOps, bs: seq<byte>, at: nat)
    requires EncodeFirst(xs, k, ops).status == Done && FramedFirst(xs, k)
    requires At(bs, at, EncodeFirst(xs, k, ops).bytes)
    ensures DecodeMany(bs, at, |ImageFirst(xs, k, ops)|) ==
            Ok((ImageFirst(xs, k, ops), at + |EncodeFirst(xs, k, ops).bytes|))
    decreases xs, 0
  {
    if k > 0 && |xs| > 0 {
      var e1, e2 := Encode(xs[0], ops), EncodeFirst(xs[1..], k - 1, ops);
      AtSplit(bs, at, e1.bytes, e2.bytes);
      RoundTrip(xs[0], ops, bs, at);
      FirstRoundTrip(xs[1..], k - 1, ops, bs, at + |e1.bytes|);
    }
  }

  lemma {:induction false} RowRoundTrip(row: Value, cols: int, ops: FloatOps, bs: seq<byte>, at: nat)
    requires cols >= 1 && EncodeRow(row, cols, ops).status == Done && FramedRow(row, cols)
    requires At(bs, at, EncodeRow(row, cols, ops).bytes)
    ensures DecodeMany(bs, at, cols) == Ok((RowImage(row, cols, ops), at + |EncodeRow(row, cols, ops).bytes|))
    decreases row, 3
  {
    if row.List? {
      if |row.items| < cols {
        ShortRowRoundTrip(row, cols, ops, bs, at);
      } else {
        FirstRoundTrip(row.items, cols, ops, bs, at);
      }
    } else {
      ScalarRowRoundTrip(row, cols, ops, bs, at);
    }
  }

  /** A row shorter than the block: its elements, then NIL padding. */
  lemma {:induction false} ShortRowRoundTrip(row: Value, cols: int, ops: FloatOps, bs: seq<byte>, at: nat)
    requires row.List? && |row.items| < cols
    requires EncodeRow(row, cols, ops).status == Done && FramedRow(row, cols)
    requires At(bs, at, EncodeRow(row, cols, ops).bytes)
    ensures DecodeMany(bs, at, cols) == Ok((RowImage(row, cols, ops), at + |EncodeRow(row, cols, ops).bytes|))
    decreases row, 2
  {
    var l := |row.items|;
    var e1, e2 := EncodeFirst(row.items, l, ops), Nils(cols - l);
    assert EncodeRow(row, cols, ops) == Then(e1, e2);
    AtSplit(bs, at, e1.bytes, e2.bytes);
    FirstRoundTrip(row.items, l, ops, bs, at);
    PaddedRead(bs, at, ImageFirst(row.items, l, ops), at + |e1.bytes|, cols - l);
  }

  /** `x` read up to `m`, then `n` NIL tags: `x` padded with None. */
  lemma PaddedRead(bs: seq<byte>, at: nat, x: seq<Value>, m: nat, n: nat)
    requires at <= |bs| && DecodeMany(bs, at, |x|) == Ok((x, m)) && At(bs, m, Nils(n).bytes)
    ensures DecodeMany(bs, at, |x| + n) == Ok((x + Nones(n), m + n))
  {
    NilsRead(n, bs, m);
    ManyThen(bs, at, |x|, n);
  }

  /** Two runs of values read one after the other are one run. */
  lemma ManyThen(bs: seq<byte>, at: nat, a: nat, b: nat)
    requires at <= |bs| && DecodeMany(bs, at, a).Ok? && DecodeMany(bs, DecodeMany(bs, at, a).value.1, b).Ok?
    ensures DecodeMany(bs, at, a + b) ==
            Ok((DecodeMany(bs, at, a).value.0 + DecodeMany(bs, DecodeMany(bs, at, a).value.1, b).value.0,
                DecodeMany(bs, DecodeMany(bs, at, a).value.1, b).value.1))
  {
    ManyAppend(bs, at, a, b);
  }

  /** A row that is not a list: the value itself, then NIL padding. */
  lemma {:induction false} ScalarRowRoundTrip(row: Value, cols: int, ops: FloatOps, bs: seq<byte>, at: nat)
    requires !row.List? && cols >= 1
    requires EncodeRow(row, cols, ops).status == Done && FramedRow(row, cols)
    requires At(bs, at, EncodeRow(row, cols, ops).bytes)
    ensures DecodeMany(bs, at, cols) == Ok((RowImage(row, cols, ops), at + |EncodeRow(row, cols, ops).bytes|))
    decreases row, 2
  {
    var e1, e2 := Encode(row, ops), Nils(cols - 1);
    assert EncodeRow(row, cols, ops) == Then(e1, e2);
    assert e1.status == Done && Framed(row) && |e2.bytes| == cols - 1;
    AtSplit(bs, at, e1.bytes, e2.bytes);
    RoundTrip(row, ops, bs, at);
    LeadRead(bs, at, Image(row, ops), at + |e1.bytes|, cols - 1);
    assert RowImage(row, cols, ops) == [Image(row, ops)] + Nones(cols - 1);
  }

  /** One value read up to `m`, then `n` NIL tags. */
  lemma LeadRead(bs: seq<byte>, at: nat, y: Value, m: nat, n: nat)
    requires at <= |bs| && Decode(bs, at) == Ok((y, m)) && At(bs, m, Nils(n).bytes)
    ensures DecodeMany(bs, at, 1 + n) == Ok(([y] + Nones(n), m + n))
  {
    NilsRead(n, bs, m);
  }

  /** The rows of a one-column block: each row reads back as one bare value. */
  lemma {:induction false} ColumnRoundTrip(rows: seq<Value>, ops: FloatOps, bs: seq<byte>, at: nat)
    requires EncodeRows(rows, 1, ops).status == Done && FramedRows(rows, 1)
    requires At(bs, at, EncodeRows(rows, 1, ops).bytes)
    ensures DecodeMany(bs, at, |rows|) == Ok((ImageRows(rows, 1, ops), at + |EncodeRows(rows, 1, ops).bytes|))
    decreases rows, 0
  {
    if |rows| > 0 {
      var e1, e2 := EncodeRow(rows[0], 1, ops), EncodeRows(rows[1..], 1, ops);
      AtSplit(bs, at, e1.bytes, e2.bytes);
      RowRoundTrip(rows[0], 1, ops, bs, at);
      OneOfMany(bs, at);
      ColumnRoundTrip(rows[1..], ops, bs, at + |e1.bytes|);
    }
  }

  /** Reading one value as a block of one is reading it alone. */
  lemma OneOfMany(bs: seq<byte>, at: nat)
    requires at <= |bs| && DecodeMany(bs, at, 1).Ok?
    ensures Decode(bs, at) == Ok((DecodeMany(bs, at, 1).value.0[0], DecodeMany(bs, at, 1).value.1))
  {
  }

  /** The rows of a block at least two columns wide: each row reads back as
      a list of `cols` cells. */
  lemma {:induction false} RowsRoundTrip(rows: seq<Value>, cols: int, ops: FloatOps, bs: seq<byte>, at: nat)
    requires cols > 1 && EncodeRows(rows, cols, ops).status == Done && FramedRows(rows, cols)
    requires At(bs, at, EncodeRows(rows, cols, ops).bytes)
    ensures DecodeRows(bs, at, |rows|, cols) == Ok((ImageRows(rows, cols, ops), at + |EncodeRows(rows, cols, ops).bytes|))
    decreases rows, 0
  {
    if |rows| > 0 {
      var e1, e2 := EncodeRow(rows[0], cols, ops), EncodeRows(rows[1..], cols, ops);
      AtSplit(bs, at, e1.bytes, e2.bytes);
      RowRoundTrip(rows[0], cols, ops, bs, at);
      RowsRoundTrip(rows[1..], cols, ops, bs, at + |e1.bytes|);
    }
  }
}
