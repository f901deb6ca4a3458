/** The promises of the XLoper codec, each stated end to end: the bytes
    `encode` writes for a host value, read back by `decode` from the start.
 */
module CodecFacts {
  import opened XLoper
  import opened Wire
  import opened Codec
  import opened DecodeProps
  import opened CodecProps

  /* ------------------------------------------------------------- scalars */

  /** A byte string of at most 255 bytes reads back as itself; a longer one
      stops `encode` at the length byte, after the tag has gone out. */
  lemma StrRoundTrip(s: seq<byte>, ops: FloatOps)
    ensures |s| <= 255 ==>
              |Encode(Str(s), ops).bytes| == 2 + |s| &&
              Decode(Encode(Str(s), ops).bytes, 0) == Ok((Str(s), 2 + |s|))
    ensures |s| > 255 ==> Encode(Str(s), ops) == Encoding([STR], Raised(PackRange))
  {
    if |s| <= 255 {
      RoundTrip(Str(s), ops, Encode(Str(s), ops).bytes, 0);
    }
  }

  /** An error code reads back unchanged when it is in [0, 2^31), shifted
      up by 2^32 when it is a negative 32-bit value, and any other code
      stops `encode` after the tag. */
  lemma ErrorRoundTrip(e: int, ops: FloatOps)
    ensures 0 <= e < TWO_31 ==> Decode(Encode(Error(e), ops).bytes, 0) == Ok((Error(e), 5))
    ensures -TWO_31 <= e < 0 ==> Decode(Encode(Error(e), ops).bytes, 0) == Ok((Error(e + TWO_32), 5))
    ensures !InI32(e) ==> Encode(Error(e), ops) == Encoding([ERR], Raised(PackRange))
  {
    if InI32(e) {
      RoundTrip(Error(e), ops, Encode(Error(e), ops).bytes, 0);
    }
  }

  /** In particular every spreadsheet error code survives the trip. */
  lemma ErrorCodesRoundTrip(e: int, ops: FloatOps)
    requires e in ErrorCodes
    ensures Encode(Error(e), ops).bytes == [ERR, 0, 0, 0, e]
    ensures Decode(Encode(Error(e), ops).bytes, 0) == Ok((Error(e), 5))
  {
    ErrorRoundTrip(e, ops);
  }

  /** A range reference with fields in [0, 2^31) reads back unchanged. */
  lemma SRefRoundTrip(c1: int, c2: int, r1: int, r2: int, ops: FloatOps)
    requires 0 <= c1 < TWO_31 && 0 <= c2 < TWO_31 && 0 <= r1 < TWO_31 && 0 <= r2 < TWO_31
    ensures |Encode(SRef(c1, c2, r1, r2), ops).bytes| == 17
    ensures Decode(Encode(SRef(c1, c2, r1, r2), ops).bytes, 0) == Ok((SRef(c1, c2, r1, r2), 17))
  {
    RoundTrip(SRef(c1, c2, r1, r2), ops, Encode(SRef(c1, c2, r1, r2), ops).bytes, 0);
  }

  /** Ints and bools go out as doubles: a NUM tag and the bytes of
      `float(n)`, which is what reads back. */
  lemma IntegersAsDoubles(v: Value, ops: FloatOps)
    requires IsIntLike(v)
    ensures Encode(v, ops).bytes == [NUM] + ops.ofInt(IntOf(v))
    ensures Decode(Encode(v, ops).bytes, 0) == Ok((Float(ops.ofInt(IntOf(v))), 9))
  {
    RoundTrip(v, ops, Encode(v, ops).bytes, 0);
  }

  /** MISSING and NIL both read as None, which goes out as NIL alone. */
  lemma MissingBecomesNil(bs: seq<byte>, at: nat, ops: FloatOps)
    requires at < |bs| && (bs[at] == MISSING || bs[at] == NIL)
    ensures Decode(bs, at) == Ok((None, at + 1))
    ensures Encode(Decode(bs, at).value.0, ops) == Encoding([NIL], Done)
  {
  }

  /** The tags `encode` writes first. */
  const EmittedTags: set<byte> := {STR, NUM, NIL, ERR, SREF, MULTI}

  /** A value `decode` can return for something `encode` wrote: no bools,
      no ints and no tuples, at any depth. */
  predicate WireValue(v: Value)
  {
    match v
    case Bool(_) => false
    case Int(_) => false
    case Tuple(_) => false
    case List(xs) => forall i :: 0 <= i < |xs| ==> WireValue(xs[i])
    case _ => true
  }

  /** `encode` starts every value with one of STR, NUM, NIL, ERR, SREF and
      MULTI, never BOOL, INT or MISSING; a tuple writes nothing. */
  lemma EncodeTags(v: Value, ops: FloatOps)
    ensures Encode(v, ops).bytes != [] ==> Encode(v, ops).bytes[0] in EmittedTags
    ensures Encode(v, ops).bytes == [] <==> v.Tuple?
    ensures Encode(v, ops).bytes != [] ==>
              Encode(v, ops).bytes[0] != BOOL && Encode(v, ops).bytes[0] != INT && Encode(v, ops).bytes[0] != MISSING
  {
  }

  /** Whatever is written reads back with no BOOL or INT in it. */
  lemma {:induction false} ImageIsWireValue(v: Value, ops: FloatOps)
    requires Encode(v, ops).status == Done
    ensures WireValue(Image(v, ops))
    decreases v, 1
  {
    match v
    case List(xs) =>
      if |xs| == 0 {
      } else if xs[0].List? {
        if |xs[0].items| > 0 {
          RowsAreWireValues(xs, |xs[0].items|, ops);
        }
      } else {
        FirstAreWireValues(xs, |xs|, ops);
      }
    case _ =>
  }

  lemma {:induction false} FirstAreWireValues(xs: seq<Value>, k: int, ops: FloatOps)
    requires EncodeFirst(xs, k, ops).status == Done
    ensures forall i :: 0 <= i < |ImageFirst(xs, k, ops)| ==> WireValue(ImageFirst(xs, k, ops)[i])
    decreases xs, 0
  {
    if k > 0 && |xs| > 0 {
      ImageIsWireValue(xs[0], ops);
      FirstAreWireValues(xs[1..], k - 1, ops);
      var r := ImageFirst(xs, k, ops);
      assert r == [Image(xs[0], ops)] + ImageFirst(xs[1..], k - 1, ops);
    }
  }

  lemma {:induction false} RowIsWireValues(row: Value, cols: int, ops: FloatOps)
    requires EncodeRow(row, cols, ops).status == Done
    ensures forall i :: 0 <= i < |RowImage(row, cols, ops)| ==> WireValue(RowImage(row, cols, ops)[i])
    decreases row, 2
  {
    if row.List? {
      var l := |row.items|;
      if l < cols {
        FirstAreWireValues(row.items, l, ops);
        var r := RowImage(row, cols, ops);
        assert forall i :: l <= i < |r| ==> r[i] == Nones(cols - l)[i - l];
      } else {
        FirstAreWireValues(row.items, cols, ops);
      }
    } else {
      ImageIsWireValue(row, ops);
      var r := RowImage(row, cols, ops);
      assert forall i :: 1 <= i < |r| ==> r[i] == Nones(cols - 1)[i - 1];
    }
  }

  lemma {:induction false} RowsAreWireValues(rows: seq<Value>, cols: int, ops: FloatOps)
    requires cols >= 1 && EncodeRows(rows, cols, ops).status == Done
    ensures forall i :: 0 <= i < |rows| ==> WireValue(ImageRows(rows, cols, ops)[i])
    decreases rows, 0
  {
    if |rows| > 0 {
      RowIsWireValues(rows[0], cols, ops);
      RowsAreWireValues(rows[1..], cols, ops);
      var cells := RowImage(rows[0], cols, ops);
      assert ImageRows(rows, cols, ops) == [if cols == 1 then cells[0] else List(cells)] + ImageRows(rows[1..], cols, ops);
      assert forall i :: 0 <= i < |cells| ==> WireValue(cells[i]);
    }
  }

  /** A tuple gets as far as the misspelt `isintance`, which raises
      NameError before anything is written. */
  lemma TupleRaises(xs: seq<Value>, ops: FloatOps)
    ensures Encode(Tuple(xs), ops) == Encoding([], Raised(NameError))
  {
  }

  /* -------------------------------------------------------------- arrays */

  lemma {:induction false} ImageFirstAt(xs: seq<Value>, k: int, ops: FloatOps, i: int)
    requires 0 <= i < k && i < |xs|
    ensures ImageFirst(xs, k, ops)[i] == Image(xs[i], ops)
    decreases xs
  {
    if i > 0 {
      ImageFirstAt(xs[1..], k - 1, ops, i - 1);
    }
  }

  lemma {:induction false} ImageRowsAt(rows: seq<Value>, cols: int, ops: FloatOps, i: int)
    requires cols >= 1 && 0 <= i < |rows|
    ensures ImageRows(rows, cols, ops)[i] ==
            if cols == 1 then RowImage(rows[i], 1, ops)[0] else List(RowImage(rows[i], cols, ops))
    decreases rows
  {
    if i > 0 {
      ImageRowsAt(rows[1..], cols, ops, i - 1);
    }
  }

  /** The cells of a row: its own elements up to the width, then None; a
      row that is not a list fills the first cell and leaves None after. */
  lemma RowImageAt(row: Value, cols: int, ops: FloatOps, j: int)
    requires 0 <= j < cols
    ensures row.List? && j < |row.items| ==> RowImage(row, cols, ops)[j] == Image(row.items[j], ops)
    ensures row.List? && j >= |row.items| ==> RowImage(row, cols, ops)[j] == None
    ensures !row.List? && j == 0 ==> RowImage(row, cols, ops)[j] == Image(row, ops)
    ensures !row.List? && j > 0 ==> RowImage(row, cols, ops)[j] == None
  {
    if row.List? {
      var l := |row.items|;
      if j < l {
        ImageFirstAt(row.items, if l < cols then l else cols, ops, j);
      }
    }
  }

  /** An empty list is MULTI with two zero counts, and reads back empty. */
  lemma EmptyListRoundTrip(ops: FloatOps)
    ensures Encode(List([]), ops) == Encoding([MULTI, 0, 0, 0, 0, 0, 0, 0, 0], Done)
    ensures Decode(Encode(List([]), ops).bytes, 0) == Ok((List([]), 9))
  {
    RoundTrip(List([]), ops, Encode(List([]), ops).bytes, 0);
  }

  /** A list whose first element is not a list is one column: it reads
      back as a flat list of the same length, element by element. */
  lemma VectorShape(xs: seq<Value>, ops: FloatOps)
    requires |xs| > 0 && !xs[0].List?
    requires Encode(List(xs), ops).status == Done && Framed(List(xs))
    ensures DecodeInt(Encode(List(xs), ops).bytes, 5) == Ok(1)
    ensures Decode(Encode(List(xs), ops).bytes, 0).Ok?
    ensures var r := Decode(Encode(List(xs), ops).bytes, 0).value.0;
            && r.List? && |r.items| == |xs|
            && (forall i :: 0 <= i < |xs| ==> r.items[i] == Image(xs[i], ops))
  {
    var bs := Encode(List(xs), ops).bytes;
    RoundTrip(List(xs), ops, bs, 0);
    ListHeader(xs, ops, bs, 0);
    forall i | 0 <= i < |xs|
      ensures ImageFirst(xs, |xs|, ops)[i] == Image(xs[i], ops)
    {
      ImageFirstAt(xs, |xs|, ops, i);
    }
  }

  /** A list of rows with a first row of width C >= 2 reads back as one
      list of C cells per row: a short row is padded with None, a long one
      cut to C, and a row that is not a list is followed by None; the bytes
      after the header are exactly rows x C encoded values. */
  lemma BlockShape(xs: seq<Value>, ops: FloatOps)
    requires |xs| > 0 && xs[0].List? && |xs[0].items| >= 2
    requires Encode(List(xs), ops).status == Done && Framed(List(xs))
    ensures var bs, c := Encode(List(xs), ops).bytes, |xs[0].items|;
      && DecodeInt(bs, 1) == Ok(|xs|) && DecodeInt(bs, 5) == Ok(c)
      && DecodeMany(bs, 9, |xs| * c).Ok? && DecodeMany(bs, 9, |xs| * c).value.1 == |bs|
      && Decode(bs, 0).Ok? && Decode(bs, 0).value.1 == |bs|
      && var r := Decode(bs, 0).value.0;
      && r.List? && |r.items| == |xs|
      && (forall i :: 0 <= i < |xs| ==> r.items[i].List? && |r.items[i].items| == c)
      && (forall i, j :: 0 <= i < |xs| && 0 <= j < c && xs[i].List? && j < |xs[i].items| ==>
            r.items[i].items[j] == Image(xs[i].items[j], ops))
      && (forall i, j :: 0 <= i < |xs| && 0 <= j < c && xs[i].List? && j >= |xs[i].items| ==>
            r.items[i].items[j] == None)
      && (forall i :: 0 <= i < |xs| && !xs[i].List? ==> r.items[i].items[0] == Image(xs[i], ops))
      && (forall i, j :: 0 <= i < |xs| && 0 < j < c && !xs[i].List? ==> r.items[i].items[j] == None)
  {
    var bs, c := Encode(List(xs), ops).bytes, |xs[0].items|;
    RoundTrip(List(xs), ops, bs, 0);
    ListHeader(xs, ops, bs, 0);
    MultiLayout(bs, 0);
    var r := Decode(bs, 0).value.0;
    assert r == List(ImageRows(xs, c, ops));
    forall i, j | 0 <= i < |xs| && 0 <= j < c
      ensures r.items[i] == List(RowImage(xs[i], c, ops))
      ensures r.items[i].items[j] == RowImage(xs[i], c, ops)[j]
    {
      ImageRowsAt(xs, c, ops, i);
      RowImageAt(xs[i], c, ops, j);
    }
    forall i, j | 0 <= i < |xs| && 0 <= j < c
      ensures xs[i].List? && j < |xs[i].items| ==> r.items[i].items[j] == Image(xs[i].items[j], ops)
      ensures xs[i].List? && j >= |xs[i].items| ==> r.items[i].items[j] == None
      ensures !xs[i].List? && j == 0 ==> r.items[i].items[j] == Image(xs[i], ops)
      ensures !xs[i].List? && j > 0 ==> r.items[i].items[j] == None
    {
      RowImageAt(xs[i], c, ops, j);
    }
  }

  /** A list of rows with a first row of width 1 reads back as a flat list
      of first cells: a row's first element, None for an empty row, or the
      row itself when it is not a list. */
  lemma ColumnShape(xs: seq<Value>, ops: FloatOps)
    requires |xs| > 0 && xs[0].List? && |xs[0].items| == 1
    requires Encode(List(xs), ops).status == Done && Framed(List(xs))
    ensures Decode(Encode(List(xs), ops).bytes, 0).Ok?
    ensures var r := Decode(Encode(List(xs), ops).bytes, 0).value.0;
      && r.List? && |r.items| == |xs|
      && (forall i :: 0 <= i < |xs| && xs[i].List? && |xs[i].items| > 0 ==> r.items[i] == Image(xs[i].items[0], ops))
      && (forall i :: 0 <= i < |xs| && xs[i].List? && |xs[i].items| == 0 ==> r.items[i] == None)
      && (forall i :: 0 <= i < |xs| && !xs[i].List? ==> r.items[i] == Image(xs[i], ops))
  {
    var bs := Encode(List(xs), ops).bytes;
    RoundTrip(List(xs), ops, bs, 0);
    var r := Decode(bs, 0).value.0;
    assert r == List(ImageRows(xs, 1, ops));
    forall i | 0 <= i < |xs|
      ensures r.items[i] == RowImage(xs[i], 1, ops)[0]
      ensures xs[i].List? && |xs[i].items| > 0 ==> r.items[i] == Image(xs[i].items[0], ops)
      ensures xs[i].List? && |xs[i].items| == 0 ==> r.items[i] == None
      ensures !xs[i].List? ==> r.items[i] == Image(xs[i], ops)
    {
      ImageRowsAt(xs, 1, ops, i);
      RowImageAt(xs[i], 1, ops, 0);
    }
  }

  /** With an empty first row the header says zero columns, so `decode`
      reads an empty list and stops after the header, even though a row that
      is not a list was still written after it. */
  lemma ZeroWidthLeavesRowsUnread(xs: seq<Value>, ops: FloatOps)
    requires |xs| > 0 && xs[0] == List([])
    requires Encode(List(xs), ops).status == Done
    ensures Decode(Encode(List(xs), ops).bytes, 0) == Ok((List([]), 9))
    ensures (exists i :: 0 <= i < |xs| && !xs[i].List?) ==> |Encode(List(xs), ops).bytes| > 9
  {
    var bs := Encode(List(xs), ops).bytes;
    ListHeader(xs, ops, bs, 0);
    MultiLayout(bs, 0);
    if exists i :: 0 <= i < |xs| && !xs[i].List? {
      var i :| 0 <= i < |xs| && !xs[i].List?;
      ZeroWidthRowWrites(xs, ops, i);
    }
  }

  lemma {:induction false} ZeroWidthRowWrites(rows: seq<Value>, ops: FloatOps, i: int)
    requires 0 <= i < |rows| && !rows[i].List?
    ensures |EncodeRows(rows, 0, ops).bytes| > 0 || EncodeRows(rows, 0, ops).status.Raised?
    decreases rows
  {
    if i == 0 {
      EncodeTags(rows[0], ops);
    } else {
      ZeroWidthRowWrites(rows[1..], ops, i - 1);
    }
  }

  /** The smallest instance: `[[], None]` writes ten bytes and `decode`
      reads nine of them. */
  lemma ZeroWidthExample(ops: FloatOps)
    ensures Encode(List([List([]), None]), ops) == Encoding([MULTI, 0, 0, 0, 2, 0, 0, 0, 0, NIL], Done)
    ensures Decode(Encode(List([List([]), None]), ops).bytes, 0) == Ok((List([]), 9))
    ensures !Framed(List([List([]), None]))
  {
    ZeroWidthLeavesRowsUnread([List([]), None], ops);
  }

  // Five one-byte strings for the examples
  const SA: Value := Str([97])
  const SB: Value := Str([98])
  const SC: Value := Str([99])
  const SD: Value := Str([100])
  const SE: Value := Str([101])

  /** A jagged array: rows of width 2, 1 and 3, then a scalar row. */
  const Jagged: Value := List([List([SA, SB]), List([SC]), List([SD, SE, SA]), SB])

  lemma JaggedWrites(ops: FloatOps)
    ensures Encode(Jagged, ops).status == Done
  {
    var xs := Jagged.items;
    assert [SA, SB][1..] == [SB] && [SB][1..] == [] && [SD, SE, SA][1..] == [SE, SA] && [SC][1..] == [];
    assert xs[1..] == [xs[1], xs[2], xs[3]] && xs[1..][1..] == [xs[2], xs[3]] && xs[1..][1..][1..] == [xs[3]];
    assert EncodeFirst([SB], 1, ops).status == Done;
    assert EncodeFirst([SA, SB], 2, ops).status == Done;
    assert EncodeFirst([SC], 1, ops).status == Done;
    assert EncodeFirst([SE, SA], 1, ops).status == Done;
    assert EncodeFirst([SD, SE, SA], 2, ops).status == Done;
    assert EncodeRow(xs[3], 2, ops).status == Done;
    assert EncodeRows([xs[3]], 2, ops).status == Done;
    assert EncodeRows([xs[2], xs[3]], 2, ops).status == Done;
    assert EncodeRows([xs[1], xs[2], xs[3]], 2, ops).status == Done;
    assert EncodeRows(xs, 2, ops).status == Done;
  }

  lemma JaggedFramed()
    ensures Framed(Jagged)
  {
    var xs := Jagged.items;
    assert [SA, SB][1..] == [SB] && [SB][1..] == [] && [SD, SE, SA][1..] == [SE, SA] && [SC][1..] == [];
    assert xs[1..] == [xs[1], xs[2], xs[3]] && xs[1..][1..] == [xs[2], xs[3]] && xs[1..][1..][1..] == [xs[3]];
    assert Framed(SA) && Framed(SB) && Framed(SC) && Framed(SD) && Framed(SE);
    assert FramedFirst([], 0) && FramedFirst([SA], 0);
    assert FramedFirst([SB], 1) && FramedFirst([SC], 1);
    assert FramedFirst([SA, SB], 2);
    assert FramedFirst([SE, SA], 1);
    assert FramedFirst([SD, SE, SA], 2);
    assert FramedRow(xs[0], 2) && FramedRow(xs[1], 2) && FramedRow(xs[2], 2) && FramedRow(xs[3], 2);
    assert FramedRows([], 2);
    assert FramedRows([xs[3]], 2);
    assert FramedRows([xs[2], xs[3]], 2);
    assert FramedRows([xs[1], xs[2], xs[3]], 2);
    assert FramedRows(xs, 2);
  }

  lemma JaggedImage(ops: FloatOps)
    ensures Image(Jagged, ops) == List([List([SA, SB]), List([SC, None]), List([SD, SE]), List([SB, None])])
  {
    var xs := Jagged.items;
    assert [SA, SB][1..] == [SB] && [SB][1..] == [] && [SD, SE, SA][1..] == [SE, SA] && [SC][1..] == [];
    assert xs[1..] == [xs[1], xs[2], xs[3]] && xs[1..][1..] == [xs[2], xs[3]] && xs[1..][1..][1..] == [xs[3]];
    assert Nones(1) == [None];
    assert ImageFirst([SB], 1, ops) == [SB] && ImageFirst([SA, SB], 2, ops) == [SA, SB] && ImageFirst([SC], 1, ops) == [SC];
    assert ImageFirst([SE, SA], 1, ops) == [SE] && ImageFirst([SD, SE, SA], 2, ops) == [SD, SE];
    assert RowImage(xs[0], 2, ops) == [SA, SB] && RowImage(xs[1], 2, ops) == [SC, None];
    assert RowImage(xs[2], 2, ops) == [SD, SE] && RowImage(xs[3], 2, ops) == [SB, None];
    assert ImageRows([xs[3]], 2, ops) == [List([SB, None])];
    assert ImageRows([xs[2], xs[3]], 2, ops) == [List([SD, SE]), List([SB, None])];
    assert ImageRows([xs[1], xs[2], xs[3]], 2, ops) == [List([SC, None]), List([SD, SE]), List([SB, None])];
  }

  /** The jagged array reads back two cells wide: the short row padded
      with None, the long row cut, the scalar row followed by None. */
  lemma JaggedExample(ops: FloatOps)
    ensures Decode(Encode(Jagged, ops).bytes, 0) ==
            Ok((List([List([SA, SB]), List([SC, None]), List([SD, SE]), List([SB, None])]), |Encode(Jagged, ops).bytes|))
  {
    JaggedWrites(ops);
    JaggedFramed();
    JaggedImage(ops);
    RoundTrip(Jagged, ops, Encode(Jagged, ops).bytes, 0);
  }
}
