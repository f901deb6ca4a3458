/** What `XLCodec.decode` promises about framing: a value is read from
    exactly the bytes it was counted as consuming, each tag consumes the
    payload the wire format gives it, and a MULTI block is its header
    followed by rows x cols values.
 */
module DecodeProps {
  import opened XLoper
  import opened Wire
  import opened Codec

  /** `a` and `b` hold the same bytes on the positions from `lo` up to `hi`. */
  predicate Agree(a: seq<byte>, b: seq<byte>, lo: nat, hi: nat)
  {
    hi <= |a| && hi <= |b| && forall k :: lo <= k < hi ==> a[k] == b[k]
  }

  lemma DecodeIntLocal(a: seq<byte>, b: seq<byte>, at: nat)
    requires Agree(a, b, at, at + 4)
    ensures DecodeInt(b, at) == DecodeInt(a, at)
  {
    assert a[at] == b[at] && a[at + 1] == b[at + 1] && a[at + 2] == b[at + 2] && a[at + 3] == b[at + 3];
  }

  /** Decoding looks at nothing beyond the bytes it consumes: any input
      that holds those same bytes at the same position decodes to the same
      value and the same next position, whatever surrounds them. */
  lemma {:induction false} DecodeLocal(a: seq<byte>, b: seq<byte>, at: nat)
    requires at <= |a| && Decode(a, at).Ok? && Agree(a, b, at, Decode(a, at).value.1)
    ensures Decode(b, at) == Decode(a, at)
    decreases |a| - at, 1, 0
  {
    assert a[at] == b[at];
    if a[at] == MULTI {
      DecodeMultiLocal(a, b, at + 1);
    } else {
      DecodeScalarLocal(a[at], a, b, at + 1);
    }
  }

  lemma DecodeScalarLocal(tag: byte, a: seq<byte>, b: seq<byte>, at: nat)
    requires at <= |a| && DecodeScalar(tag, a, at).Ok? && Agree(a, b, at, DecodeScalar(tag, a, at).value.1)
    ensures DecodeScalar(tag, b, at) == DecodeScalar(tag, a, at)
  {
    if tag == NUM {
      assert a[at..at + 8] == b[at..at + 8];
    } else if tag == STR {
      assert a[at] == b[at];
      var len := a[at] as int;
      assert a[at + 1..at + 1 + len] == b[at + 1..at + 1 + len];
    } else if tag == BOOL {
      assert a[at] == b[at];
    } else if tag == ERR || tag == INT {
      DecodeIntLocal(a, b, at);
    } else if tag == SREF {
      DecodeIntLocal(a, b, at);
      DecodeIntLocal(a, b, at + 4);
      DecodeIntLocal(a, b, at + 8);
      DecodeIntLocal(a, b, at + 12);
    }
  }

  lemma {:induction false} DecodeMultiLocal(a: seq<byte>, b: seq<byte>, at: nat)
    requires at <= |a| && DecodeMulti(a, at).Ok? && Agree(a, b, at, DecodeMulti(a, at).value.1)
    ensures DecodeMulti(b, at) == DecodeMulti(a, at)
    decreases |a| - at, 0, 0
  {
    DecodeIntLocal(a, b, at);
    DecodeIntLocal(a, b, at + 4);
    DecodeCellsLocal(a, b, at + 8, DecodeInt(a, at).value, DecodeInt(a, at + 4).value);
  }

  lemma {:induction false} DecodeCellsLocal(a: seq<byte>, b: seq<byte>, at: nat, rows: nat, cols: nat)
    requires at <= |a| && DecodeCells(a, at, rows, cols).Ok? && Agree(a, b, at, DecodeCells(a, at, rows, cols).value.1)
    ensures DecodeCells(b, at, rows, cols) == DecodeCells(a, at, rows, cols)
    decreases |a| - at, 4, 0
  {
    if rows == 0 || cols == 0 {
    } else if cols == 1 {
      DecodeManyLocal(a, b, at, rows);
    } else {
      DecodeRowsLocal(a, b, at, rows, cols);
    }
  }

  lemma {:induction false} DecodeManyLocal(a: seq<byte>, b: seq<byte>, at: nat, k: nat)
    requires at <= |a| && DecodeMany(a, at, k).Ok? && Agree(a, b, at, DecodeMany(a, at, k).value.1)
    ensures DecodeMany(b, at, k) == DecodeMany(a, at, k)
    decreases |a| - at, 2, k
  {
    if k > 0 {
      DecodeLocal(a, b, at);
      DecodeManyLocal(a, b, Decode(a, at).value.1, k - 1);
    }
  }

  lemma {:induction false} DecodeRowsLocal(a: seq<byte>, b: seq<byte>, at: nat, rows: nat, cols: nat)
    requires at <= |a| && DecodeRows(a, at, rows, cols).Ok? && Agree(a, b, at, DecodeRows(a, at, rows, cols).value.1)
    ensures DecodeRows(b, at, rows, cols) == DecodeRows(a, at, rows, cols)
    decreases |a| - at, 3, rows
  {
    if rows > 0 {
      DecodeManyLocal(a, b, at, cols);
      DecodeRowsLocal(a, b, DecodeMany(a, at, cols).value.1, rows - 1, cols);
    }
  }

  /** Appending bytes after a value that decodes does not change how it
      decodes: the stream stays framed for the next read. */
  lemma DecodeIgnoresRest(bs: seq<byte>, rest: seq<byte>, at: nat)
    requires at <= |bs| && Decode(bs, at).Ok?
    ensures Decode(bs + rest, at) == Decode(bs, at)
  {
    DecodeLocal(bs, bs + rest, at);
  }

  /** The tags `decode` accepts; any other tag raises. */
  const Tags: set<byte> := {NUM, STR, BOOL, ERR, MULTI, MISSING, NIL, INT, SREF}

  /** Reading at the end of the stream, a tag outside the table, or a
      payload the stream is too short for, raises. */
  lemma DecodeRejects(bs: seq<byte>, at: nat)
    requires at <= |bs|
    ensures at == |bs| ==> Decode(bs, at) == Fail(EndOfStream)
    ensures at < |bs| && bs[at] !in Tags ==> Decode(bs, at) == Fail(UnknownTag(bs[at]))
    ensures at < |bs| && bs[at] == NUM && |bs| < at + 9 ==> Decode(bs, at) == Fail(EndOfStream)
    ensures at < |bs| && (bs[at] == ERR || bs[at] == INT) && |bs| < at + 5 ==> Decode(bs, at) == Fail(EndOfStream)
    ensures at < |bs| && bs[at] == SREF && |bs| < at + 17 ==> Decode(bs, at) == Fail(EndOfStream)
    ensures at < |bs| && bs[at] == MULTI && |bs| < at + 9 ==> Decode(bs, at) == Fail(EndOfStream)
    ensures at + 1 == |bs| && (bs[at] == BOOL || bs[at] == STR) ==> Decode(bs, at) == Fail(EndOfStream)
    ensures at + 1 < |bs| && bs[at] == STR && |bs| < at + 2 + bs[at + 1] as int ==> Decode(bs, at) == Fail(EndOfStream)
  {
  }

  /** Each tag consumes exactly its payload: 8 bytes for NUM, 1 + L for STR,
      1 for BOOL, 4 for ERR and INT, 16 for SREF, none for MISSING and NIL;
      MISSING and NIL both give None. */
  lemma DecodeConsumes(bs: seq<byte>, at: nat)
    requires at <= |bs| && Decode(bs, at).Ok?
    ensures bs[at] in Tags
    ensures var v, next := Decode(bs, at).value.0, Decode(bs, at).value.1;
      && (bs[at] == NUM ==> next == at + 9 && v == Float(bs[at + 1..at + 9]))
      && (bs[at] == STR ==> next == at + 2 + bs[at + 1] as int && v == Str(bs[at + 2..next]))
      && (bs[at] == BOOL ==> next == at + 2 && v == Bool(bs[at + 1] != 0))
      && (bs[at] == ERR ==> next == at + 5 && v == Error(DecodeInt(bs, at + 1).value))
      && (bs[at] == INT ==> next == at + 5 && v == Int(DecodeInt(bs, at + 1).value))
      && (bs[at] == SREF ==>
            && next == at + 17
            && v == SRef(DecodeInt(bs, at + 1).value, DecodeInt(bs, at + 5).value,
                         DecodeInt(bs, at + 9).value, DecodeInt(bs, at + 13).value))
      && (bs[at] == MISSING || bs[at] == NIL ==> next == at + 1 && v == None)
      && (bs[at] == MULTI ==> next >= at + 9 && v.List?)
  {
  }

  /** The rows of a two-dimensional block, one after another. */
  function Flatten(rows: seq<Value>): (r: seq<Value>)
  {
    if |rows| == 0 then []
    else (if rows[0].List? then rows[0].items else [rows[0]]) + Flatten(rows[1..])
  }

  lemma ExtendAssoc(xs: seq<Value>, ys: seq<Value>, r: Result<(seq<Value>, nat)>)
    ensures Extend(xs, Extend(ys, r)) == Extend(xs + ys, r)
  {
    if r.Ok? {
      assert xs + (ys + r.value.0) == (xs + ys) + r.value.0;
    }
  }

  lemma ExtendNothing(r: Result<(seq<Value>, nat)>)
    ensures Extend([], r) == r
  {
    if r.Ok? {
      assert [] + r.value.0 == r.value.0;
    }
  }

  /** Reading `a + b` values is reading `a` values and then `b` more from
      where they end. */
  lemma {:induction false} ManyAppend(bs: seq<byte>, at: nat, a: nat, b: nat)
    requires at <= |bs| && DecodeMany(bs, at, a).Ok?
    ensures DecodeMany(bs, at, a + b) ==
            Extend(DecodeMany(bs, at, a).value.0, DecodeMany(bs, DecodeMany(bs, at, a).value.1, b))
    decreases a
  {
    if a == 0 {
      ExtendNothing(DecodeMany(bs, at, b));
    } else {
      var h := Decode(bs, at).value;
      ManyAppend(bs, h.1, a - 1, b);
      ExtendAssoc([h.0], DecodeMany(bs, h.1, a - 1).value.0, DecodeMany(bs, DecodeMany(bs, at, a).value.1, b));
    }
  }

  /** When the first `a` values cannot be read, neither can `a + b`. */
  lemma {:induction false} ManyAppendFails(bs: seq<byte>, at: nat, a: nat, b: nat)
    requires at <= |bs| && DecodeMany(bs, at, a).Fail?
    ensures DecodeMany(bs, at, a + b) == DecodeMany(bs, at, a)
    decreases a
  {
    if Decode(bs, at).Ok? {
      ManyAppendFails(bs, Decode(bs, at).value.1, a - 1, b);
    }
  }

  /** `rows * cols`, counted row by row. */
  function Area(rows: nat, cols: nat): (a: nat)
  {
    if rows == 0 then 0 else cols + Area(rows - 1, cols)
  }

  lemma {:induction false} AreaIsProduct(rows: nat, cols: nat)
    ensures Area(rows, cols) == rows * cols
  {
    if rows > 0 {
      AreaIsProduct(rows - 1, cols);
      assert rows * cols == cols + (rows - 1) * cols;
    }
  }

  /** A block of `rows` rows of `cols` values reads exactly the same bytes
      as `rows * cols` single values ... */
  lemma {:induction false} RowsAreMany(bs: seq<byte>, at: nat, rows: nat, cols: nat)
    requires at <= |bs| && DecodeRows(bs, at, rows, cols).Ok?
    ensures DecodeMany(bs, at, Area(rows, cols)).Ok?
    ensures DecodeMany(bs, at, Area(rows, cols)).value ==
            (Flatten(DecodeRows(bs, at, rows, cols).value.0), DecodeRows(bs, at, rows, cols).value.1)
    decreases rows
  {
    if rows > 0 {
      var h := DecodeMany(bs, at, cols).value;
      RowsAreMany(bs, h.1, rows - 1, cols);
      ManyAppend(bs, at, cols, Area(rows - 1, cols));
      var rs := DecodeRows(bs, at, rows, cols).value.0;
      assert rs[1..] == DecodeRows(bs, h.1, rows - 1, cols).value.0;
    }
  }

  /** ... and fails exactly when they do. */
  lemma {:induction false} RowsFailAsMany(bs: seq<byte>, at: nat, rows: nat, cols: nat)
    requires at <= |bs| && DecodeRows(bs, at, rows, cols).Fail?
    ensures DecodeMany(bs, at, Area(rows, cols)).Fail?
    decreases rows
  {
    if DecodeMany(bs, at, cols).Ok? {
      RowsFailAsMany(bs, DecodeMany(bs, at, cols).value.1, rows - 1, cols);
      ManyAppend(bs, at, cols, Area(rows - 1, cols));
    } else {
      ManyAppendFails(bs, at, cols, Area(rows - 1, cols));
    }
  }

  /** A MULTI block is the tag, two four-byte counts, and then nothing when
      either count is zero, `rows` bare values when there is one column, or
      `rows` lists of `cols` values (rows x cols values in all) otherwise;
      a failure inside the block is the failure of the whole value. */
  lemma MultiLayout(bs: seq<byte>, at: nat)
    requires at + 9 <= |bs| && bs[at] == MULTI
    ensures var rows, cols := DecodeInt(bs, at + 1).value, DecodeInt(bs, at + 5).value;
            var cells := DecodeCells(bs, at + 9, rows, cols);
      && (cells.Fail? ==> Decode(bs, at) == Fail(cells.fault))
      && (cells.Ok? ==> Decode(bs, at) == Ok((List(cells.value.0), cells.value.1)))
      && (rows == 0 || cols == 0 ==> cells == Ok(([], at + 9)))
      && (rows > 0 && cols == 1 ==> cells == DecodeMany(bs, at + 9, rows))
      && (rows > 0 && cols > 1 && cells.Ok? ==>
            && |cells.value.0| == rows
            && (forall i :: 0 <= i < rows ==> cells.value.0[i].List? && |cells.value.0[i].items| == cols)
            && DecodeMany(bs, at + 9, rows * cols) == Ok((Flatten(cells.value.0), cells.value.1)))
      && (rows > 0 && cols > 1 && cells.Fail? ==> DecodeMany(bs, at + 9, rows * cols).Fail?)
  {
    var rows, cols := DecodeInt(bs, at + 1).value, DecodeInt(bs, at + 5).value;
    if rows > 0 && cols > 1 {
      AreaIsProduct(rows, cols);
      if DecodeRows(bs, at + 9, rows, cols).Ok? {
        RowsAreMany(bs, at + 9, rows, cols);
      } else {
        RowsFailAsMany(bs, at + 9, rows, cols);
      }
    }
  }

  /* ------------------------------------------- one more value, one more row */

  /** `j` values, then one more read where they end, are `j + 1` values. */
  lemma ManySnoc(bs: seq<byte>, at: nat, j: nat)
    requires at <= |bs| && DecodeMany(bs, at, j).Ok?
    requires Decode(bs, DecodeMany(bs, at, j).value.1).Ok?
    ensures var p := DecodeMany(bs, at, j).value.1;
            DecodeMany(bs, at, j + 1) ==
            Ok((DecodeMany(bs, at, j).value.0 + [Decode(bs, p).value.0], Decode(bs, p).value.1))
  {
    var p := DecodeMany(bs, at, j).value.1;
    ManyAppend(bs, at, j, 1);
    var h := Decode(bs, p).value;
    assert DecodeMany(bs, h.1, 0) == Ok(([], h.1));
    assert [h.0] + [] == [h.0];
    assert DecodeMany(bs, p, 1) == Ok(([Decode(bs, p).value.0], Decode(bs, p).value.1));
  }

  /** When the value after the first `j` cannot be read, no longer run can. */
  lemma ManyFailsAt(bs: seq<byte>, at: nat, j: nat, k: nat)
    requires at <= |bs| && j < k && DecodeMany(bs, at, j).Ok?
    requires Decode(bs, DecodeMany(bs, at, j).value.1).Fail?
    ensures DecodeMany(bs, at, k) == Fail(Decode(bs, DecodeMany(bs, at, j).value.1).fault)
  {
    ManyAppend(bs, at, j, k - j);
  }

  /** `i` rows, then one more row of `cols` values, are `i + 1` rows. */
  lemma {:induction false} RowsSnoc(bs: seq<byte>, at: nat, i: nat, cols: nat)
    requires at <= |bs| && DecodeRows(bs, at, i, cols).Ok?
    requires DecodeMany(bs, DecodeRows(bs, at, i, cols).value.1, cols).Ok?
    ensures var m := DecodeMany(bs, DecodeRows(bs, at, i, cols).value.1, cols).value;
            DecodeRows(bs, at, i + 1, cols) == Ok((DecodeRows(bs, at, i, cols).value.0 + [List(m.0)], m.1))
    decreases i
  {
    if i == 0 {
      var m := DecodeMany(bs, at, cols).value;
      assert DecodeRows(bs, m.1, 0, cols) == Ok(([], m.1));
      assert [] + [List(m.0)] == [List(m.0)] == [List(m.0)] + [];
    } else {
      var h := DecodeMany(bs, at, cols).value;
      RowsSnoc(bs, h.1, i - 1, cols);
      var t := DecodeRows(bs, h.1, i - 1, cols).value.0;
      var m := DecodeMany(bs, DecodeRows(bs, at, i, cols).value.1, cols).value;
      assert [List(h.0)] + (t + [List(m.0)]) == ([List(h.0)] + t) + [List(m.0)];
    }
  }

  /** When the row after the first `i` cannot be read, no longer block can. */
  lemma {:induction false} RowsFailAt(bs: seq<byte>, at: nat, i: nat, k: nat, cols: nat)
    requires at <= |bs| && i < k && DecodeRows(bs, at, i, cols).Ok?
    requires DecodeMany(bs, DecodeRows(bs, at, i, cols).value.1, cols).Fail?
    ensures DecodeRows(bs, at, k, cols) == Fail(DecodeMany(bs, DecodeRows(bs, at, i, cols).value.1, cols).fault)
    decreases i
  {
    if i > 0 {
      RowsFailAt(bs, DecodeMany(bs, at, cols).value.1, i - 1, k - 1, cols);
    }
  }
}
