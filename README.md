# XLLoop server core in Dafny

XLLoop lets a spreadsheet call functions that a server implements. This project models the Python 2 server in `xlloop/src/xlloop.py`:

- **The XLoper value codec (`XLCodec`).**
  - `decode` reads one tagged value from the socket.
  - `decodeInt` reads a four-byte big-endian count.
  - `encode` writes a host value, applying the MULTI policy for lists.
- **The per-connection loop `XLLoopHandler.handle`.** It reads an optional
  protocol version, an optional function context, the function name, the
  argument count and the arguments. It passes them to the server's
  `invoke`, writes back the encoded result, and stops at the first
  exception.

The modules follow the program:

| module | what it holds |
|---|---|
| `XLoper` | the wire tags, the error codes, the host values, `FunctionContext`, and the faults that end a connection. |
| `Wire` | `decodeInt` and `struct.pack('>i', ...)`. |
| `Codec` | `decode` and `encode` as pure functions over the byte stream. `Decode(bs, at)` reads from a position and returns where the next value starts. `Encode(v)` returns the bytes sent and whether `encode` returned or raised. Bytes sent before an exception stay sent. |
| `DecodeProps` | framing: what each tag consumes, locality, and the layout of a MULTI block. |
| `CodecProps` | the round trip: decoding what `encode` wrote gives the wire image `Image(v)` of the value. |
| `CodecFacts` | that round trip stated end to end for each kind of value, plus worked MULTI examples. |
| `Sockets` | the client socket as a class: the bytes the peer sends (`input`), how many have been read (`pos`), and everything sent (`output`). |
| `XLCodec` | `decode`, `decodeInt` and `encode` as methods on the socket, with the source's loops. Each method is proved to read or write exactly what the `Codec` functions say. |
| `Session` | `handle`: the parsing of one call (`CallHead`, `ReadArgs`, `ParseCall`), the whole loop as a function (`Serve`), and the `XLLoopHandler` class. Its `Handle` method runs the loop and is proved to behave as `Serve`. |
| `SessionProps` | the version gate, when a context is read, the argument count, the shape of the whole transcript, and one complete exchange byte by byte. |

How the host surroundings are modelled:

- **The peer's bytes** are a sequence that is fixed in advance.
- **`recv(n)`** reads exactly `n` bytes, or raises when fewer remain.
- **`invoke`** is a function parameter: `Invoker` takes the context, the name and the arguments, and returns a value or raises.
- **The two float conversions** are parameters of `FloatOps`:
  - `float(n)` for an int, at line 103;
  - the conversion `xrange` applies to a float count, at line 173.

What the code does on the wire, which the model follows:

- **Python ints are sent as NUM, never as INT.** Ints, and bools (which are ints in Python 2), go out as NUM through `float()`. INT is only ever read.
- **Tuples raise.** A value that reaches line 135 (a tuple) raises `NameError` there, because `isintance` is misspelt. So the tuple branch and the `str(value)` fallback at line 146 never run.
- **MISSING and NIL both read as `None`,** and `None` is sent as NIL.
- **The column count of a two-dimensional array is the width of its first row.** Shorter rows are padded with NIL and longer rows are cut.
- **ERR and every four-byte count are read unsigned** by `decodeInt`. A negative error code written by `encode` reads back shifted up by 2^32.
- **A MULTI block with one column reads as a flat list.**
- **The argument count follows `xrange(0, argc)`.** A negative int reads no arguments, a float is converted first, and any other value raises.

## Model

| member | source | states |
|---|---|---|
| XLoper.IsIntLike | xlloop/src/xlloop.py:160 | Every int and every bool passes `isinstance(v, types.IntType)` (bool is a subclass of int), and nothing else does. |
| XLoper.DoubleIsZero | xlloop/src/xlloop.py:164 | A double counts as zero exactly when it is +0.0 or -0.0. |
| XLoper.Truthy | xlloop/src/xlloop.py:164 | An int or bool is true exactly when it is non-zero. The false values are exactly None, False, 0, ±0.0 and the empty string, list and tuple; XLError and XLSRef are always true. |
| XLoper.IntOf | xlloop/src/xlloop.py:160-161 | An int counts as itself and a bool as 1 or 0, as `isinstance(name, types.IntType)` sees them. |
| Wire.DecodeInt | xlloop/src/xlloop.py:77-79 | Succeeds exactly when four bytes remain, giving a value in [0, 2^32); otherwise it fails with end of stream. |
| Wire.PackInt | xlloop/src/xlloop.py:94 | Succeeds exactly for signed 32-bit values, always with four bytes; otherwise struct.error. |
| Wire.UnpackPack | xlloop/src/xlloop.py:77-79 | Reading back packed bytes gives the value when it is non-negative, and the value plus 2^32 when it is negative. |
| Wire.PackUnpack | xlloop/src/xlloop.py:77-79 | Any four bytes read by `decodeInt` are exactly the packing of the signed reading of the result. |
| Codec.Decode | xlloop/src/xlloop.py:35-74 | A successful read consumes at least the tag and ends inside the stream. |
| Codec.DecodeScalar | xlloop/src/xlloop.py:37-72 | The payload of a non-MULTI tag ends inside the stream. |
| Codec.DecodeMulti | xlloop/src/xlloop.py:49-64 | A MULTI payload reads two counts and gives a list. |
| Codec.DecodeCells | xlloop/src/xlloop.py:52-64 | The cells of a block are read from within the stream. |
| Codec.DecodeMany | xlloop/src/xlloop.py:62-63 | `k` successive decodes give exactly `k` values. |
| Codec.DecodeRows | xlloop/src/xlloop.py:55-60 | `rows` rows, each a list of exactly `cols` values. |
| Codec.Packed | xlloop/src/xlloop.py:94 | `send(struct.pack('>i', x))` sends four bytes exactly when x is a signed 32-bit value, and `decodeInt` reads them back as x's unsigned value. Otherwise it sends nothing and raises struct.error. |
| Codec.Nils | xlloop/src/xlloop.py:122-123 | The padding is `max(0, n)` bytes, each NIL, and it never raises. |
| Codec.Encode | xlloop/src/xlloop.py:82-145 | A tuple, and only a tuple, sends nothing and raises NameError. Anything sent starts with the tag of the value's host type. |
| DecodeProps.DecodeLocal | xlloop/src/xlloop.py:35-74 | Decoding depends only on the bytes it consumes. |
| DecodeProps.DecodeIntLocal | xlloop/src/xlloop.py:77-79 | `decodeInt` depends only on its four bytes. |
| DecodeProps.DecodeScalarLocal | xlloop/src/xlloop.py:37-72 | Each scalar payload depends only on its own bytes. |
| DecodeProps.DecodeMultiLocal | xlloop/src/xlloop.py:49-64 | A MULTI payload depends only on its own bytes. |
| DecodeProps.DecodeCellsLocal | xlloop/src/xlloop.py:52-64 | The cells depend only on their own bytes. |
| DecodeProps.DecodeManyLocal | xlloop/src/xlloop.py:62-63 | A run of values depends only on its own bytes. |
| DecodeProps.DecodeRowsLocal | xlloop/src/xlloop.py:55-60 | Rows depend only on their own bytes. |
| DecodeProps.DecodeIgnoresRest | xlloop/src/xlloop.py:35-74 | Bytes appended after a value do not change how it decodes. |
| DecodeProps.DecodeRejects | xlloop/src/xlloop.py:36-74 | These raise: the end of the stream, an unknown tag (TypeError), and each tag whose payload is cut short. That includes BOOL with no byte after it and STR with no length byte. |
| DecodeProps.DecodeConsumes | xlloop/src/xlloop.py:36-72 | Each tag consumes its exact payload (NUM 8, STR 1+L, BOOL 1, ERR/INT 4, SREF 16, MISSING/NIL 0) and gives the value built from it. |
| DecodeProps.ManyAppend | xlloop/src/xlloop.py:62-63 | Reading a+b values is reading a values, then b more. |
| DecodeProps.ManyAppendFails | xlloop/src/xlloop.py:62-63 | If the first a values fail, then a+b values fail the same way. |
| DecodeProps.RowsAreMany | xlloop/src/xlloop.py:55-60 | A block of rows reads the same bytes as rows×cols single values, and its flattening is those values. |
| DecodeProps.RowsFailAsMany | xlloop/src/xlloop.py:55-60 | When a block of rows fails, reading rows×cols single values fails too. |
| DecodeProps.MultiLayout | xlloop/src/xlloop.py:49-64 | A MULTI value is the header plus one of: nothing when a count is zero, `rows` bare values for one column, or `rows` lists of `cols` values. A failure inside the block is the failure of the whole value. |
| DecodeProps.ManySnoc | xlloop/src/xlloop.py:62-63 | One more read appends one more value. |
| DecodeProps.ManyFailsAt | xlloop/src/xlloop.py:62-63 | The first read that fails is the fault of the whole run. |
| DecodeProps.RowsSnoc | xlloop/src/xlloop.py:56-60 | One more row appends a fresh list of `cols` values. |
| DecodeProps.RowsFailAt | xlloop/src/xlloop.py:56-60 | The first row that fails is the fault of the whole block. |
| CodecProps.Nones | xlloop/src/xlloop.py:65-68 | `n` copies of None, nothing when `n <= 0`. |
| CodecProps.ImageFirst | xlloop/src/xlloop.py:120-121 | The first `min(k, |xs|)` images. |
| CodecProps.RowImage | xlloop/src/xlloop.py:116-130 | A row of a block reads back as exactly `cols` cells. |
| CodecProps.ImageRows | xlloop/src/xlloop.py:115-130 | One image per row. |
| CodecProps.NilRunRead | xlloop/src/xlloop.py:65-68 | A run of `m` NIL tags reads as `m` None values. |
| CodecProps.NilsRead | xlloop/src/xlloop.py:122-123 | Any NIL padding reads as None values. |
| CodecProps.StrRead | xlloop/src/xlloop.py:39-41 | `[STR, L] + s` reads as `Str(s)`. |
| CodecProps.NumRead | xlloop/src/xlloop.py:37-38 | `[NUM] + d` reads as `Float(d)`. |
| CodecProps.ErrorRead | xlloop/src/xlloop.py:47-48 | A packed error code reads back as its unsigned value. |
| CodecProps.SRefRead | xlloop/src/xlloop.py:71-72 | Four packed fields read back as their unsigned values, in order. |
| CodecProps.RowsAtZeroWidth | xlloop/src/xlloop.py:115-126 | At width 0, rows that are lists write nothing. |
| CodecProps.RoundTrip | xlloop/src/xlloop.py:35-146 | Decoding the bytes `encode` wrote gives `Image(v)` and ends right after them, anywhere in the stream. |
| CodecProps.ListHeader | xlloop/src/xlloop.py:104-114 | A list sends MULTI (through `EncodeList`), then its length, then the first row's width (or 1, or 0). Both counts read back unchanged. |
| CodecProps.ListRoundTrip | xlloop/src/xlloop.py:104-134 | A list reads back as its image. |
| CodecProps.EmptyBlockRoundTrip | xlloop/src/xlloop.py:108-109 | An empty list, or an empty first row, reads back as the empty list. |
| CodecProps.VectorRoundTrip | xlloop/src/xlloop.py:131-134 | A list whose first element is not a list reads back as one column. |
| CodecProps.ColumnBlockRoundTrip | xlloop/src/xlloop.py:111-130 | Rows one cell wide read back as bare first cells. |
| CodecProps.BlockRoundTrip | xlloop/src/xlloop.py:111-130 | Rows at least two cells wide read back as lists of `cols` cells. |
| CodecProps.MultiRead | xlloop/src/xlloop.py:49-64 | A MULTI header followed by readable cells is the list of those cells. |
| CodecProps.FirstRoundTrip | xlloop/src/xlloop.py:120-121 | The first `k` elements, as `EncodeFirst` sends them, read back as their images. |
| CodecProps.RowRoundTrip | xlloop/src/xlloop.py:116-130 | Each row, as `EncodeRow` sends it, reads back as exactly `cols` cells. |
| CodecProps.ShortRowRoundTrip | xlloop/src/xlloop.py:119-123 | A short row reads back as `RowImage`: the images `Image(x)` of its elements (not the elements themselves), padded with None. |
| CodecProps.ScalarRowRoundTrip | xlloop/src/xlloop.py:127-130 | A row that is not a list reads back as its image `Image(row)` (an int becomes a Float, for example), then None. |
| CodecProps.ColumnRoundTrip | xlloop/src/xlloop.py:115-130 | At width 1 each row reads back as one bare cell. |
| CodecProps.RowsRoundTrip | xlloop/src/xlloop.py:115-130 | At width ≥ 2, the rows that `EncodeRows` sends read back as a block of lists. |
| CodecFacts.StrRoundTrip | xlloop/src/xlloop.py:83-86 | A string of ≤255 bytes reads back unchanged after 2+L bytes. A longer string sends the tag and then raises struct.error. |
| CodecFacts.ErrorRoundTrip | xlloop/src/xlloop.py:92-94 | A code in [0, 2^31) reads back unchanged; a negative 32-bit code reads back plus 2^32; any other code sends the tag and raises. |
| CodecFacts.ErrorCodesRoundTrip | xlloop/src/xlloop.py:15-21 | Each of the seven error codes is sent as `[ERR, 0, 0, 0, e]` and reads back unchanged. |
| CodecFacts.SRefRoundTrip | xlloop/src/xlloop.py:95-100 | A reference with fields in [0, 2^31) is 17 bytes and reads back unchanged. |
| CodecFacts.IntegersAsDoubles | xlloop/src/xlloop.py:101-103 | An int or bool is sent as NUM with `float(n)`'s bytes and reads back as that float. |
| CodecFacts.MissingBecomesNil | xlloop/src/xlloop.py:65-68 | MISSING and NIL read as None, and None is sent back as NIL. |
| CodecFacts.EncodeTags | xlloop/src/xlloop.py:82-135 | The first byte `encode` sends for a value is STR, NUM, NIL, ERR, SREF or MULTI, never BOOL, INT or MISSING. It sends nothing only for a tuple. |
| CodecFacts.ImageIsWireValue | xlloop/src/xlloop.py:82-134 | No bool, int or tuple appears at any depth in what reads back. |
| CodecFacts.FirstAreWireValues | xlloop/src/xlloop.py:131-134 | The same, for each element of a column. |
| CodecFacts.RowIsWireValues | xlloop/src/xlloop.py:116-130 | The same, for each cell of a row. |
| CodecFacts.RowsAreWireValues | xlloop/src/xlloop.py:115-130 | The same, for each row. |
| CodecFacts.TupleRaises | xlloop/src/xlloop.py:135 | A tuple raises NameError before anything is sent. |
| CodecFacts.ImageFirstAt | xlloop/src/xlloop.py:133-134 | The i-th element of a column reads back as the image of the i-th element. |
| CodecFacts.ImageRowsAt | xlloop/src/xlloop.py:115-130 | Row i reads back as its cells: bare at width 1, as a list otherwise. |
| CodecFacts.RowImageAt | xlloop/src/xlloop.py:116-130 | Cell j is one of: the image of the row's element j; None past the row's end; the image of the scalar row at j = 0; None after it. |
| CodecFacts.EmptyListRoundTrip | xlloop/src/xlloop.py:105-109 | `[]` is MULTI with two zero counts and reads back as `[]`. |
| CodecFacts.VectorShape | xlloop/src/xlloop.py:131-134 | Column count 1, and a flat list of the same length that matches element by element. |
| CodecFacts.BlockShape | xlloop/src/xlloop.py:111-130 | With first-row width C ≥ 2, the list reads back as one list of exactly C cells per row. Short rows are padded with None, long rows cut, and scalar rows followed by None. Exactly rows×C values follow the header. |
| CodecFacts.ColumnShape | xlloop/src/xlloop.py:111-130 | With first-row width 1, each row reads as the image of its first element, or None if it is empty, or its own image if it is not a list. |
| CodecFacts.ZeroWidthLeavesRowsUnread | xlloop/src/xlloop.py:52-53 | With an empty first row, `decode` reads `[]` after 9 bytes, although a scalar row has sent more bytes. |
| CodecFacts.ZeroWidthRowWrites | xlloop/src/xlloop.py:127-128 | At width 0, a row that is not a list still sends bytes, or raises. |
| CodecFacts.ZeroWidthExample | xlloop/src/xlloop.py:108-130 | `[[], None]` sends ten bytes and `decode` reads nine of them. |
| CodecFacts.JaggedWrites | xlloop/src/xlloop.py:111-130 | The jagged example encodes without raising. |
| CodecFacts.JaggedFramed | xlloop/src/xlloop.py:111-130 | The jagged example reads back from exactly its own bytes. |
| CodecFacts.JaggedImage | xlloop/src/xlloop.py:111-130 | The jagged example's expected reading has width two, with padding, cutting and a scalar row. |
| CodecFacts.JaggedExample | xlloop/src/xlloop.py:111-130 | The jagged example, encoded and then decoded, gives that reading. |
| Sockets.Connection.constructor | xlloop/src/xlloop.py:154-155 | A new connection has read and sent nothing. |
| Sockets.Connection.Recv | xlloop/src/xlloop.py:36 | `recv(n)` returns the next `n` bytes, or raises once fewer remain. It never sends. |
| Sockets.Connection.Send | xlloop/src/xlloop.py:84-86 | `send` appends its bytes to the output and reads nothing. |
| XLCodec.RecvByte | xlloop/src/xlloop.py:36 | `ord(recv(1))`: the next byte, or end of stream. |
| XLCodec.DecodeInt | xlloop/src/xlloop.py:77-79 | Returns `Wire.DecodeInt` at the current position and consumes four bytes. |
| XLCodec.Decode | xlloop/src/xlloop.py:35-74 | Returns exactly the value or fault of `Codec.Decode` and stops where it says. |
| XLCodec.DecodeScalar | xlloop/src/xlloop.py:37-72 | The same, for every tag but MULTI. |
| XLCodec.DecodeArray | xlloop/src/xlloop.py:49-64 | The same, for a MULTI block. |
| XLCodec.DecodeValues | xlloop/src/xlloop.py:62-63 | The loop returns exactly `DecodeMany`'s values or fault. |
| XLCodec.DecodeRows | xlloop/src/xlloop.py:55-60 | The nested loops return exactly `Codec.DecodeRows`. |
| XLCodec.SendInt | xlloop/src/xlloop.py:94 | Sends the packed bytes or raises struct.error with nothing sent. |
| XLCodec.Encode | xlloop/src/xlloop.py:82-145 | Sends exactly `Codec.Encode(v)`'s bytes, and returns or raises as it says. |
| XLCodec.EncodeRef | xlloop/src/xlloop.py:95-100 | The same, for an XLSRef. |
| XLCodec.EncodeArray | xlloop/src/xlloop.py:104-134 | The same, for a list. |
| XLCodec.FirstStep | xlloop/src/xlloop.py:133-134 | One element is sent, then the rest; the rest is never sent after a raise. |
| XLCodec.RowsStep | xlloop/src/xlloop.py:115-116 | One row is sent, then the rest; the rest is never sent after a raise. |
| XLCodec.EncodeItems | xlloop/src/xlloop.py:120-121 | The loop sends exactly `EncodeFirst`'s bytes, stopping at the first raise. |
| XLCodec.EncodeNils | xlloop/src/xlloop.py:122-123 | Sends exactly `max(0, n)` NIL tags. |
| XLCodec.EncodeRow | xlloop/src/xlloop.py:117-130 | Sends exactly `Codec.EncodeRow`'s bytes. |
| XLCodec.EncodeRows | xlloop/src/xlloop.py:115-130 | Sends exactly `Codec.EncodeRows`'s bytes, row by row. |
| Session.ArgCount | xlloop/src/xlloop.py:171-173 | An int or bool count is itself, or 0 when negative. A float succeeds exactly when its conversion does, and then counts as the converted value, or 0 when that is negative. Anything else raises. |
| Session.ReadContext | xlloop/src/xlloop.py:163-167 | A false `extra_info` reads nothing and gives no context. A true one gives a FunctionContext after further reads. |
| Session.ReadArgs | xlloop/src/xlloop.py:171-174 | Keeps the context and name, and ends after the count. |
| Session.CallHead | xlloop/src/xlloop.py:158-170 | The head of a call consumes at least one byte and ends inside the stream. |
| Session.ParseCall | xlloop/src/xlloop.py:158-174 | A call that is read ends inside the stream, after its start. |
| Session.Answer | xlloop/src/xlloop.py:175-176 | If `invoke` raises, nothing is sent and its exception ends the pass. A complete answer sends at least one byte and comes from a result `invoke` returned. |
| Session.Serve | xlloop/src/xlloop.py:155-180 | The loop makes no call exactly when reading the first call fails; it then sends nothing and ends with that read's fault. The first call made is the first call read, and there are at most as many calls as bytes remaining. |
| Session.ServeStops | xlloop/src/xlloop.py:177-180 | When reading a call fails, the loop ends with that fault, having sent and invoked nothing. |
| Session.ServeRaises | xlloop/src/xlloop.py:175-180 | When the answer raises, the loop ends after that one call, with the bytes sent before the raise. |
| Session.ServeGoesOn | xlloop/src/xlloop.py:156-176 | When the call is answered, the loop goes on after it, with the answer's bytes first. |
| Session.XLLoopHandler.constructor | xlloop/src/xlloop.py:154 | A handler starts with no calls invoked. |
| Session.XLLoopHandler.ReadHead | xlloop/src/xlloop.py:158-170 | Reads exactly `CallHead`: the version gate, the context, then the name. |
| Session.XLLoopHandler.ReadCall | xlloop/src/xlloop.py:158-174 | Reads exactly `ParseCall`, and sends nothing. |
| Session.XLLoopHandler.Round | xlloop/src/xlloop.py:158-176 | One pass does two things: it invokes exactly the call read, once, and it sends exactly that call's answer bytes. It stops either with the read's fault (nothing invoked) or with the answer's exception. |
| Session.XLLoopHandler.Handle | xlloop/src/xlloop.py:155-180 | The calls invoked, the bytes sent and the ending exception are those of `Serve` from the starting position. |
| SessionProps.VersionGate | xlloop/src/xlloop.py:160-169 | A non-20 int first value raises at once, before anything is invoked or sent and before any later byte is read. |
| SessionProps.NameFirst | xlloop/src/xlloop.py:159-160 | A first value that is not an int is the name, with no context. |
| SessionProps.ContextAbsent | xlloop/src/xlloop.py:162-164 | Version 20 with a false `extra_info` gives no context, and the next value is the name. |
| SessionProps.ContextPresent | xlloop/src/xlloop.py:162-170 | Version 20 with a true `extra_info` reads the caller, then the sheet name, then the name. |
| SessionProps.ArgsFollowCount | xlloop/src/xlloop.py:171-174 | Exactly the number of arguments the count gives, all the values after the count, in order. |
| SessionProps.IntCount | xlloop/src/xlloop.py:173 | An int count n gives max(0, n) arguments; True gives 1 and False gives 0. |
| SessionProps.ReadCalls | xlloop/src/xlloop.py:156-174 | `n` calls read in turn. |
| SessionProps.Transcripts | xlloop/src/xlloop.py:155-180 | What the loop does over a whole connection: (1) the invoked calls are the peer's calls, in order; (2) all but the last got full answers; (3) the output is the answers concatenated; (4) the loop ends with the last answer's exception or, if that answer was complete, with the next read's fault. |
| SessionProps.LastCallRaises | xlloop/src/xlloop.py:175-180 | If the first answer raises, the loop stops there. |
| SessionProps.CallAnswered | xlloop/src/xlloop.py:156-176 | If the first call is answered, the rest of the transcript follows it. |
| SessionProps.SumOpening | xlloop/src/xlloop.py:159-163 | In the worked request, version 20 is followed by a true `extra_info`. |
| SessionProps.SumCaller | xlloop/src/xlloop.py:165 | Its caller reads as XLSRef(0, 3, 0, 2). |
| SessionProps.SumSheet | xlloop/src/xlloop.py:166 | Its sheet name reads as "Sheet1". |
| SessionProps.SumName | xlloop/src/xlloop.py:170 | Its name reads as "SUM". |
| SessionProps.SumArguments | xlloop/src/xlloop.py:171-174 | Its count is 2, and its arguments read as 1.0 and 2.0. |
| SessionProps.SumHead | xlloop/src/xlloop.py:158-170 | Its head is the context and "SUM". |
| SessionProps.SumValues | xlloop/src/xlloop.py:173-174 | Its two arguments are read in order. |
| SessionProps.SumRequestReads | xlloop/src/xlloop.py:158-174 | The worked request reads as the call SUM(1.0, 2.0) with its context, consuming all 60 bytes. |
| SessionProps.SumExchange | xlloop/src/xlloop.py:155-180 | If the handler answers 3.0, the reply is exactly `[NUM] + 3.0`, and the loop then ends at end of stream. |

## Left out

- `XLLoopServer` (lines 182-193), the threading TCP server and the binding of a port are not modelled. The model covers one connection, with its peer's bytes given in advance.
- `traceback.print_exc()` (line 178) is output only. `self.request.shutdown` (line 179) is an attribute lookup that does nothing. The loop just stops.
- A real `recv(n)` may return fewer than `n` bytes before the stream ends. The model reads exactly `n` bytes or raises; a string cut off by the end of the stream is a fault, not a shorter string.
- Sockets.Connection.Send: every `socket.send` is taken to send all its bytes. A real `send` may send only part of them, and the source ignores the count it returns.
- The model assumes a C long of 64 bits. Then every `decodeInt` result (below 2^32) is a Python `int`. On a 32-bit build, results of 2^31 or more are `long`s. There, a version at line 160 would be read as a function name, and `xrange` at lines 56, 58, 62 and 173 would raise OverflowError. Neither is modelled.
- IEEE-754 doubles are kept as their eight big-endian bytes. `float(n)` (line 103) and the conversion of a float count for `xrange` (line 173) are uninterpreted parameters. Float truthiness is computed from the bits.
- Line 60 appends `a` to itself rather than the row `aa` it has just filled. The model reads each row as a fresh list of its values, which is that line's evident intent.
- The tuple branch (lines 136-144) and the `str(value)` fallback (line 146) are unreachable: the misspelt `isintance` at line 135 raises first. The model raises NameError there.
- Host objects outside the model's value type are not modelled: longs, unicode strings, dictionaries, other class instances, and XLError/XLSRef instances with non-int fields.
- There is no recursion limit. In the source, `decode`, `encode` and the loops they call recurse once per level of nesting. A value nested about 1000 levels deep raises RuntimeError, which the bare `except` at line 177 catches, and the loop ends. The model decodes and encodes values of any depth.
- `invoke` is a pure function of the call. Any state the user's handler keeps between calls, and any side effects it has, are not modelled.
- `encode(None, socket)` in the padding loops (lines 123 and 130) is modelled as the single NIL byte it sends.
- CodecProps.RoundTrip: it requires `Framed(v)`. A list whose first row is empty but that contains a row that is not a list writes bytes that `decode` leaves unread. CodecFacts.ZeroWidthLeavesRowsUnread and CodecFacts.ZeroWidthExample state that case instead.
