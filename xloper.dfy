/** The value model of the XLLoop protocol: wire tags, spreadsheet error
    codes, the host-side values the codec reads and writes, the per-call
    function context, and the faults that end a connection.
 */
module XLoper {

  /** One octet of the byte stream. */
  type byte = x: int | 0 <= x < 256

  /** The eight big-endian bytes of an IEEE-754 double; kept opaque. */
  type Double = s: seq<byte> | |s| == 8 witness [0, 0, 0, 0, 0, 0, 0, 0]

  // The XLoper wire tags
  const NUM: byte := 1
  const STR: byte := 2
  const BOOL: byte := 3
  const ERR: byte := 4
  const MULTI: byte := 5
  const MISSING: byte := 6
  const NIL: byte := 7
  const INT: byte := 8
  const SREF: byte := 9

  // The spreadsheet error codes an XLError carries
  const ERROR_NULL: int := 0
  const ERROR_DIV0: int := 7
  const ERROR_VALUE: int := 15
  const ERROR_REF: int := 23
  const ERROR_NAME: int := 29
  const ERROR_NUM: int := 36
  const ERROR_NA: int := 42

  const ErrorCodes: set<int> :=
    {ERROR_NULL, ERROR_DIV0, ERROR_VALUE, ERROR_REF, ERROR_NAME, ERROR_NUM, ERROR_NA}

  /** The host (Python 2) objects the codec handles.  `Str` is a byte
      string, `Error` an XLError, `SRef` an XLSRef (column first/last,
      row first/last), `List` a Python list and `Tuple` a Python tuple.
      `Bool` is kept apart from `Int` although Python treats it as an int. */
  datatype Value =
    | Str(bytes: seq<byte>)
    | Float(bits: Double)
    | Bool(b: bool)
    | Int(i: int)
    | None
    | Error(err: int)
    | SRef(colFirst: int, colLast: int, rwFirst: int, rwLast: int)
    | List(items: seq<Value>)
    | Tuple(elems: seq<Value>)

  /** `isinstance(v, types.IntType)`: true of ints and of bools, since
      bool is a subclass of int, and of nothing else. */
  predicate IsIntLike(v: Value): (b: bool)
    ensures v.Int? ==> b
    ensures v.Bool? ==> b
    ensures b ==> v.Int? || v.Bool?
  {
    v.Int? || v.Bool?
  }

  /** The integer an int-like value stands for (True is 1, False is 0). */
  function IntOf(v: Value): (n: int)
    requires IsIntLike(v)
    ensures v.Int? ==> n == v.i
    ensures v.Bool? ==> (n == 1 <==> v.b) && (n == 0 <==> !v.b)
  {
    if v.Int? then v.i else if v.b then 1 else 0
  }

  // +0.0 and -0.0 as big-endian IEEE-754 doubles
  const POS_ZERO: Double := [0, 0, 0, 0, 0, 0, 0, 0]
  const NEG_ZERO: Double := [0x80, 0, 0, 0, 0, 0, 0, 0]

  /** Every bit other than the sign bit is zero: the double is +0.0 or
      -0.0, and no other. */
  predicate DoubleIsZero(d: Double): (z: bool)
    ensures z <==> d == POS_ZERO || d == NEG_ZERO
  {
    d[0] % 128 == 0 && d[1] == 0 && d[2] == 0 && d[3] == 0 &&
    d[4] == 0 && d[5] == 0 && d[6] == 0 && d[7] == 0
  }

  /** Python 2 truth value of a host value, as used by `if extra_info:`.
      XLError and XLSRef are old-style instances without `__len__` or
      `__nonzero__`, hence always true. */
  predicate Truthy(v: Value): (b: bool)
    ensures IsIntLike(v) ==> (b <==> IntOf(v) != 0)
    ensures !b <==> v == None || v == Bool(false) || v == Int(0) || v == Float(POS_ZERO) || v == Float(NEG_ZERO) ||
                    v == Str([]) || v == List([]) || v == Tuple([])
  {
    match v
    case Str(s) => |s| > 0
    case Float(d) => !DoubleIsZero(d)
    case Bool(b) => b
    case Int(i) => i != 0
    case None => false
    case Error(_) => true
    case SRef(_, _, _, _) => true
    case List(xs) => |xs| > 0
    case Tuple(xs) => |xs| > 0
  }

  /** The calling context of one call: `None` in Python, or a
      FunctionContext made of the caller and the sheet name. */
  datatype Context =
    | Absent
    | FunctionContext(caller: Value, sheetName: Value)

  /** Each way a connection's loop can stop. */
  datatype Fault =
    | EndOfStream            // a read ran out of input (`ord('')`, short recv)
    | UnknownTag(tag: byte)  // TypeError("Invalid XLoper type encountered")
    | UnknownVersion(v: int) // TypeError("Unknown protocol version")
    | PackRange              // struct.error: a field does not fit its format
    | NameError              // the misspelt `isintance` at the tuple branch
    | NotACount              // xrange() given something that is not an integer
    | External(code: int)    // raised by the injected handler or by the float layer

  datatype Result<+T> = Ok(value: T) | Fail(fault: Fault)
  {
    predicate IsFailure() { Fail? }

    function PropagateFailure<U>(): Result<U>
      requires Fail?
    {
      Fail(fault)
    }

    function Extract(): T
      requires Ok?
    {
      value
    }
  }

  /** The host's floating-point conversions, left uninterpreted:
      `ofInt` is the big-endian image of `float(n)`, and `truncate` is how
      `xrange` turns a float argument into a C long (or raises). */
  datatype FloatOps = FloatOps(ofInt: int -> Double, truncate: Double -> Result<int>)
}
