/** `XLLoopHandler.handle`: the per-connection loop that reads one call
    after another (an optional protocol version and function context, the
    function name, the argument count and the arguments), passes each to
    the server's handler and writes back the encoded result, until the
    first exception ends the connection.

    `Serve` is that loop as a function of the bytes the peer sends;
    `XLLoopHandler.Handle` is the loop itself, proved to behave as `Serve`
    says.
 */
module Session {
  import opened XLoper
  import opened Codec
  import opened DecodeProps
  import opened Sockets
  import XLCodec

  /** The only protocol version the handler accepts. */
  const VERSION: int := 20

  /** What `handle` passes to `invoke`: the context, the name and the arguments. */
  datatype Call = Call(context: Context, name: Value, args: seq<Value>)

  /** `self.server.handler.invoke(context, name, args)`: the user's handler,
      which answers a call with a value or raises. */
  type Invoker = (Context, Value, seq<Value>) -> Result<Value>

  /** The count `xrange(0, argc)` runs over: an int (or bool) counts as
      itself, a negative one as zero; a float is truncated first (or
      raises); any other value raises TypeError. */
  function ArgCount(argc: Value, ops: FloatOps): (r: Result<nat>)
    ensures IsIntLike(argc) ==> r.Ok? && (r.value == IntOf(argc) || (r.value == 0 && IntOf(argc) < 0))
    ensures argc.Float? ==> (r.Ok? <==> ops.truncate(argc.bits).Ok?)
    ensures argc.Float? && ops.truncate(argc.bits).Ok? ==>
              r == Ok(if ops.truncate(argc.bits).value < 0 then 0 else ops.truncate(argc.bits).value)
    ensures !IsIntLike(argc) && !argc.Float? ==> r == Fail(NotACount)
  {
    if IsIntLike(argc) then Ok(if IntOf(argc) < 0 then 0 else IntOf(argc))
    else if argc.Float? then
      match ops.truncate(argc.bits)
      case Fail(f) => Fail(f)
      case Ok(n) => Ok(if n < 0 then 0 else n)
    else Fail(NotACount)
  }

  /** The context of a version-20 call: after a true `extra_info`, the
      caller and the sheet name; otherwise none, and nothing more is read. */
  function ReadContext(bs: seq<byte>, at: nat, extraInfo: Value): (r: Result<(Context, nat)>)
    requires at <= |bs|
    ensures r.Ok? ==> at <= r.value.1 <= |bs|
    ensures !Truthy(extraInfo) ==> r == Ok((Absent, at))
    ensures Truthy(extraInfo) && r.Ok? ==> r.value.0.FunctionContext? && at < r.value.1
  {
    if Truthy(extraInfo) then
      var caller :- Decode(bs, at);
      var sheet :- Decode(bs, caller.1);
      Ok((FunctionContext(caller.0, sheet.0), sheet.1))
    else Ok((Absent, at))
  }

  /** The argument count and exactly that many arguments. */
  function ReadArgs(bs: seq<byte>, at: nat, context: Context, name: Value, ops: FloatOps): (r: Result<(Call, nat)>)
    requires at <= |bs|
    ensures r.Ok? ==> at < r.value.1 <= |bs|
    ensures r.Ok? ==> r.value.0.context == context && r.value.0.name == name
  {
    var argc :- Decode(bs, at);
    var n :- ArgCount(argc.0, ops);
    var args :- DecodeMany(bs, argc.1, n);
    Ok((Call(context, name, args.0), args.1))
  }

  /** The start of a call: an int first value is a protocol version, which
      must be 20 and is followed by `extra_info`, the context it announces
      and the function name; any other first value is itself the function
      name of a call without context. */
  function CallHead(bs: seq<byte>, at: nat): (r: Result<(Context, Value, nat)>)
    requires at <= |bs|
    ensures r.Ok? ==> at < r.value.2 <= |bs|
  {
    var first :- Decode(bs, at);
    if IsIntLike(first.0) then
      if IntOf(first.0) != VERSION then Fail(UnknownVersion(IntOf(first.0)))
      else
        var extra :- Decode(bs, first.1);
        var context :- ReadContext(bs, extra.1, extra.0);
        var name :- Decode(bs, context.1);
        Ok((context.0, name.0, name.1))
    else Ok((Absent, first.0, first.1))
  }

  /** One pass of the loop up to the call to `invoke`: the call read from
      position `at`, and where the next one starts. */
  function ParseCall(bs: seq<byte>, at: nat, ops: FloatOps): (r: Result<(Call, nat)>)
    requires at <= |bs|
    ensures r.Ok? ==> at < r.value.1 <= |bs|
  {
    var head :- CallHead(bs, at);
    ReadArgs(bs, head.2, head.0, head.1, ops)
  }

  /** Everything one connection does: the calls passed to `invoke`, in
      order, the bytes written back, and the exception that ended it. */
  datatype Transcript = Transcript(calls: seq<Call>, output: seq<byte>, fault: Fault)

  /** The loop of `handle` over the peer's bytes from position `at`. */
  function Serve(bs: seq<byte>, at: nat, ops: FloatOps, invoke: Invoker): (t: Transcript)
    requires at <= |bs|
    decreases |bs| - at
    ensures t.calls == [] <==> ParseCall(bs, at, ops).Fail?
    ensures t.calls == [] ==> t.output == [] && t.fault == ParseCall(bs, at, ops).fault
    ensures t.calls != [] ==> t.calls[0] == ParseCall(bs, at, ops).value.0
    ensures |t.calls| <= |bs| - at
  {
    match ParseCall(bs, at, ops)
    case Fail(f) => Transcript([], [], f)
    case Ok(p) =>
      var call := p.0;
      match invoke(call.context, call.name, call.args)
      case Fail(f) => Transcript([call], [], f)
      case Ok(res) =>
        var e := Encode(res, ops);
        if e.status.Raised? then Transcript([call], e.bytes, e.status.fault)
        else
          var rest := Serve(bs, p.1, ops, invoke);
          Transcript([call] + rest.calls, e.bytes + rest.output, rest.fault)
  }

  /** The answer to one call: the encoded result, or what `invoke` raised. */
  function Answer(call: Call, ops: FloatOps, invoke: Invoker): (a: Encoding)
    ensures invoke(call.context, call.name, call.args).Fail? ==>
              a == Encoding([], Raised(invoke(call.context, call.name, call.args).fault))
    ensures a.status.Done? ==> invoke(call.context, call.name, call.args).Ok? && a.bytes != []
  {
    match invoke(call.context, call.name, call.args)
    case Fail(f) => Encoding([], Raised(f))
    case Ok(res) => Encode(res, ops)
  }

  /** The answers to `calls`, one after another, stopping at the first
      that raises. */
  function Answers(calls: seq<Call>, ops: FloatOps, invoke: Invoker): Encoding
  {
    if |calls| == 0 then Emit([])
    else Then(Answer(calls[0], ops, invoke), Answers(calls[1..], ops, invoke))
  }

  /** The loop of `handle` one pass at a time: a read that fails ends the
      loop with nothing more sent; otherwise the call is answered, and the
      loop goes on after it unless the answer raised. */
  lemma ServeUnfold(bs: seq<byte>, at: nat, ops: FloatOps, invoke: Invoker)
    requires at <= |bs|
    ensures ParseCall(bs, at, ops).Fail? ==>
              Serve(bs, at, ops, invoke) == Transcript([], [], ParseCall(bs, at, ops).fault)
    ensures ParseCall(bs, at, ops).Ok? ==>
              var p := ParseCall(bs, at, ops).value;
              var a := Answer(p.0, ops, invoke);
              var t := Serve(bs, at, ops, invoke);
              (a.status.Raised? ==> t == Transcript([p.0], a.bytes, a.status.fault)) &&
              (a.status.Done? ==>
                 var rest := Serve(bs, p.1, ops, invoke);
                 t == Transcript([p.0] + rest.calls, a.bytes + rest.output, rest.fault))
  {
  }

  /** The same three cases, each appended to the calls `before` and the
      bytes `sent` so far. */
  lemma ServeStops(bs: seq<byte>, at: nat, ops: FloatOps, invoke: Invoker, before: seq<Call>, sent: seq<byte>)
    requires at <= |bs| && ParseCall(bs, at, ops).Fail?
    ensures var t := Serve(bs, at, ops, invoke);
            before + t.calls == before && sent + t.output == sent && t.fault == ParseCall(bs, at, ops).fault
  {
    ServeUnfold(bs, at, ops, invoke);
    assert before + [] == before && sent + [] == sent;
  }

  lemma ServeRaises(bs: seq<byte>, at: nat, ops: FloatOps, invoke: Invoker, before: seq<Call>, sent: seq<byte>)
    requires at <= |bs| && ParseCall(bs, at, ops).Ok?
    requires Answer(ParseCall(bs, at, ops).value.0, ops, invoke).status.Raised?
    ensures var t := Serve(bs, at, ops, invoke);
            var p := ParseCall(bs, at, ops).value;
            var a := Answer(p.0, ops, invoke);
            before + t.calls == before + [p.0] && sent + t.output == sent + a.bytes && t.fault == a.status.fault
  {
    ServeUnfold(bs, at, ops, invoke);
  }

  lemma ServeGoesOn(bs: seq<byte>, at: nat, ops: FloatOps, invoke: Invoker, before: seq<Call>, sent: seq<byte>)
    requires at <= |bs| && ParseCall(bs, at, ops).Ok?
    requires Answer(ParseCall(bs, at, ops).value.0, ops, invoke).status.Done?
    ensures var t := Serve(bs, at, ops, invoke);
            var p := ParseCall(bs, at, ops).value;
            var a := Answer(p.0, ops, invoke);
            var rest := Serve(bs, p.1, ops, invoke);
            before + t.calls == (before + [p.0]) + rest.calls &&
            sent + t.output == (sent + a.bytes) + rest.output && t.fault == rest.fault
  {
    ServeAnswered(bs, at, ops, invoke);
    var p := ParseCall(bs, at, ops).value;
    var rest := Serve(bs, p.1, ops, invoke);
    Associative(before, [p.0], rest.calls);
    Associative(sent, Answer(p.0, ops, invoke).bytes, rest.output);
  }

  /** The pass of the loop whose call is answered in full. */
  lemma ServeAnswered(bs: seq<byte>, at: nat, ops: FloatOps, invoke: Invoker)
    requires at <= |bs| && ParseCall(bs, at, ops).Ok?
    requires Answer(ParseCall(bs, at, ops).value.0, ops, invoke).status.Done?
    ensures var p := ParseCall(bs, at, ops).value;
            var rest := Serve(bs, p.1, ops, invoke);
            Serve(bs, at, ops, invoke) ==
            Transcript([p.0] + rest.calls, Answer(p.0, ops, invoke).bytes + rest.output, rest.fault)
  {
  }

  lemma Associative<T>(a: seq<T>, b: seq<T>, c: seq<T>)
    ensures a + (b + c) == (a + b) + c
  {
  }

  /* ------------------------------------------------------- the handler */

  class XLLoopHandler {
    /** `self.request`, the client socket. */
    const request: Connection
    /** The host's float conversions. */
    const ops: FloatOps
    /** `self.server.handler.invoke`. */
    const invoke: Invoker
    /** Every call passed to `invoke` so far, in order. */
    ghost var calls: seq<Call>

    constructor (request: Connection, ops: FloatOps, invoke: Invoker)
      ensures this.request == request && this.ops == ops && this.invoke == invoke
      ensures calls == []
    {
      this.request := request;
      this.ops := ops;
      this.invoke := invoke;
      calls := [];
    }

    /** Lines up to the function name: the version gate and the context. */
    method ReadHead() returns (r: Result<(Context, Value)>)
      requires request.Valid()
      modifies request
      ensures request.Valid() && request.output == old(request.output)
      ensures var h := CallHead(request.input, old(request.pos));
              r.Ok? == h.Ok? && (r.Ok? ==> r.value == (h.value.0, h.value.1) && request.pos == h.value.2) &&
              (r.Fail? ==> r.fault == h.fault)
    {
      var context := Absent;
      var name :- XLCodec.Decode(request);
      if IsIntLike(name) {
        var version := IntOf(name);
        if version == VERSION {
          var extraInfo :- XLCodec.Decode(request);
          if Truthy(extraInfo) {
            var caller :- XLCodec.Decode(request);
            var sheetName :- XLCodec.Decode(request);
            context := FunctionContext(caller, sheetName);
          }
        } else {
          return Fail(UnknownVersion(version));
        }
        name :- XLCodec.Decode(request);
      }
      return Ok((context, name));
    }

    /** One pass of the loop up to the call to `invoke`. */
    method ReadCall() returns (r: Result<Call>)
      requires request.Valid()
      modifies request
      ensures request.Valid() && request.output == old(request.output)
      ensures r == XLCodec.ValueOf(ParseCall(request.input, old(request.pos), ops))
      ensures r.Ok? ==> request.pos == ParseCall(request.input, old(request.pos), ops).value.1
    {
      var head :- ReadHead();
      var argc :- XLCodec.Decode(request);
      var n :- ArgCount(argc, ops);
      var args :- XLCodec.DecodeValues(request, n);
      return Ok(Call(head.0, head.1, args));
    }

    /** One pass of the loop of `handle`: a call is read, passed to
        `invoke` and answered.  The result is the exception that stopped
        the pass, if any. */
    method Round() returns (r: Result<()>)
      requires request.Valid()
      modifies this, request
      ensures request.Valid()
      ensures var p := ParseCall(request.input, old(request.pos), ops);
              p.Fail? ==> r == Fail(p.fault) && calls == old(calls) && request.output == old(request.output)
      ensures var p := ParseCall(request.input, old(request.pos), ops);
              p.Ok? ==>
                var a := Answer(p.value.0, ops, invoke);
                calls == old(calls) + [p.value.0] && request.output == old(request.output) + a.bytes &&
                (r.Ok? <==> a.status.Done?) && (r.Fail? ==> a.status == Raised(r.fault)) &&
                (r.Ok? ==> request.pos == p.value.1)
    {
      var call :- ReadCall();
      var res := invoke(call.context, call.name, call.args);
      calls := calls + [call];
      if res.Fail? {
        return Fail(res.fault);
      }
      var st := XLCodec.Encode(res.value, request, ops);
      if st.Raised? {
        return Fail(st.fault);
      }
      return Ok(());
    }

    /** `handle`: calls are read, invoked and answered until one of the
        steps raises; that exception (printed by the source) is returned. */
    method Handle() returns (f: Fault)
      requires request.Valid()
      modifies this, request
      ensures request.Valid()
      ensures var t := Serve(request.input, old(request.pos), ops, invoke);
              calls == old(calls) + t.calls && request.output == old(request.output) + t.output && f == t.fault
    {
      while true
        invariant request.Valid() && old(request.pos) <= request.pos
        invariant var t0 := Serve(request.input, old(request.pos), ops, invoke);
                  var t := Serve(request.input, request.pos, ops, invoke);
                  old(calls) + t0.calls == calls + t.calls &&
                  old(request.output) + t0.output == request.output + t.output &&
                  t0.fault == t.fault
        decreases |request.input| - request.pos
      {
        ghost var at := request.pos;
        ghost var before := calls;
        ghost var sent := request.output;
        var r := Round();
        if ParseCall(request.input, at, ops).Fail? {
          ServeStops(request.input, at, ops, invoke, before, sent);
        } else if Answer(ParseCall(request.input, at, ops).value.0, ops, invoke).status.Raised? {
          ServeRaises(request.input, at, ops, invoke, before, sent);
        } else {
          ServeGoesOn(request.input, at, ops, invoke, before, sent);
        }
        if r.Fail? {
          f := r.fault;
          break;
        }
      }
    }
  }
}
