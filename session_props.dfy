/** What the loop of `XLLoopHandler.handle` promises: the version gate,
    when a function context is read, that exactly `argc` arguments are read
    in order, that calls are answered one after another until the first
    exception, and a complete exchange worked through byte by byte.
 */
module SessionProps {
  import opened XLoper
  import opened Codec
  import opened DecodeProps
  import opened Session

  /* -------------------------------------------------------- one call */

  /** An int first value other than 20 raises "Unknown protocol version"
      at once: nothing is invoked, nothing is sent, and no byte after that
      value is looked at, since any input with the same bytes up to there
      gives the same transcript. */
  lemma VersionGate(bs: seq<byte>, other: seq<byte>, at: nat, ops: FloatOps, invoke: Invoker)
    requires at <= |bs| && Decode(bs, at).Ok?
    requires IsIntLike(Decode(bs, at).value.0) && IntOf(Decode(bs, at).value.0) != VERSION
    requires Agree(bs, other, at, Decode(bs, at).value.1)
    ensures var v := IntOf(Decode(bs, at).value.0);
            ParseCall(bs, at, ops) == Fail(UnknownVersion(v)) &&
            Serve(bs, at, ops, invoke) == Transcript([], [], UnknownVersion(v)) &&
            Serve(other, at, ops, invoke) == Serve(bs, at, ops, invoke)
  {
    DecodeLocal(bs, other, at);
  }

  /** A first value that is not an int is the function name of a call
      without context, and the argument count follows it directly. */
  lemma NameFirst(bs: seq<byte>, at: nat)
    requires at <= |bs| && Decode(bs, at).Ok? && !IsIntLike(Decode(bs, at).value.0)
    ensures var first := Decode(bs, at).value;
            CallHead(bs, at) == Ok((Absent, first.0, first.1))
  {
  }

  /** With version 20 and an `extra_info` that is false (zero, empty, None
      or False), no caller or sheet name is read: the next value is the
      function name and the call has no context. */
  lemma ContextAbsent(bs: seq<byte>, at: nat)
    requires at <= |bs| && Decode(bs, at).Ok?
    requires IsIntLike(Decode(bs, at).value.0) && IntOf(Decode(bs, at).value.0) == VERSION
    requires Decode(bs, Decode(bs, at).value.1).Ok?
    requires !Truthy(Decode(bs, Decode(bs, at).value.1).value.0)
    ensures var p := Decode(bs, Decode(bs, at).value.1).value.1;
            match Decode(bs, p)
            case Fail(f) => CallHead(bs, at) == Fail(f)
            case Ok(name) => CallHead(bs, at) == Ok((Absent, name.0, name.1))
  {
  }

  /** With version 20 and a true `extra_info`, the next two values are the
      caller and the sheet name of a FunctionContext, and the function name
      comes after them. */
  lemma ContextPresent(bs: seq<byte>, at: nat)
    requires at <= |bs| && Decode(bs, at).Ok?
    requires IsIntLike(Decode(bs, at).value.0) && IntOf(Decode(bs, at).value.0) == VERSION
    requires Decode(bs, Decode(bs, at).value.1).Ok?
    requires Truthy(Decode(bs, Decode(bs, at).value.1).value.0)
    requires var p := Decode(bs, Decode(bs, at).value.1).value.1;
             Decode(bs, p).Ok? && Decode(bs, Decode(bs, p).value.1).Ok? &&
             Decode(bs, Decode(bs, Decode(bs, p).value.1).value.1).Ok?
    ensures var p := Decode(bs, Decode(bs, at).value.1).value.1;
            var caller := Decode(bs, p).value;
            var sheet := Decode(bs, caller.1).value;
            var name := Decode(bs, sheet.1).value;
            CallHead(bs, at) == Ok((FunctionContext(caller.0, sheet.0), name.0, name.1))
  {
  }

  /** A call that is read has exactly as many arguments as its count
      says, and they are the values that follow the count, in order. */
  lemma ArgsFollowCount(bs: seq<byte>, at: nat, ops: FloatOps)
    requires at <= |bs| && ParseCall(bs, at, ops).Ok?
    ensures var head := CallHead(bs, at).value;
            var argc := Decode(bs, head.2).value;
            var call := ParseCall(bs, at, ops).value;
            ArgCount(argc.0, ops).Ok? &&
            |call.0.args| == ArgCount(argc.0, ops).value &&
            DecodeMany(bs, argc.1, ArgCount(argc.0, ops).value) == Ok((call.0.args, call.1)) &&
            call.0.context == head.0 && call.0.name == head.1
  {
  }

  /** Any int count is honoured exactly; a negative one reads no arguments. */
  lemma IntCount(n: int, ops: FloatOps)
    ensures ArgCount(Int(n), ops) == Ok(if n < 0 then 0 else n)
    ensures ArgCount(Bool(true), ops) == Ok(1) && ArgCount(Bool(false), ops) == Ok(0)
  {
  }

  /* ---------------------------------------------------- the whole loop */

  /** `n` calls read one after another from position `at`, and where the
      last one ends. */
  function ReadCalls(bs: seq<byte>, at: nat, n: nat, ops: FloatOps): (r: Result<(seq<Call>, nat)>)
    requires at <= |bs|
    decreases n
    ensures r.Ok? ==> |r.value.0| == n && at <= r.value.1 <= |bs|
  {
    if n == 0 then Ok(([], at))
    else
      var p :- ParseCall(bs, at, ops);
      var rest :- ReadCalls(bs, p.1, n - 1, ops);
      Ok(([p.0] + rest.0, rest.1))
  }

  /** The loop as a whole: the calls passed to `invoke` are the calls the
      peer sent, in order; every call but the last was answered in full
      before the next was read; the bytes sent are exactly the answers one
      after another; and the loop ends with the exception of the last
      answer or, when every answer was sent, with the failure of the next
      read. */
  lemma {:induction false} Transcripts(bs: seq<byte>, at: nat, ops: FloatOps, invoke: Invoker)
    requires at <= |bs|
    decreases |bs| - at, 1
    ensures var t := Serve(bs, at, ops, invoke);
            ReadCalls(bs, at, |t.calls|, ops).Ok? && ReadCalls(bs, at, |t.calls|, ops).value.0 == t.calls
    ensures var t := Serve(bs, at, ops, invoke);
            t.output == Answers(t.calls, ops, invoke).bytes &&
            (forall i :: 0 <= i < |t.calls| - 1 ==> Answer(t.calls[i], ops, invoke).status.Done?)
    ensures var t := Serve(bs, at, ops, invoke);
            var a := Answers(t.calls, ops, invoke);
            (a.status.Raised? ==> t.fault == a.status.fault) &&
            (a.status.Done? ==>
               var end := ReadCalls(bs, at, |t.calls|, ops).value.1;
               ParseCall(bs, end, ops).Fail? && t.fault == ParseCall(bs, end, ops).fault)
  {
    if ParseCall(bs, at, ops).Fail? {
      ServeStops(bs, at, ops, invoke, [], []);
    } else if Answer(ParseCall(bs, at, ops).value.0, ops, invoke).status.Raised? {
      LastCallRaises(bs, at, ops, invoke);
    } else {
      CallAnswered(bs, at, ops, invoke);
    }
  }

  /** The case of `Transcripts` where the answer to the first call raises. */
  lemma LastCallRaises(bs: seq<byte>, at: nat, ops: FloatOps, invoke: Invoker)
    requires at <= |bs| && ParseCall(bs, at, ops).Ok?
    requires Answer(ParseCall(bs, at, ops).value.0, ops, invoke).status.Raised?
    ensures var t := Serve(bs, at, ops, invoke);
            var p := ParseCall(bs, at, ops).value;
            t.calls == [p.0] && ReadCalls(bs, at, 1, ops) == Ok(([p.0], p.1)) &&
            t.output == Answers(t.calls, ops, invoke).bytes &&
            Answers(t.calls, ops, invoke).status.Raised? &&
            t.fault == Answers(t.calls, ops, invoke).status.fault
  {
    var p := ParseCall(bs, at, ops).value;
    ServeRaises(bs, at, ops, invoke, [], []);
    assert [p.0][1..] == [];
    assert ReadCalls(bs, p.1, 0, ops) == Ok(([], p.1));
    assert [p.0] + [] == [p.0];
    assert Answers([p.0], ops, invoke) == Then(Answer(p.0, ops, invoke), Emit([]));
  }

  /** The case of `Transcripts` where the first call is answered in full
      and the loop goes on after it. */
  lemma {:induction false} CallAnswered(bs: seq<byte>, at: nat, ops: FloatOps, invoke: Invoker)
    requires at <= |bs| && ParseCall(bs, at, ops).Ok?
    requires Answer(ParseCall(bs, at, ops).value.0, ops, invoke).status.Done?
    decreases |bs| - at, 0
    ensures var t := Serve(bs, at, ops, invoke);
            ReadCalls(bs, at, |t.calls|, ops).Ok? && ReadCalls(bs, at, |t.calls|, ops).value.0 == t.calls
    ensures var t := Serve(bs, at, ops, invoke);
            t.output == Answers(t.calls, ops, invoke).bytes &&
            (forall i :: 0 <= i < |t.calls| - 1 ==> Answer(t.calls[i], ops, invoke).status.Done?)
    ensures var t := Serve(bs, at, ops, invoke);
            var a := Answers(t.calls, ops, invoke);
            (a.status.Raised? ==> t.fault == a.status.fault) &&
            (a.status.Done? ==>
               var end := ReadCalls(bs, at, |t.calls|, ops).value.1;
               ParseCall(bs, end, ops).Fail? && t.fault == ParseCall(bs, end, ops).fault)
  {
    var p := ParseCall(bs, at, ops).value;
    var a := Answer(p.0, ops, invoke);
    var t := Serve(bs, at, ops, invoke);
    var rest := Serve(bs, p.1, ops, invoke);
    ServeGoesOn(bs, at, ops, invoke, [], []);
    Transcripts(bs, p.1, ops, invoke);
    assert [] + t.calls == t.calls && [] + [p.0] == [p.0];
    assert t.calls == [p.0] + rest.calls;
    assert t.calls[1..] == rest.calls;
    var rc := ReadCalls(bs, p.1, |rest.calls|, ops).value;
    assert ReadCalls(bs, at, |t.calls|, ops) == Ok(([p.0] + rc.0, rc.1));
    assert Answers(t.calls, ops, invoke) == Then(a, Answers(rest.calls, ops, invoke));
    forall i | 0 <= i < |t.calls| - 1
      ensures Answer(t.calls[i], ops, invoke).status.Done?
    {
      if i > 0 {
        assert t.calls[i] == rest.calls[i - 1];
      }
    }
  }

  /* ------------------------------------------- one exchange, byte by byte */

  // 1.0, 2.0 and 3.0 as big-endian IEEE-754 doubles
  const ONE: Double := [0x3F, 0xF0, 0, 0, 0, 0, 0, 0]
  const TWO: Double := [0x40, 0x00, 0, 0, 0, 0, 0, 0]
  const THREE: Double := [0x40, 0x08, 0, 0, 0, 0, 0, 0]

  /** "Sheet1" and "SUM" as bytes. */
  const SHEET1: seq<byte> := [83, 104, 101, 101, 116, 49]
  const SUM: seq<byte> := [83, 85, 77]

  /** Version 20, a true `extra_info`, the caller XLSRef(0, 3, 0, 2), the
      sheet name, the function name, two arguments, and then the peer
      closes the connection. */
  const SumRequest: seq<byte> :=
    [INT, 0, 0, 0, 20] + [BOOL, 1] +
    [SREF, 0, 0, 0, 0, 0, 0, 0, 3, 0, 0, 0, 0, 0, 0, 0, 2] +
    [STR, 6] + SHEET1 + [STR, 3] + SUM + [INT, 0, 0, 0, 2] +
    [NUM] + ONE + [NUM] + TWO

  const SumCall: Call :=
    Call(FunctionContext(SRef(0, 3, 0, 2), Str(SHEET1)), Str(SUM), [Float(ONE), Float(TWO)])

  /** The version and `extra_info` of that request. */
  lemma SumOpening()
    ensures Decode(SumRequest, 0) == Ok((Int(20), 5))
    ensures Decode(SumRequest, 5) == Ok((Bool(true), 7))
  {
    assert |SumRequest| == 60;
  }

  /** The caller of that request. */
  lemma SumCaller()
    ensures Decode(SumRequest, 7) == Ok((SRef(0, 3, 0, 2), 24))
  {
    assert |SumRequest| == 60 && SumRequest[7] == SREF;
  }

  /** The sheet name of that request. */
  lemma SumSheet()
    ensures Decode(SumRequest, 24) == Ok((Str(SHEET1), 32))
  {
    assert |SumRequest| == 60 && SumRequest[26..32] == SHEET1;
  }

  /** The function name of that request. */
  lemma SumName()
    ensures Decode(SumRequest, 32) == Ok((Str(SUM), 37))
  {
    assert |SumRequest| == 60 && SumRequest[34..37] == SUM;
  }

  /** The argument count and the two arguments of that request. */
  lemma SumArguments()
    ensures Decode(SumRequest, 37) == Ok((Int(2), 42))
    ensures Decode(SumRequest, 42) == Ok((Float(ONE), 51))
    ensures Decode(SumRequest, 51) == Ok((Float(TWO), 60))
  {
    assert |SumRequest| == 60;
    assert SumRequest[43..51] == ONE && SumRequest[52..60] == TWO;
  }

  /** The head of that request: version 20, the context, the name. */
  lemma SumHead()
    ensures CallHead(SumRequest, 0) == Ok((SumCall.context, Str(SUM), 37))
  {
    SumOpening();
    SumCaller();
    SumSheet();
    SumName();
  }

  /** The two arguments of that request, in order. */
  lemma SumValues()
    ensures DecodeMany(SumRequest, 42, 2) == Ok(([Float(ONE), Float(TWO)], 60))
  {
    var bs := SumRequest;
    SumArguments();
    assert DecodeMany(bs, 42, 0) == Ok(([], 42));
    ManySnoc(bs, 42, 0);
    assert [] + [Float(ONE)] == [Float(ONE)];
    ManySnoc(bs, 42, 1);
    assert [Float(ONE)] + [Float(TWO)] == [Float(ONE), Float(TWO)];
  }

  /** The whole request reads as the call SUM(1.0, 2.0) with its context. */
  lemma SumRequestReads(ops: FloatOps)
    ensures ParseCall(SumRequest, 0, ops) == Ok((SumCall, |SumRequest|))
  {
    SumHead();
    SumArguments();
    SumValues();
    assert |SumRequest| == 60;
  }

  /** A handler that answers that call with 3.0 gets exactly the bytes of
      one NUM reply sent back, and the loop ends when the next read finds
      the stream closed. */
  lemma SumExchange(ops: FloatOps, invoke: Invoker)
    requires invoke(SumCall.context, SumCall.name, SumCall.args) == Ok(Float(THREE))
    ensures Serve(SumRequest, 0, ops, invoke) == Transcript([SumCall], [NUM] + THREE, EndOfStream)
  {
    SumRequestReads(ops);
    assert Encode(Float(THREE), ops) == Emit([NUM] + THREE);
    var rest := Serve(SumRequest, |SumRequest|, ops, invoke);
    assert Decode(SumRequest, |SumRequest|) == Fail(EndOfStream);
    assert rest == Transcript([], [], EndOfStream);
    ServeGoesOn(SumRequest, 0, ops, invoke, [], []);
    assert [NUM] + THREE + [] == [NUM] + THREE;
  }
}
