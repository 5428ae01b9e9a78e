/**
 The answering half of a remote call: one inbound message is routed to a facade method
 and answered through the completion sink. The facade is a parameter.
 */
module HubDispatcher {
  import opened ByteStrings
  import opened BlazorPack
  import opened CircuitTransport
  import opened TransportRuns
  import BlazorPackWriter

  /** No string of the runtime is longer. */
  type Text = s: Bytes | |s| < 0x8000_0000 witness []

  /** What a facade method does with its unboxed arguments. */
  datatype Reply = Returns(value: Value) | Throws(text: Text)

  type Facade = (Bytes, seq<Value>) -> Reply

  datatype Failure =
    | Thrown(text: Text)
    | WrongArgumentCount
    | BadArgument
    | UnknownTarget
    | StreamNotImplemented
    | NoSink
    | NoInvocationId
    | EmptyInvocationId
    | Unwritable

  /** The text an exception is reported with. */
  type Describe = Failure -> Text

  datatype Parameter = Plain | NullableText | TextOrEmpty | Long | Narrow | Flag | Binary

  datatype Signature = Signature(parameters: seq<Parameter>, returnsValue: bool)

  function Signatures(): map<Bytes, Signature> {
    map[
      Ascii("StartCircuit") := Signature([Plain, Plain, Plain, Plain], true),
      Ascii("UpdateRootComponents") := Signature([Plain, Plain], false),
      Ascii("ConnectCircuit") := Signature([Plain], true),
      Ascii("ResumeCircuit") := Signature([Plain, Plain, Plain, Plain, Plain], true),
      Ascii("PauseCircuit") := Signature([], true),
      Ascii("BeginInvokeDotNetFromJS") := Signature([Plain, TextOrEmpty, Plain, Long, TextOrEmpty], false),
      Ascii("EndInvokeJSFromDotNet") := Signature([Long, Flag, Plain], false),
      Ascii("ReceiveByteArray") := Signature([Narrow, Binary], false),
      Ascii("ReceiveJSDataChunk") := Signature([Long, Long, Binary, Plain], true),
      Ascii("OnRenderCompleted") := Signature([Long, NullableText], false),
      Ascii("OnLocationChanged") := Signature([Plain, NullableText, Flag], false),
      Ascii("OnLocationChanging") := Signature([Narrow, Plain, NullableText, Flag], false)
    ]
  }

  /** An unboxed argument; None where the cast throws. */
  function Unbox(p: Parameter, v: Value): Option<Value> {
    match p
    case Plain => if v.Str? then Some(v) else None
    case NullableText => if v.Str? || v.Nil? then Some(v) else None
    case TextOrEmpty => if v.Str? then Some(v) else if v.Nil? then Some(Str([])) else None
    case Long => if v.Int? then Some(v) else None
    case Narrow => if v.Int? then Some(Int(AsInt32(v.v))) else None
    case Flag => if v.Bool? then Some(v) else None
    case Binary => if v.Bin? then Some(v) else if v.Nil? then Some(Bin([])) else None
  }

  function UnboxAll(ps: seq<Parameter>, args: seq<Value>): Option<seq<Value>>
    requires |ps| == |args|
  {
    if ps == [] then Some([])
    else
      match (Unbox(ps[0], args[0]), UnboxAll(ps[1..], args[1..]))
      case (Some(v), Some(vs)) => Some([v] + vs)
      case _ => None
  }

  // ─── Calls the facade can take ───────────────────────────────────────

  /** What a facade method with this parameter is handed for an argument. */
  predicate PassedAs(p: Parameter, v: Value, u: Value) {
    match p
    case Plain => v.Str? && u == v
    case NullableText => (v.Str? || v.Nil?) && u == v
    case TextOrEmpty => (v.Str? && u == v) || (v.Nil? && u == Str([]))
    case Long => v.Int? && u == v
    case Narrow => v.Int? && u.Int? && -0x8000_0000 <= u.v < 0x8000_0000 && (v.v - u.v) % 0x1_0000_0000 == 0
    case Flag => v.Bool? && u == v
    case Binary => (v.Bin? && u == v) || (v.Nil? && u == Bin([]))
  }

  predicate AllPassed(ps: seq<Parameter>, args: seq<Value>, vs: seq<Value>) {
    |ps| == |args| == |vs| && forall i | 0 <= i < |ps| :: PassedAs(ps[i], args[i], vs[i])
  }

  /** The facade has the method, and takes the message's arguments as `vs`. */
  predicate Arguments(m: Message, vs: seq<Value>) {
    m.target in Signatures() && AllPassed(Signatures()[m.target].parameters, m.args, vs)
  }

  /** An argument of a type the parameter accepts. */
  predicate Accepts(p: Parameter, v: Value) {
    match p
    case Plain => v.Str?
    case NullableText => v.Str? || v.Nil?
    case TextOrEmpty => v.Str? || v.Nil?
    case Long => v.Int?
    case Narrow => v.Int?
    case Flag => v.Bool?
    case Binary => v.Bin? || v.Nil?
  }

  predicate Callable(m: Message) {
    && m.target in Signatures() && |m.args| == |Signatures()[m.target].parameters|
    && forall i | 0 <= i < |m.args| :: Accepts(Signatures()[m.target].parameters[i], m.args[i])
  }

  /** How a message that is no call of a facade method fails; no facade has a say in it. */
  function Misuse(m: Message): Failure {
    if m.target == Ascii("SendDotNetStreamToJS") then StreamNotImplemented
    else if m.target !in Signatures() then UnknownTarget
    else if |m.args| != |Signatures()[m.target].parameters| then WrongArgumentCount
    else BadArgument
  }

  lemma {:induction false} UnboxPasses(p: Parameter, v: Value, u: Value)
    ensures PassedAs(p, v, u) <==> Unbox(p, v) == Some(u)
    ensures Accepts(p, v) <==> Unbox(p, v).Some?
  {
    if p.Narrow? && v.Int? && u.Int? && -0x8000_0000 <= u.v < 0x8000_0000 { SameLowBits(v.v, u.v); }
  }

  lemma {:induction false} SameLowBits(a: int, b: int)
    requires -0x8000_0000 <= b < 0x8000_0000
    ensures (a - b) % 0x1_0000_0000 == 0 <==> AsInt32(a) == b
  {
  }

  lemma {:induction false} UnboxAllPasses(ps: seq<Parameter>, args: seq<Value>, vs: seq<Value>)
    requires |ps| == |args|
    ensures AllPassed(ps, args, vs) <==> UnboxAll(ps, args) == Some(vs)
    ensures UnboxAll(ps, args).Some? <==> forall i | 0 <= i < |ps| :: Accepts(ps[i], args[i])
    decreases |ps|
  {
    if ps != [] {
      UnboxAllPasses(ps[1..], args[1..], if vs == [] then [] else vs[1..]);
      UnboxPasses(ps[0], args[0], if vs == [] then Nil else vs[0]);
      if vs != [] { assert vs == [vs[0]] + vs[1..]; }
    }
  }

  lemma {:induction false} StreamsAreNotCalls()
    ensures Ascii("SendDotNetStreamToJS") !in Signatures()
  {
    var s := Ascii("SendDotNetStreamToJS");
    assert s[0] == 'S' as int && s[1] == 'e' as int && |s| == 20;
    assert Ascii("StartCircuit")[1] == 't' as int && Ascii("UpdateRootComponents")[0] == 'U' as int;
  }

  /** What the facade makes of a message, before any completion is written. */
  datatype CallResult = Gave(value: Value) | NoValue | Broke(failure: Failure)

  function CallFacade(facade: Facade, m: Message): CallResult {
    if m.target == Ascii("SendDotNetStreamToJS") then Broke(StreamNotImplemented)
    else if m.target !in Signatures() then Broke(UnknownTarget)
    else
      var signature := Signatures()[m.target];
      if |m.args| != |signature.parameters| then Broke(WrongArgumentCount)
      else
        match UnboxAll(signature.parameters, m.args)
        case None => Broke(BadArgument)
        case Some(args) =>
          match facade(m.target, args)
          case Throws(text) => Broke(Thrown(text))
          case Returns(v) => if signature.returnsValue then Gave(v) else NoValue
  }

  lemma {:induction false} FacadeDecides(facade: Facade, m: Message, vs: seq<Value>)
    requires Arguments(m, vs)
    ensures CallFacade(facade, m) ==
      match facade(m.target, vs)
      case Throws(text) => Broke(Thrown(text))
      case Returns(v) => if ReturnsValue(m.target) then Gave(v) else NoValue
  {
    StreamsAreNotCalls();
    UnboxAllPasses(Signatures()[m.target].parameters, m.args, vs);
  }

  lemma {:induction false} MisuseBreaks(facade: Facade, m: Message)
    ensures CallFacade(facade, m) == Broke(Misuse(m)) || Callable(m)
    ensures Callable(m) ==> exists vs :: Arguments(m, vs)
  {
    if m.target in Signatures() && |m.args| == |Signatures()[m.target].parameters| {
      var ps := Signatures()[m.target].parameters;
      UnboxAllPasses(ps, m.args, []);
      if UnboxAll(ps, m.args).Some? {
        UnboxAllPasses(ps, m.args, UnboxAll(ps, m.args).value);
        assert Arguments(m, UnboxAll(ps, m.args).value);
      }
    }
  }

  predicate ReturnsValue(target: Bytes) {
    target in Signatures() && Signatures()[target].returnsValue
  }

  /**
   The completion that ends a call for its caller, if one is written, and the exception let
   through: the failure itself, or that of writing it.
   */
  datatype Answer = Answer(completion: Option<Frame>, failure: Option<Failure>)

  function FailureOf(r: CallResult, id: Option<Bytes>, hasSink: bool): Option<Failure> {
    match r
    case Broke(f) => Some(f)
    case NoValue => None
    case Gave(_) =>
      if !hasSink then Some(NoSink)
      else if id == None then Some(NoInvocationId)
      else if id.value == [] then Some(EmptyInvocationId)
      else if !ResultFits(id.value, r.value) then Some(Unwritable)
      else None
  }

  function AnswerTo(facade: Facade, describe: Describe, m: Message, hasSink: bool): Answer {
    var r := CallFacade(facade, m);
    match FailureOf(r, m.id, hasSink)
    case Some(f) =>
      if m.id == None || !hasSink then Answer(None, Some(f))
      else if !ErrorFits(m.id.value, describe(f)) then Answer(None, Some(Unwritable))
      else Answer(Some(Frame.Failed(m.id.value, describe(f))), Some(f))
    case None => Answer(if r.Gave? then Some(Done(m.id.value, r.value)) else None, None)
  }

  predicate IdIsText(id: Option<Bytes>) {
    id.Some? ==> |id.value| < 0x8000_0000
  }

  /** What the facade's reply comes to: a completion frame, nothing, or the exception let through. */
  predicate Delivered(m: Message, hasSink: bool, reply: Reply, emitted: seq<Bytes>, failure: Option<Failure>) {
    match reply
    case Throws(text) => emitted == [] && failure == Some(Thrown(text))
    case Returns(v) =>
      if !ReturnsValue(m.target) then emitted == [] && failure == None
      else
        && failure == FailureOf(Gave(v), m.id, hasSink)
        && emitted == if failure == None then [Framed(CompletionBody(m.id.value, v))] else []
  }

  /**
   Routes a message and unboxes its arguments: the facade's method gets exactly those, and
   a message with the wrong number or types of arguments reaches no facade.
   */
  method DispatchCore(facade: Facade, m: Message, hasSink: bool)
    returns (emitted: seq<Bytes>, failure: Option<Failure>)
    requires IdIsText(m.id)
    ensures forall vs | Arguments(m, vs) :: Delivered(m, hasSink, facade(m.target, vs), emitted, failure)
    ensures !Callable(m) ==> emitted == [] && failure == Some(Misuse(m))
    ensures failure == FailureOf(CallFacade(facade, m), m.id, hasSink)
    ensures emitted == if failure == None && CallFacade(facade, m).Gave?
                       then [Framed(CompletionBody(m.id.value, CallFacade(facade, m).value))] else []
  {
    forall vs | Arguments(m, vs)
      ensures CallFacade(facade, m) == match facade(m.target, vs)
                                       case Throws(text) => Broke(Thrown(text))
                                       case Returns(v) => if ReturnsValue(m.target) then Gave(v) else NoValue
    {
      FacadeDecides(facade, m, vs);
    }
    MisuseBreaks(facade, m);
    emitted := [];
    if m.target == Ascii("SendDotNetStreamToJS") { return [], Some(StreamNotImplemented); }
    if m.target !in Signatures() { return [], Some(UnknownTarget); }
    var signature := Signatures()[m.target];
    if |m.args| != |signature.parameters| { return [], Some(WrongArgumentCount); }
    var args := UnboxAll(signature.parameters, m.args);
    if args == None { return [], Some(BadArgument); }
    var reply := facade(m.target, args.value);
    if reply.Throws? { return [], Some(Thrown(reply.text)); }
    failure := None;
    if signature.returnsValue {
      emitted, failure := EmitCompletion(m.id, reply.value, hasSink);
    }
  }

  method EmitCompletion(id: Option<Bytes>, result: Value, hasSink: bool)
    returns (emitted: seq<Bytes>, failure: Option<Failure>)
    requires IdIsText(id)
    ensures failure == FailureOf(Gave(result), id, hasSink)
    ensures emitted == if failure == None then [Framed(CompletionBody(id.value, result))] else []
  {
    if !hasSink { return [], Some(NoSink); }
    if id == None { return [], Some(NoInvocationId); }
    var frame := BlazorPackWriter.WriteCompletion(id.value, result);
    if frame == None { return [], Some(if id.value == [] then EmptyInvocationId else Unwritable); }
    return [frame.value], None;
  }

  /** Answers a message: the sink receives the answer's frame, or nothing when there is none. */
  method Dispatch(facade: Facade, describe: Describe, m: Message, hasSink: bool)
    returns (emitted: seq<Bytes>, failure: Option<Failure>)
    requires IdIsText(m.id)
    ensures failure == AnswerTo(facade, describe, m, hasSink).failure
    ensures match AnswerTo(facade, describe, m, hasSink).completion
            case None => emitted == []
            case Some(f) => Writable(f) && emitted == [Framed(Body(f))]
  {
    emitted, failure := DispatchCore(facade, m, hasSink);
    if failure.Some? && m.id.Some? && hasSink {
      var frame := BlazorPackWriter.WriteCompletionError(m.id.value, describe(failure.value));
      if frame == None { return emitted, Some(Unwritable); }
      emitted := emitted + [frame.value];
    }
  }

  // ─── Answers ─────────────────────────────────────────────────────────

  /** Every failure can be reported to the caller. */
  ghost predicate Reportable(describe: Describe, id: Bytes) {
    forall f: Failure :: ErrorFits(id, describe(f))
  }

  /** Ids and texts of moderate length leave room for the rest of the frame. */
  lemma {:induction false} ShortTextsAreReportable(describe: Describe, id: Bytes)
    requires forall f: Failure :: |id| + |describe(f)| < 0x7FFF_FFF0
    ensures Reportable(describe, id)
  {
  }

  /**
   When failures can be reported, a message is answered exactly when there is a sink, it
   carries an id, and its target returns a value or the call failed: a call of a method
   without a result that succeeds leaves its caller without a completion.
   */
  lemma {:induction false} AnsweredIff(facade: Facade, describe: Describe, m: Message, hasSink: bool)
    requires m.id.Some? ==> Reportable(describe, m.id.value)
    ensures AnswerTo(facade, describe, m, hasSink).completion.Some?
       <==> hasSink && m.id.Some? && (ReturnsValue(m.target) || CallFacade(facade, m).Broke?)
  {
  }

  /** What the caller of a method that returns a value learns. */
  function SettlementBy(reply: Reply, describe: Describe, id: Bytes): Settlement {
    match reply
    case Returns(v) => if ResultFits(id, v) then Returned(v) else Faulted(describe(Unwritable))
    case Throws(text) => Faulted(describe(Thrown(text)))
  }

  /**
   The answer to a call of a method that returns a value bears the call's id, and the value the
   method returns for exactly these arguments, or a description of its failure.
   */
  lemma {:induction false} AnswerEchoesId(facade: Facade, describe: Describe, m: Message, vs: seq<Value>)
    requires Arguments(m, vs) && ReturnsValue(m.target) && m.id.Some? && m.id.value != []
    ensures var answer := AnswerTo(facade, describe, m, true).completion;
            && (Reportable(describe, m.id.value) ==> answer.Some?)
            && (answer.Some? ==>
                  && IsCompletion(answer.value) && Writable(answer.value) && CallOf(answer.value) == m.id.value
                  && SettlementIn(answer.value) == SettlementBy(facade(m.target, vs), describe, m.id.value))
  {
    FacadeDecides(facade, m, vs);
  }

  /** A message that is no call of a facade method is answered with its misuse, whatever the facade. */
  lemma {:induction false} MisuseIsReported(facade: Facade, describe: Describe, m: Message)
    requires !Callable(m) && m.id.Some? && ErrorFits(m.id.value, describe(Misuse(m)))
    ensures AnswerTo(facade, describe, m, true)
         == Answer(Some(Frame.Failed(m.id.value, describe(Misuse(m)))), Some(Misuse(m)))
  {
    MisuseBreaks(facade, m);
  }

  /** The answer's frame settles the caller's pending call with the method's value, or with its error. */
  lemma {:induction false} AnswerSettles(caller: State, facade: Facade, describe: Describe, m: Message,
      vs: seq<Value>, f: Frame)
    requires Arguments(m, vs) && ReturnsValue(m.target)
    requires m.id.Some? && m.id.value != [] && m.id.value in caller.pending
    requires AnswerTo(facade, describe, m, true).completion == Some(f)
    ensures Writable(f)
    ensures var id := m.id.value;
            CircuitTransport.Dispatch(caller, Framed(Body(f))) == Outcome(
              caller.(pending := caller.pending - {id},
                      settled := caller.settled[id := SettlementBy(facade(m.target, vs), describe, id)]),
              None)
  {
    AnswerEchoesId(facade, describe, m, vs);
    CompletionSettles(caller, f);
  }

  /**
   A remote call end to end: the caller's invocation frame is raised as one message by the
   answering transport; that message is answered whenever failures can be reported, and the
   answer settles the call with what the facade's method returns for the caller's arguments.
   */
  lemma {:induction false} RemoteCallEndToEnd(s: State, answerer: State, facade: Facade, describe: Describe,
      target: Bytes, args: seq<Value>, vs: seq<Value>)
    requires InvokeFits(s.issued + 1, target, args) && ReturnsValue(target) && Correlated(s) && target != []
    requires Arguments(Message(target, args, None), vs)
    ensures var id := InvocationId(s.issued + 1);
            var caller := CircuitTransport.Invoke(s, target, args);
            var m := Message(target, args, Some(id));
            var frame := caller.sent[|caller.sent| - 1];
            && CircuitTransport.Dispatch(answerer, frame)
               == Outcome(answerer.(raised := answerer.raised + [m]), None)
            && var answer := AnswerTo(facade, describe, m, true).completion;
               && (Reportable(describe, id) ==> answer.Some?)
               && (answer.Some? ==>
                     && Writable(answer.value)
                     && var after := CircuitTransport.Dispatch(caller, Framed(Body(answer.value))).state;
                        && after.pending == s.pending
                        && after.settled == s.settled[id := SettlementBy(facade(target, vs), describe, id)])
  {
    var id := InvocationId(s.issued + 1);
    NewIdIsNew(s.issued);
    DispatchWritten(answerer, Call(Some(id), target, args, true));
    var m := Message(target, args, Some(id));
    AnswerEchoesId(facade, describe, m, vs);
    var answer := AnswerTo(facade, describe, m, true).completion;
    if answer.Some? {
      AnswerSettles(CircuitTransport.Invoke(s, target, args), facade, describe, m, vs, answer.value);
    }
  }

  /** How a completion read from the wire ends its call. */
  function SettlementRead(c: Completion): Settlement {
    if c.error.Some? then Faulted(c.error.value) else if c.hasResult then Returned(c.result) else Defaulted
  }

  /**
   A browser's call end to end: its frame, with or without the list of streams, is raised as one
   message; whenever failures can be reported it is answered by one frame, which reads as a
   completion of the browser's id with what the method returns for the browser's arguments.
   */
  lemma {:induction false} BrowserCallEndToEnd(answerer: State, facade: Facade, describe: Describe, call: Frame,
      vs: seq<Value>)
    requires call.Call? && Writable(call) && call.id.Some? && call.id.value != [] && ReturnsValue(call.target)
    requires Arguments(Message(call.target, call.args, None), vs)
    ensures var id := call.id.value;
            var m := Message(call.target, call.args, Some(id));
            && CircuitTransport.Dispatch(answerer, Framed(Body(call)))
               == Outcome(answerer.(raised := answerer.raised + [m]), None)
            && var answer := AnswerTo(facade, describe, m, true).completion;
               && (Reportable(describe, id) ==> answer.Some?)
               && (answer.Some? ==>
                     && Writable(answer.value)
                     && var read := DecCompletion(Framed(Body(answer.value)));
                        && read.Ok? && read.value.id == Some(id)
                        && SettlementRead(read.value) == SettlementBy(facade(call.target, vs), describe, id))
  {
    var m := Message(call.target, call.args, call.id);
    DispatchWritten(answerer, call);
    AnswerEchoesId(facade, describe, m, vs);
    var answer := AnswerTo(facade, describe, m, true).completion;
    if answer.Some? { CompletionIsRead(answer.value); }
  }

  lemma {:induction false} CompletionIsRead(f: Frame)
    requires IsCompletion(f) && Writable(f)
    ensures var read := DecCompletion(Framed(Body(f)));
            read.Ok? && read.value.id == Some(CallOf(f)) && SettlementRead(read.value) == SettlementIn(f)
  {
    assert Framed(Body(f)) + [] == Framed(Body(f));
    match f
    case Finished(id) => VoidCompletionRoundTrip(id, []);
    case Done(id, result) => CompletionRoundTrip(id, result, []);
    case Failed(id, error) => CompletionErrorRoundTrip(id, error, []);
  }
}
