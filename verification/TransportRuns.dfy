/**
 What the transport does over whole runs: well-formed frames take effect once and in
 order however they are grouped, and remote calls are settled at most once.
 */
module TransportRuns {
  import opened ByteStrings
  import opened BlazorPack
  import opened CircuitTransport

  // ─── Well-formed frames ──────────────────────────────────────────────

  /** A call with the list of streams, as this side writes it, or without, as a browser does. */
  datatype Frame =
    | Call(id: Option<Bytes>, target: Bytes, args: seq<Value>, streams: bool)
    | Finished(finishedId: Bytes)
    | Done(doneId: Bytes, result: Value)
    | Failed(failedId: Bytes, error: Bytes)
    | Ping
    | Close

  predicate Writable(f: Frame) {
    match f
    case Call(id, target, args, streams) =>
      if streams then CallFits(id, target, args) else ClientCallFits(id, target, args)
    case Finished(id) => VoidFits(id)
    case Done(id, result) => ResultFits(id, result)
    case Failed(id, error) => ErrorFits(id, error)
    case _ => true
  }

  function Body(f: Frame): (body: Bytes)
    requires Writable(f)
    ensures 2 <= |body| < 0x8000_0000
  {
    match f
    case Call(id, target, args, streams) =>
      if streams then InvocationBody(id, target, args) else ClientInvocationBody(id, target, args)
    case Finished(id) => VoidCompletionBody(id)
    case Done(id, result) => CompletionBody(id, result)
    case Failed(id, error) => CompletionErrorBody(id, error)
    case Ping => PING_BODY
    case Close => [0x92, 0x07, 0xC0]
  }

  function KindOf(f: Frame): byte {
    match f
    case Call(_, _, _, _) => 1
    case Finished(_) => 3
    case Done(_, _) => 3
    case Failed(_, _) => 3
    case Ping => 6
    case Close => 7
  }

  predicate AllWritable(fs: seq<Frame>) {
    forall i | 0 <= i < |fs| :: Writable(fs[i])
  }

  function Wire(fs: seq<Frame>): Bytes
    requires AllWritable(fs)
  {
    if fs == [] then [] else Framed(Body(fs[0])) + Wire(fs[1..])
  }

  /** What one frame means to the transport. */
  function Effect(s: State, f: Frame): State {
    match f
    case Call(id, target, args, _) => s.(raised := s.raised + [Message(target, args, id)])
    case Finished(id) => Complete(s, Completion(Some(id), None, false, Nil))
    case Done(id, result) => Complete(s, Completion(Some(id), None, true, result))
    case Failed(id, error) => Complete(s, Completion(Some(id), Some(error), false, Nil))
    case Ping => s.(sent := s.sent + [PingFrame()])
    case Close => s.(connected := false)
  }

  function Effects(s: State, fs: seq<Frame>): State
    decreases |fs|
  {
    if fs == [] then s else Effects(Effect(s, fs[0]), fs[1..])
  }

  /** Every body opens with a small array tag and the message type. */
  lemma {:induction false} BodyHead(f: Frame)
    requires Writable(f)
    ensures 0x91 <= Body(f)[0] <= 0x96 && Body(f)[1] == KindOf(f)
  {
  }

  lemma {:induction false} PeekFramed(body: Bytes)
    requires 2 <= |body| < 0x8000_0000 && 0x90 <= body[0] <= 0x9F && body[1] < 0x80
    ensures PeekMessageType(Framed(body)).Ok? && PeekMessageType(Framed(body)).value == body[1]
  {
    var frame := Framed(body);
    AtSplit(frame, 0, EncVarint(|body|), body);
    PrefixRoundTrip(frame, 0, |body|);
    assert frame[|EncVarint(|body|)|..] == body;
  }

  lemma {:induction false} DispatchWritten(s: State, f: Frame)
    requires Writable(f)
    ensures Dispatch(s, Framed(Body(f))) == Outcome(Effect(s, f), None)
  {
    BodyHead(f);
    PeekFramed(Body(f));
    assert Framed(Body(f)) + [] == Framed(Body(f));
    match f
    case Call(id, target, args, streams) =>
      if streams {
        InvocationRoundTrip(id, target, args, []);
      } else {
        ClientInvocationRoundTrip(id, target, args, []);
      }
    case Finished(id) => VoidCompletionRoundTrip(id, []);
    case Done(id, result) => CompletionRoundTrip(id, result, []);
    case Failed(id, error) => CompletionErrorRoundTrip(id, error, []);
    case _ =>
  }

  lemma {:induction false} CutFramed(body: Bytes, rest: Bytes)
    requires 0 < |body| < 0x8000_0000 && |Framed(body) + rest| < 0x8000_0000
    ensures NextCut(Framed(body) + rest, 0) == End(|Framed(body)|)
  {
    var buf := Framed(body) + rest;
    AtSplit(buf, 0, EncVarint(|body|), body);
    assert At(buf, 0, Framed(body));
    PrefixRoundTrip(buf, 0, |body|);
  }

  function WrittenFrames(fs: seq<Frame>): seq<Bytes>
    requires AllWritable(fs)
  {
    if fs == [] then [] else [Framed(Body(fs[0]))] + WrittenFrames(fs[1..])
  }

  lemma {:induction false} SplitPrepend(first: Bytes, rest: Bytes)
    requires |first + rest| < 0x8000_0000 && NextCut(first + rest, 0) == End(|first|)
    ensures SplitFrames(first + rest, 0).frames == [first] + SplitFrames(rest, 0).frames
    ensures SplitFrames(first + rest, 0).error == None <==> SplitFrames(rest, 0).error == None
  {
    SplitOne(first + rest, 0);
    assert (first + rest)[0..|first|] == first;
    SplitShifts(first, rest, 0);
  }

  lemma {:induction false} SplitWire(fs: seq<Frame>)
    requires AllWritable(fs) && |Wire(fs)| < 0x8000_0000
    ensures SplitFrames(Wire(fs), 0) == Split(WrittenFrames(fs), None)
  {
    if fs != [] {
      CutFramed(Body(fs[0]), Wire(fs[1..]));
      SplitPrepend(Framed(Body(fs[0])), Wire(fs[1..]));
      SplitWire(fs[1..]);
    }
  }

  lemma {:induction false} RunWritten(s: State, fs: seq<Frame>)
    requires AllWritable(fs)
    ensures RunFrames(s, Split(WrittenFrames(fs), None)) == Outcome(Effects(s, fs), None)
    decreases |fs|
  {
    if fs != [] {
      DispatchWritten(s, fs[0]);
      RunWritten(Effect(s, fs[0]), fs[1..]);
      assert WrittenFrames(fs)[1..] == WrittenFrames(fs[1..]);
    }
  }

  /** A run of written frames splits back into them and takes effect frame by frame. */
  lemma {:induction false} RunWire(s: State, fs: seq<Frame>)
    requires AllWritable(fs) && |Wire(fs)| < 0x8000_0000
    ensures RunFrames(s, SplitFrames(Wire(fs), 0)) == Outcome(Effects(s, fs), None)
  {
    SplitWire(fs);
    RunWritten(s, fs);
  }

  // ─── Grouping ────────────────────────────────────────────────────────

  predicate AllGroupsWritable(groups: seq<seq<Frame>>) {
    forall i | 0 <= i < |groups| :: AllWritable(groups[i]) && |Wire(groups[i])| < 0x8000_0000
  }

  /** The groups as payloads. */
  function Payloads(groups: seq<seq<Frame>>): seq<Bytes>
    requires AllGroupsWritable(groups)
  {
    if groups == [] then [] else [Wire(groups[0])] + Payloads(groups[1..])
  }

  lemma {:induction false} EffectsAppend(s: State, a: seq<Frame>, b: seq<Frame>)
    ensures Effects(s, a + b) == Effects(Effects(s, a), b)
    decreases |a|
  {
    if a == [] {
      assert a + b == b;
    } else {
      assert (a + b)[1..] == a[1..] + b;
      EffectsAppend(Effect(s, a[0]), a[1..], b);
    }
  }

  lemma {:induction false} EffectsKeepHandshake(s: State, fs: seq<Frame>)
    ensures Effects(s, fs).handshakeComplete == s.handshakeComplete
    decreases |fs|
  {
    if fs != [] { EffectsKeepHandshake(Effect(s, fs[0]), fs[1..]); }
  }

  lemma {:induction false} GroupsTakeEffect(s: State, groups: seq<seq<Frame>>)
    requires s.handshakeComplete && AllGroupsWritable(groups)
    ensures HandleAll(s, Payloads(groups)) == Outcome(Effects(s, Concat(groups)), None)
    decreases |groups|
  {
    if groups != [] {
      RunWire(s, groups[0]);
      EffectsKeepHandshake(s, groups[0]);
      EffectsAppend(s, groups[0], Concat(groups[1..]));
      GroupsTakeEffect(Effects(s, groups[0]), groups[1..]);
      assert Payloads(groups)[1..] == Payloads(groups[1..]);
    }
  }

  /** The invocations among the frames, in order. */
  function Calls(fs: seq<Frame>): seq<Message> {
    if fs == [] then []
    else (if fs[0].Call? then [Message(fs[0].target, fs[0].args, fs[0].id)] else []) + Calls(fs[1..])
  }

  /** One reply per ping. */
  function Replies(fs: seq<Frame>): seq<Bytes> {
    if fs == [] then [] else (if fs[0].Ping? then [PingFrame()] else []) + Replies(fs[1..])
  }

  lemma {:induction false} EffectsSummed(s: State, fs: seq<Frame>)
    ensures Effects(s, fs).raised == s.raised + Calls(fs)
    ensures Effects(s, fs).sent == s.sent + Replies(fs)
    decreases |fs|
  {
    if fs != [] { EffectsSummed(Effect(s, fs[0]), fs[1..]); }
  }

  lemma {:induction false} SeparatorAfter(json: Bytes, rest: Bytes)
    requires SEPARATOR !in json
    ensures SeparatorIndex(json + [SEPARATOR] + rest) == |json|
  {
    if json != [] {
      assert (json + [SEPARATOR] + rest)[1..] == json[1..] + [SEPARATOR] + rest;
      SeparatorAfter(json[1..], rest);
    }
  }

  lemma {:induction false} HandshakeFound(json: Bytes, rest: Bytes)
    requires SEPARATOR !in json
    ensures SeparatorIndex(json + [SEPARATOR] + rest) == |json|
    ensures (json + [SEPARATOR] + rest)[..|json|] == json
  {
    SeparatorAfter(json, rest);
  }

  lemma {:induction false} SplitAfterHandshake(json: Bytes, fs: seq<Frame>)
    requires AllWritable(fs) && |json + [SEPARATOR] + Wire(fs)| < 0x8000_0000
    ensures SplitFrames(json + [SEPARATOR] + Wire(fs), |json| + 1) == Split(WrittenFrames(fs), None)
  {
    SplitWire(fs);
    SplitShifts(json + [SEPARATOR], Wire(fs), 0);
  }

  lemma {:induction false} RunAfterHandshake(s: State, json: Bytes, fs: seq<Frame>)
    requires AllWritable(fs) && |json + [SEPARATOR] + Wire(fs)| < 0x8000_0000
    ensures RunFrames(s, SplitFrames(json + [SEPARATOR] + Wire(fs), |json| + 1)) == Outcome(Effects(s, fs), None)
  {
    SplitAfterHandshake(json, fs);
    RunWritten(s, fs);
  }

  lemma {:induction false} HandleOpens(s: State, json: Bytes, rest: Bytes)
    requires !s.handshakeComplete && SEPARATOR !in json && ValidHandshake(json)
    ensures Handle(s, json + [SEPARATOR] + rest)
         == RunFrames(Opened(s), SplitFrames(json + [SEPARATOR] + rest, |json| + 1))
  {
    HandshakeFound(json, rest);
  }

  lemma {:induction false} HandshakeThenWire(s: State, json: Bytes, fs: seq<Frame>)
    requires !s.handshakeComplete && SEPARATOR !in json && ValidHandshake(json) && AllWritable(fs)
    requires |json + [SEPARATOR] + Wire(fs)| < 0x8000_0000
    ensures Handle(s, json + [SEPARATOR] + Wire(fs)) == Outcome(Effects(Opened(s), fs), None)
  {
    HandleOpens(s, json, Wire(fs));
    RunAfterHandshake(Opened(s), json, fs);
  }

  /**
   A valid handshake followed by any frames, cut into payloads at any frame boundaries
   with the whole handshake in the first, gives one ack, each invocation once and in
   order, and one ping reply per ping: nothing depends on the grouping.
   */
  lemma {:induction false} AnyGrouping(json: Bytes, first: seq<Frame>, rest: seq<seq<Frame>>)
    requires SEPARATOR !in json && ValidHandshake(json) && AllWritable(first) && AllGroupsWritable(rest)
    requires |json + [SEPARATOR] + Wire(first)| < 0x8000_0000
    ensures var all := first + Concat(rest);
            var r := HandleAll(FRESH, [json + [SEPARATOR] + Wire(first)] + Payloads(rest));
            && r == Outcome(Effects(Opened(FRESH), all), None)
            && r.state.sent == [ACK] + Replies(all)
            && r.state.raised == Calls(all)
  {
    var payload := json + [SEPARATOR] + Wire(first);
    var start := Opened(FRESH);
    HandshakeThenWire(FRESH, json, first);
    EffectsKeepHandshake(start, first);
    GroupsTakeEffect(Effects(start, first), rest);
    EffectsAppend(start, first, Concat(rest));
    EffectsSummed(start, first + Concat(rest));
    assert ([payload] + Payloads(rest))[1..] == Payloads(rest);
    assert FRESH.sent + [ACK] == [ACK];
    assert FRESH.raised + Calls(first + Concat(rest)) == Calls(first + Concat(rest));
  }

  // ─── Remote calls ────────────────────────────────────────────────────

  datatype Action =
    | Invoke(target: Bytes, args: seq<Value>)
    | Cancel(id: Bytes)
    | Inbound(payload: Bytes)

  ghost function Act(s: State, a: Action): State {
    match a
    case Invoke(target, args) => CircuitTransport.Invoke(s, target, args)
    case Cancel(id) => CircuitTransport.Cancel(s, id)
    case Inbound(payload) => Handle(s, payload).state
  }

  /** States reached from a fresh transport. */
  ghost predicate IsRun(states: seq<State>, actions: seq<Action>) {
    && |states| == |actions| + 1 && states[0] == FRESH
    && forall i | 0 <= i < |actions| :: states[i + 1] == Act(states[i], actions[i])
  }

  function IssuedIds(n: nat): set<Bytes> {
    set k | 1 <= k <= n :: InvocationId(k)
  }

  /** The pending ids are exactly the issued ones that are not settled. */
  predicate Correlated(s: State) {
    s.pending == IssuedIds(s.issued) - s.settled.Keys && s.settled.Keys <= IssuedIds(s.issued)
  }

  /** Calls are only added, outcomes only added, and an outcome never changes. */
  predicate Follows(s: State, t: State) {
    && s.issued <= t.issued
    && forall id | id in s.settled :: id in t.settled && t.settled[id] == s.settled[id]
  }

  lemma {:induction false} IdsAreDistinct(m: nat, n: nat)
    requires InvocationId(m) == InvocationId(n)
    ensures m == n
  {
    var a, b := Digits(m), Digits(n);
    assert |a| == |b|;
    forall i | 0 <= i < |a| ensures a[i] == b[i] {
      assert a[i] in a && b[i] in b;
      assert Ascii(a)[i] == a[i] as int && Ascii(b)[i] == b[i] as int;
    }
    DigitsInjective(m, n);
  }

  /** A new call's id is one no call had before. */
  lemma {:induction false} NewIdIsNew(n: nat)
    ensures InvocationId(n + 1) !in IssuedIds(n)
    ensures IssuedIds(n + 1) == IssuedIds(n) + {InvocationId(n + 1)}
  {
    if InvocationId(n + 1) in IssuedIds(n) {
      var k :| 1 <= k <= n && InvocationId(k) == InvocationId(n + 1);
      IdsAreDistinct(k, n + 1);
    }
  }

  lemma {:induction false} CompleteCorrelates(s: State, c: Completion)
    requires Correlated(s)
    ensures Correlated(Complete(s, c)) && Follows(s, Complete(s, c)) && Complete(s, c).issued == s.issued
  {
  }

  /** As far as calls go, a frame does what some completion does. */
  lemma {:induction false} DispatchCompletes(s: State, frame: Bytes) returns (c: Completion)
    ensures var t := Dispatch(s, frame).state;
            (t.issued, t.pending, t.settled) == (s.issued, Complete(s, c).pending, Complete(s, c).settled)
  {
    c := Completion(None, None, false, Nil);
    match PeekMessageType(frame)
    case Fail(_) =>
    case Ok(kind, _) =>
      if kind == 3 && DecCompletion(frame).Ok? { c := DecCompletion(frame).value; }
  }

  lemma {:induction false} DispatchCorrelates(s: State, frame: Bytes)
    requires Correlated(s)
    ensures Correlated(Dispatch(s, frame).state) && Follows(s, Dispatch(s, frame).state)
    ensures Dispatch(s, frame).state.issued == s.issued
  {
    var c := DispatchCompletes(s, frame);
    CompleteCorrelates(s, c);
  }

  lemma {:induction false} RunCorrelates(s: State, split: Split)
    requires Correlated(s)
    ensures Correlated(RunFrames(s, split).state) && Follows(s, RunFrames(s, split).state)
    decreases |split.frames|
  {
    if split.frames != [] {
      var next := Dispatch(s, split.frames[0]);
      DispatchCorrelates(s, split.frames[0]);
      if next.error == None { RunCorrelates(next.state, Split(split.frames[1..], split.error)); }
    }
  }

  lemma {:induction false} InvokeCorrelates(s: State, target: Bytes, args: seq<Value>)
    requires Correlated(s)
    ensures var t := CircuitTransport.Invoke(s, target, args); Correlated(t) && Follows(s, t)
  {
    NewIdIsNew(s.issued);
  }

  lemma {:induction false} ActCorrelates(s: State, a: Action)
    requires Correlated(s)
    ensures Correlated(Act(s, a)) && Follows(s, Act(s, a))
  {
    match a
    case Invoke(target, args) => InvokeCorrelates(s, target, args);
    case Cancel(_) =>
    case Inbound(payload) =>
      if s.handshakeComplete {
        RunCorrelates(s, SplitFrames(payload, 0));
      } else {
        RunCorrelates(Opened(s), SplitFrames(payload, SeparatorIndex(payload) + 1));
      }
  }

  /**
   Over every run of invoke, cancel and inbound steps: pending is exactly issued minus
   settled at every moment, and no outcome of an earlier moment is ever lost or changed.
   */
  lemma {:induction false} EveryRunCorrelates(states: seq<State>, actions: seq<Action>, i: nat, j: nat)
    requires IsRun(states, actions) && i <= j < |states|
    ensures Correlated(states[i]) && Correlated(states[j]) && Follows(states[i], states[j])
    decreases j
  {
    if j == 0 {
      assert IssuedIds(0) == {};
    } else {
      EveryRunCorrelates(states, actions, if i == j then j - 1 else i, j - 1);
      ActCorrelates(states[j - 1], actions[j - 1]);
    }
  }

  /** A call in any reachable state gets an id that was never issued before. */
  lemma {:induction false} IdsNeverRepeat(states: seq<State>, actions: seq<Action>, i: nat, j: nat)
    requires IsRun(states, actions) && i < j < |actions|
    requires actions[i].Invoke? && actions[i].target != [] && actions[j].Invoke? && actions[j].target != []
    ensures InvocationId(states[i].issued + 1) != InvocationId(states[j].issued + 1)
    ensures InvocationId(states[j].issued + 1) !in states[j].pending + states[j].settled.Keys
  {
    assert states[i + 1].issued == states[i].issued + 1;
    EveryRunCorrelates(states, actions, i + 1, j);
    NewIdIsNew(states[j].issued);
    LaterIdsDiffer(states[i].issued + 1, states[j].issued + 1);
  }

  lemma {:induction false} LaterIdsDiffer(m: nat, n: nat)
    requires m < n
    ensures InvocationId(m) != InvocationId(n)
  {
    if InvocationId(m) == InvocationId(n) { IdsAreDistinct(m, n); }
  }

  predicate IsCompletion(f: Frame) { f.Finished? || f.Done? || f.Failed? }

  /** The call a completion is for, and how it ends that call. */
  function CallOf(f: Frame): Bytes
    requires IsCompletion(f)
  {
    match f case Finished(id) => id case Done(id, _) => id case Failed(id, _) => id
  }

  function SettlementIn(f: Frame): Settlement
    requires IsCompletion(f)
  {
    match f case Finished(_) => Defaulted case Done(_, v) => Returned(v) case Failed(_, error) => Faulted(error)
  }

  /**
   A pending call is settled by the first completion bearing its id, with its value, its
   error or neither; a completion for any other id changes nothing.
   */
  lemma {:induction false} CompletionSettles(s: State, f: Frame)
    requires Writable(f) && IsCompletion(f)
    ensures var id, t := CallOf(f), Dispatch(s, Framed(Body(f)));
            && t.error == None
            && (id !in s.pending ==> t.state == s)
            && (id in s.pending ==>
                  && t.state == s.(pending := t.state.pending, settled := t.state.settled)
                  && t.state.pending == s.pending - {id} && t.state.settled == s.settled[id := SettlementIn(f)])
  {
    DispatchWritten(s, f);
  }

  /** A call that was cancelled while pending stays so, whatever arrives afterwards. */
  lemma {:induction false} CancelledStaysCancelled(states: seq<State>, actions: seq<Action>, i: nat, j: nat)
    requires IsRun(states, actions) && i < j < |states| && actions[i].Cancel? && actions[i].id in states[i].pending
    ensures var id := actions[i].id;
            id !in states[j].pending && id in states[j].settled && states[j].settled[id] == Canceled
  {
    assert states[i + 1].settled[actions[i].id] == Canceled;
    EveryRunCorrelates(states, actions, i + 1, j);
  }

  /** Messages of other types are ignored. */
  lemma {:induction false} OtherTypesIgnored(s: State, body: Bytes)
    requires 2 <= |body| < 0x8000_0000 && 0x90 <= body[0] <= 0x9F && body[1] < 0x80
    requires body[1] !in {1, 3, 6, 7}
    ensures Dispatch(s, Framed(body)) == Outcome(s, None)
  {
    PeekFramed(body);
  }
}
