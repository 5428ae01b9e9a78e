/**
 The circuit transport: handshake, frame splitting, dispatch by message type, and the
 correlation of remote calls with their completions.
 */
module CircuitTransport {
  import opened ByteStrings
  import opened BlazorPack
  import BlazorPackReader
  import BlazorPackWriter

  /** An invocation handed to the subscribers. */
  datatype Message = Message(target: Bytes, args: seq<Value>, id: Option<Bytes>)

  /** How a remote call ended. */
  datatype Settlement = Returned(result: Value) | Faulted(error: Bytes) | Defaulted | Canceled

  /**
   `sent` are the byte strings passed to the sender, `raised` the invocations handed to
   subscribers, `issued` the last invocation number, `pending` the ids awaiting a
   completion and `settled` the outcomes of the others.
   */
  datatype State = State(handshakeComplete: bool, connected: bool, issued: nat, pending: set<Bytes>,
                         sent: seq<Bytes>, raised: seq<Message>, settled: map<Bytes, Settlement>)

  datatype Outcome = Outcome(state: State, error: Option<Error>)

  const FRESH := State(false, false, 0, {}, [], [], map[])

  const ACK: Bytes := [0x7B, 0x7D, 0x1E]

  const SEPARATOR: byte := 0x1E

  function PingFrame(): Bytes { Framed(PING_BODY) }

  function InvocationId(n: nat): Bytes { Ascii(Digits(n)) }

  // ─── Handshake ───────────────────────────────────────────────────────

  /** Index of the first separator, or the length. */
  function SeparatorIndex(payload: Bytes): (i: nat)
    ensures i <= |payload| && SEPARATOR !in payload[..i]
    ensures i < |payload| ==> payload[i] == SEPARATOR
  {
    if payload == [] then 0
    else if payload[0] == SEPARATOR then 0
    else
      var i := SeparatorIndex(payload[1..]);
      assert payload[..i + 1] == [payload[0]] + payload[1..][..i];
      i + 1
  }

  predicate Contains(hay: Bytes, needle: Bytes) {
    exists i: nat | i <= |hay| :: At(hay, i, needle)
  }

  predicate ValidHandshake(json: Bytes) {
    Contains(json, Ascii("blazorpack")) || Contains(json, Ascii("messagepack"))
  }

  // ─── Dispatch ────────────────────────────────────────────────────────

  function PeekMessageType(frame: Bytes): Read<int> {
    var (_, p) :- DecPrefix(frame, 0);
    if p > |frame| then Fail(OutOfRange) else
    var body := frame[p..];
    var (_, q) :- DecArrayHeader(body, 0);
    var (kind, r) :- DecInt(body, q);
    Ok(AsInt32(kind), r)
  }

  function SettlementOf(c: Completion): Settlement {
    if c.error.Some? then Faulted(c.error.value)
    else if c.hasResult then Returned(c.result)
    else Defaulted
  }

  function Complete(s: State, c: Completion): State {
    if c.id == None || c.id.value !in s.pending then s
    else s.(pending := s.pending - {c.id.value}, settled := s.settled[c.id.value := SettlementOf(c)])
  }

  function Dispatch(s: State, frame: Bytes): Outcome {
    match PeekMessageType(frame)
    case Fail(e) => Outcome(s, Some(e))
    case Ok(kind, _) =>
      if kind == 1 then
        match DecInvocation(frame)
        case Fail(e) => Outcome(s, Some(e))
        case Ok(m, _) => Outcome(s.(raised := s.raised + [Message(m.target, m.args, m.id)]), None)
      else if kind == 3 then
        match DecCompletion(frame)
        case Fail(e) => Outcome(s, Some(e))
        case Ok(c, _) => Outcome(Complete(s, c), None)
      else if kind == 6 then Outcome(s.(sent := s.sent + [PingFrame()]), None)
      else if kind == 7 then Outcome(s.(connected := false), None)
      else Outcome(s, None)
  }

  lemma {:induction false} EmptyFrameFails(s: State)
    ensures Dispatch(s, []) == Outcome(s, Some(FormatError))
  {
  }

  // ─── Splitting ───────────────────────────────────────────────────────

  /** The frames of a payload, and the error that ends the splitting if it does not reach the end. */
  datatype Split = Split(frames: seq<Bytes>, error: Option<Error>)

  /** The end of the frame at `start`; the sum wraps as a 32-bit one does. */
  function FrameEnd(payload: Bytes, start: nat): Read<int> {
    var (n, p) :- DecPrefix(payload, start);
    Ok(AsInt32(p + n), p)
  }

  /** The end of the frame at an offset, or the error it breaks off with. */
  datatype Cut = End(end: nat) | Broken(error: Error)

  /** A wrapped end equal to the start leaves an empty frame, which has no prefix of its own. */
  function NextCut(payload: Bytes, start: nat): (c: Cut)
    ensures c.End? ==> start < c.end <= |payload|
  {
    match FrameEnd(payload, start)
    case Fail(e) => Broken(e)
    case Ok(end, _) =>
      if end > |payload| then Broken(FormatError)
      else if end < start then Broken(OutOfRange)
      else if end == start then Broken(FormatError)
      else End(end)
  }

  ghost predicate CutsWithin(cut: nat -> Cut, length: nat) {
    forall p: nat :: cut(p).End? ==> p < cut(p).end <= length
  }

  /** Pieces cut off one after the other from `start` on. */
  ghost function SplitBy(cut: nat -> Cut, payload: Bytes, start: nat): Split
    requires CutsWithin(cut, |payload|)
    decreases if start < |payload| then |payload| - start else 0
  {
    if start >= |payload| then Split([], None)
    else
      match cut(start)
      case Broken(e) => Split([], Some(e))
      case End(end) =>
        var rest := SplitBy(cut, payload, end);
        Split([payload[start..end]] + rest.frames, rest.error)
  }

  function Cutter(payload: Bytes): (cut: nat -> Cut)
    ensures CutsWithin(cut, |payload|)
    ensures forall p: nat :: cut(p) == NextCut(payload, p)
  {
    (p: nat) => NextCut(payload, p)
  }

  ghost function SplitFrames(payload: Bytes, start: nat): Split {
    SplitBy(Cutter(payload), payload, start)
  }

  /** Frames dispatched in order, until one fails; then the error of the splitting. */
  ghost function RunFrames(s: State, split: Split): Outcome
    decreases |split.frames|
  {
    if split.frames == [] then Outcome(s, split.error)
    else
      var next := Dispatch(s, split.frames[0]);
      if next.error.Some? then next else RunFrames(next.state, Split(split.frames[1..], split.error))
  }

  function Opened(s: State): State {
    s.(sent := s.sent + [ACK], handshakeComplete := true, connected := true)
  }

  ghost function Handle(s: State, payload: Bytes): Outcome {
    if s.handshakeComplete then RunFrames(s, SplitFrames(payload, 0))
    else
      var sep := SeparatorIndex(payload);
      if sep == |payload| || !ValidHandshake(payload[..sep]) then Outcome(s, Some(FormatError))
      else RunFrames(Opened(s), SplitFrames(payload, sep + 1))
  }

  /** Payloads one after the other, until one fails. */
  ghost function HandleAll(s: State, payloads: seq<Bytes>): Outcome
    decreases |payloads|
  {
    if payloads == [] then Outcome(s, None)
    else
      var next := Handle(s, payloads[0]);
      if next.error.Some? then next else HandleAll(next.state, payloads[1..])
  }

  // ─── The transport ───────────────────────────────────────────────────

  class IcCircuitTransport {
    var handshakeComplete: bool
    var connected: bool
    var nextInvocationId: nat
    var pendingInvocations: set<Bytes>
    var sent: seq<Bytes>
    var raised: seq<Message>
    var outcomes: map<Bytes, Settlement>

    function Value(): State
      reads this
    {
      State(handshakeComplete, connected, nextInvocationId, pendingInvocations, sent, raised, outcomes)
    }

    constructor ()
      ensures Value() == FRESH
    {
      handshakeComplete, connected, nextInvocationId := false, false, 0;
      pendingInvocations, sent, raised, outcomes := {}, [], [], map[];
    }

    method IndexOfRecordSeparator(bytes: Bytes) returns (index: int)
      ensures index == if SeparatorIndex(bytes) < |bytes| then SeparatorIndex(bytes) else -1
    {
      for i := 0 to |bytes|
        invariant SeparatorIndex(bytes) == i + SeparatorIndex(bytes[i..])
      {
        if bytes[i] == SEPARATOR { return i; }
        assert bytes[i..][1..] == bytes[i + 1..];
      }
      assert bytes[|bytes|..] == [];
      index := -1;
    }

    method ValidateHandshake(json: Bytes) returns (valid: bool)
      ensures valid == ValidHandshake(json)
    {
      valid := ContainsText(json, Ascii("blazorpack"));
      if !valid { valid := ContainsText(json, Ascii("messagepack")); }
    }

    method ContainsText(hay: Bytes, needle: Bytes) returns (found: bool)
      ensures found == Contains(hay, needle)
    {
      var i := 0;
      while i + |needle| <= |hay|
        invariant forall k: nat | k < i :: !At(hay, k, needle)
      {
        var j, matching := 0, true;
        while j < |needle| && matching
          invariant j <= |needle|
          invariant matching <==> hay[i..i + j] == needle[..j]
          decreases |needle| - j, matching
        {
          matching := hay[i + j] == needle[j];
          assert hay[i..i + j + 1] == hay[i..i + j] + [hay[i + j]];
          assert needle[..j + 1] == needle[..j] + [needle[j]];
          j := j + 1;
        }
        if matching {
          assert At(hay, i, needle);
          return true;
        }
        assert !At(hay, i, needle);
        i := i + 1;
      }
      found := false;
    }

    method HandleInbound(payload: Bytes) returns (error: Option<Error>)
      modifies this
      ensures Outcome(Value(), error) == Handle(old(Value()), payload)
    {
      var start := 0;
      if !handshakeComplete {
        var sep := IndexOfRecordSeparator(payload);
        if sep < 0 { return Some(FormatError); }
        var valid := ValidateHandshake(payload[..sep]);
        if !valid { return Some(FormatError); }
        sent := sent + [ACK];
        handshakeComplete, connected := true, true;
        start := sep + 1;
      }
      while start < |payload|
        invariant Handle(old(Value()), payload) == RunFrames(Value(), SplitFrames(payload, start))
        decreases |payload| - start
      {
        var c := new BlazorPackReader.Cursor(payload);
        c.p := start;
        var bodyLen := c.ReadLengthPrefix();
        if bodyLen.Failure? { return Some(bodyLen.error); }
        var frameEnd := AsInt32(c.p + bodyLen.value);
        if frameEnd > |payload| { return Some(FormatError); }
        if frameEnd < start { return Some(OutOfRange); }
        EmptyFrameFails(Value());
        ghost var before, split := Value(), SplitFrames(payload, start);
        error := DispatchFrame(payload[start..frameEnd]);
        if frameEnd == start {
          assert payload[start..frameEnd] == [];
          return;
        }
        SplitOne(payload, start);
        if error.Some? { return; }
        start := frameEnd;
      }
      error := None;
    }

    method DispatchFrame(frame: Bytes) returns (error: Option<Error>)
      modifies this
      ensures Outcome(Value(), error) == Dispatch(old(Value()), frame)
    {
      match PeekMessageType(frame) {
        case Fail(e) => return Some(e);
        case Ok(kind, _) =>
          if kind == 1 {
            var inv := BlazorPackReader.ReadInvocation(frame);
            if inv.Failure? { return Some(inv.error); }
            raised := raised + [Message(inv.value.target, inv.value.args, inv.value.id)];
          } else if kind == 3 {
            var completion := BlazorPackReader.ReadCompletion(frame);
            if completion.Failure? { return Some(completion.error); }
            var c := completion.value;
            if c.id.Some? && c.id.value in pendingInvocations {
              pendingInvocations := pendingInvocations - {c.id.value};
              outcomes := outcomes[c.id.value := SettlementOf(c)];
            }
          } else if kind == 6 {
            sent := sent + [PingFrame()];
          } else if kind == 7 {
            connected := false;
          }
          error := None;
      }
    }

    /**
     Starts a remote call; None when the target is empty, which is refused, or an argument
     cannot be written, which leaves the id pending.
     */
    method InvokeCoreAsync(target: Bytes, args: seq<Value>) returns (id: Option<Bytes>)
      requires TypeLimits(Some(InvocationId(nextInvocationId + 1)), target, args)
      modifies this
      ensures Value() == Invoke(old(Value()), target, args)
      ensures id == if target == [] || !InvokeFits(nextInvocationId, target, args) then None
                    else Some(InvocationId(nextInvocationId))
    {
      if target == [] { return None; }
      nextInvocationId := nextInvocationId + 1;
      var invocationId := InvocationId(nextInvocationId);
      pendingInvocations := pendingInvocations + {invocationId};
      var frame := BlazorPackWriter.WriteInvocationWithId(invocationId, target, args);
      if frame == None { return None; }
      sent := sent + [frame.value];
      id := Some(invocationId);
    }

    /** What the cancellation token's callback does. */
    method CancelInvocation(id: Bytes)
      modifies this
      ensures Value() == Cancel(old(Value()), id)
    {
      if id in pendingInvocations {
        pendingInvocations := pendingInvocations - {id};
        outcomes := outcomes[id := Canceled];
      }
    }
  }

  predicate InvokeFits(n: nat, target: Bytes, args: seq<Value>) {
    CallFits(Some(InvocationId(n)), target, args)
  }

  /** A call whose frame cannot be written stays pending, and nothing is sent. */
  function Invoke(s: State, target: Bytes, args: seq<Value>): State {
    if target == [] then s
    else
      var id := InvocationId(s.issued + 1);
      var issued := s.(issued := s.issued + 1, pending := s.pending + {id});
      if !InvokeFits(s.issued + 1, target, args) then issued
      else issued.(sent := s.sent + [Framed(InvocationBody(Some(id), target, args))])
  }

  function Cancel(s: State, id: Bytes): State {
    if id in s.pending then s.(pending := s.pending - {id}, settled := s.settled[id := Canceled]) else s
  }

  lemma {:induction false} SplitOne(payload: Bytes, start: nat)
    requires start < |payload| && NextCut(payload, start).End?
    ensures var split, end := SplitFrames(payload, start), NextCut(payload, start).end;
            && split.frames != [] && split.frames[0] == payload[start..end]
            && Split(split.frames[1..], split.error) == SplitFrames(payload, end)
  {
  }

  // ─── How payloads are cut does not matter ────────────────────────────

  /** The same state, and both fail or neither does. */
  predicate Same(a: Outcome, b: Outcome) {
    a.state == b.state && (a.error == None <==> b.error == None)
  }

  /** Pieces cut off up to the end of `a` are cut off the same way when `b` follows. */
  lemma {:induction false} SplitByExtends(ca: nat -> Cut, cb: nat -> Cut, a: Bytes, b: Bytes, start: nat)
    requires CutsWithin(ca, |a|) && CutsWithin(cb, |a + b|)
    requires forall p: nat | ca(p).End? :: cb(p) == ca(p)
    requires start <= |a| && SplitBy(ca, a, start).error == None
    ensures var rest := SplitBy(cb, a + b, |a|);
            SplitBy(cb, a + b, start) == Split(SplitBy(ca, a, start).frames + rest.frames, rest.error)
    decreases |a| - start
  {
    if start < |a| {
      var end := ca(start).end;
      var first := a[start..end];
      assert (a + b)[start..end] == first;
      SplitByExtends(ca, cb, a, b, end);
      var more, rest := SplitBy(ca, a, end).frames, SplitBy(cb, a + b, |a|).frames;
      assert [first] + (more + rest) == [first] + more + rest;
    } else {
      assert [] + SplitBy(cb, a + b, |a|).frames == SplitBy(cb, a + b, |a|).frames;
    }
  }

  /** Where a payload starts does not matter, but for the kind of error that ends it. */
  lemma {:induction false} SplitByShifts(ca: nat -> Cut, cb: nat -> Cut, a: Bytes, b: Bytes, start: nat)
    requires CutsWithin(ca, |a + b|) && CutsWithin(cb, |b|)
    requires forall p: nat | p < |b| ::
      if cb(p).End? then ca(|a| + p) == End(|a| + cb(p).end) else ca(|a| + p).Broken?
    requires start <= |b|
    ensures SplitBy(ca, a + b, |a| + start).frames == SplitBy(cb, b, start).frames
    ensures SplitBy(ca, a + b, |a| + start).error == None <==> SplitBy(cb, b, start).error == None
    decreases |b| - start
  {
    if start < |b| && cb(start).End? {
      var end := cb(start).end;
      assert (a + b)[|a| + start..|a| + end] == b[start..end];
      SplitByShifts(ca, cb, a, b, end);
    }
  }

  lemma {:induction false} CutExtends(a: Bytes, b: Bytes, p: nat)
    requires NextCut(a, p).End?
    ensures NextCut(a + b, p) == NextCut(a, p)
  {
    VarintExtends(a, b, p, 5);
  }

  /** A wrapped sum inside a range moves with the range; one outside stays outside. */
  lemma {:induction false} WrapMoves(a: nat, p: nat, n: int, lo: nat, hi: nat)
    requires lo <= p <= hi && a + hi < 0x8000_0000 && -0x8000_0000 <= n < 0x8000_0000
    ensures lo < AsInt32(p + n) <= hi ==> AsInt32(a + p + n) == a + AsInt32(p + n)
    ensures !(lo < AsInt32(p + n) <= hi) ==> !(a + lo < AsInt32(a + p + n) <= a + hi)
  {
  }

  lemma {:induction false} CutShifts(a: Bytes, b: Bytes, p: nat)
    requires p < |b| && |a + b| < 0x8000_0000
    ensures if NextCut(b, p).End? then NextCut(a + b, |a| + p) == End(|a| + NextCut(b, p).end)
            else NextCut(a + b, |a| + p).Broken?
  {
    VarintShift(a, b, p, 5);
    match ReadVarint(b, p, 5)
    case Number(v, q) => WrapMoves(|a|, q, AsInt32(v), p, |b|);
    case _ =>
  }

  lemma {:induction false} SplitExtends(a: Bytes, b: Bytes, start: nat)
    requires start <= |a| && SplitFrames(a, start).error == None
    ensures var rest := SplitFrames(a + b, |a|);
            SplitFrames(a + b, start) == Split(SplitFrames(a, start).frames + rest.frames, rest.error)
  {
    forall p: nat | NextCut(a, p).End? ensures NextCut(a + b, p) == NextCut(a, p) { CutExtends(a, b, p); }
    SplitByExtends(Cutter(a), Cutter(a + b), a, b, start);
  }

  lemma {:induction false} SplitShifts(a: Bytes, b: Bytes, start: nat)
    requires start <= |b| && |a + b| < 0x8000_0000
    ensures SplitFrames(a + b, |a| + start).frames == SplitFrames(b, start).frames
    ensures SplitFrames(a + b, |a| + start).error == None <==> SplitFrames(b, start).error == None
  {
    forall p: nat | p < |b|
      ensures if NextCut(b, p).End? then NextCut(a + b, |a| + p) == End(|a| + NextCut(b, p).end)
              else NextCut(a + b, |a| + p).Broken?
    {
      CutShifts(a, b, p);
    }
    SplitByShifts(Cutter(a + b), Cutter(b), a, b, start);
  }

  lemma {:induction false} RunAppend(s: State, xs: seq<Bytes>, ys: seq<Bytes>, e: Option<Error>)
    ensures var first := RunFrames(s, Split(xs, None));
            RunFrames(s, Split(xs + ys, e)) ==
            if first.error.Some? then first else RunFrames(first.state, Split(ys, e))
    decreases |xs|
  {
    if xs == [] {
      assert xs + ys == ys;
    } else {
      assert (xs + ys)[1..] == xs[1..] + ys;
      RunAppend(Dispatch(s, xs[0]).state, xs[1..], ys, e);
    }
  }

  lemma {:induction false} RunErrors(s: State, split: Split)
    ensures RunFrames(s, split).error == None ==> split.error == None
    ensures RunFrames(s, split).state == RunFrames(s, Split(split.frames, None)).state
    ensures RunFrames(s, split).error == None
       <==> split.error == None && RunFrames(s, Split(split.frames, None)).error == None
    decreases |split.frames|
  {
    if split.frames != [] {
      RunErrors(Dispatch(s, split.frames[0]).state, Split(split.frames[1..], split.error));
    }
  }

  lemma {:induction false} FramesAppend(s: State, a: Bytes, b: Bytes, start: nat)
    requires start <= |a| && RunFrames(s, SplitFrames(a, start)).error == None && |a + b| < 0x8000_0000
    ensures Same(RunFrames(s, SplitFrames(a + b, start)),
             RunFrames(RunFrames(s, SplitFrames(a, start)).state, SplitFrames(b, 0)))
  {
    var first, second, shifted := SplitFrames(a, start), SplitFrames(b, 0), SplitFrames(a + b, |a|);
    RunErrors(s, first);
    SplitExtends(a, b, start);
    SplitShifts(a, b, 0);
    RunAppend(s, first.frames, shifted.frames, shifted.error);
    RunErrors(RunFrames(s, first).state, second);
    RunErrors(RunFrames(s, first).state, shifted);
  }

  /** Handling two payloads is handling their concatenation, when the first succeeds. */
  lemma {:induction false} HandleAppend(s: State, a: Bytes, b: Bytes)
    requires Handle(s, a).error == None && |a + b| < 0x8000_0000
    ensures Same(Handle(s, a + b), Handle(Handle(s, a).state, b))
  {
    FirstOpens(s, a);
    if s.handshakeComplete {
      FramesAppend(s, a, b, 0);
    } else {
      var sep := SeparatorIndex(a);
      SeparatorExtends(a, b);
      assert (a + b)[..sep] == a[..sep];
      FramesAppend(Opened(s), a, b, sep + 1);
    }
  }

  lemma {:induction false} SeparatorExtends(a: Bytes, b: Bytes)
    requires SeparatorIndex(a) < |a|
    ensures SeparatorIndex(a + b) == SeparatorIndex(a)
  {
    if a[0] != SEPARATOR {
      assert (a + b)[1..] == a[1..] + b;
      SeparatorExtends(a[1..], b);
    }
  }

  lemma {:induction false} RunKeepsHandshake(s: State, split: Split)
    requires s.handshakeComplete
    ensures RunFrames(s, split).state.handshakeComplete
    decreases |split.frames|
  {
    if split.frames != [] && Dispatch(s, split.frames[0]).error == None {
      RunKeepsHandshake(Dispatch(s, split.frames[0]).state, Split(split.frames[1..], split.error));
    }
  }

  /**
   However the bytes were cut into payloads, as long as each payload was accepted, the
   whole in one payload leaves the same state: same acks, pings, invocations and outcomes.
   */
  lemma {:induction false} GroupingIsInvisible(s: State, payloads: seq<Bytes>)
    requires HandleAll(s, payloads).error == None && |Concat(payloads)| < 0x8000_0000
    requires s.handshakeComplete || payloads != []
    ensures Handle(s, Concat(payloads)) == HandleAll(s, payloads)
    decreases |payloads|
  {
    if payloads != [] {
      var first, rest := payloads[0], payloads[1..];
      var next := Handle(s, first).state;
      FirstOpens(s, first);
      GroupingIsInvisible(next, rest);
      HandleAppend(s, first, Concat(rest));
    }
  }

  lemma {:induction false} FirstOpens(s: State, payload: Bytes)
    requires Handle(s, payload).error == None
    ensures Handle(s, payload).state.handshakeComplete
  {
    if s.handshakeComplete {
      RunKeepsHandshake(s, SplitFrames(payload, 0));
    } else {
      RunKeepsHandshake(Opened(s), SplitFrames(payload, SeparatorIndex(payload) + 1));
    }
  }
}
