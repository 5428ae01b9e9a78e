/**
 The three-party protocol of SignalR client, bridge and canister for one connection: over
 every interleaving the bridge's shortcut is invisible exactly when it never lets the
 server's ack through beside its own.
 */
module HandshakeProtocol {
  import opened ByteStrings
  import opened BlazorPack
  import opened CircuitTransport
  import opened TransportRuns
  import opened LongPolling
  import opened HandshakeBridge

  /** Where the client's one poll is: not open, fetched once, held, or in the last fetch of a hold. */
  datatype Poll = Idle | Direct | Holding | Last

  /**
   `clientBytes` is everything the client posted, `posted` the frames in it; `received` and
   `inbox` are the byte streams that client and canister got. `post` is the client's POST under
   way and `posting` its frames, `lone` the greeting the timer sent; `handled` are the frames of
   the client's POSTs the canister has had, `rejected` counts the POSTs it refused. A response
   on its way is kept as the frames it is made of.
   */
  datatype Protocol = Protocol(
    clientBytes: Bytes, posted: seq<Frame>, received: Bytes, poll: Poll,
    entry: Entry, timerArmed: bool,
    post: Option<Bytes>, posting: seq<Frame>, lone: Option<Bytes>, response: Option<seq<Bytes>>,
    inbox: Bytes, handled: seq<Frame>, rejected: nat, transport: State, queue: Queue)

  const START := Protocol([], [], [], Idle, NO_ENTRY, false, None, [], None, None, [], [], 0, FRESH, Queue([], false))

  datatype Move =
    | ClientGreets
    | ClientPosts(frames: seq<Frame>)
    | ClientPolls
    | TimerFired
    | HoldExpires
    | ResponseArrives
    | CanisterGetsPost
    | CanisterGetsLone
    | CanisterAnswersPoll
    | CanisterSends(frame: Bytes)
    | CanisterCalls(target: Bytes, args: seq<Value>)
    | CanisterCancels(id: Bytes)

  /** The handshake message: JSON without a separator, before the separator. */
  predicate IsHello(hello: Bytes) {
    && SEPARATOR !in hello && ValidHandshake(hello)
    && HandshakePrefix() <= Greeting(hello) && |Greeting(hello)| < 0x8000_0000
  }

  function Greeting(hello: Bytes): Bytes { hello + [SEPARATOR] }

  lemma {:induction false} AsciiAppend(a: string, b: string)
    ensures Ascii(a + b) == Ascii(a) + Ascii(b)
  {
  }

  lemma {:induction false} NoSeparatorIn(text: string)
    requires '\U{001E}' !in text
    ensures SEPARATOR !in Ascii(text)
  {
    forall i | 0 <= i < |text| ensures Ascii(text)[i] != SEPARATOR {
      assert text[i] in text;
    }
  }

  /** What SignalR sends is such a message. */
  lemma {:induction false} SignalRGreets()
    ensures IsHello(Ascii("{\"protocol\":" + ("\"" + ("blazorpack" + "\",\"version\":1}"))))
  {
    var key, open, name, rest := "{\"protocol\":", "\"", "blazorpack", "\",\"version\":1}";
    NoSeparatorIn(key + (open + (name + rest)));
    AsciiAppend(key, open + (name + rest));
    AsciiAppend(open, name + rest);
    AsciiAppend(name, rest);
    NameFollows(Ascii(key), Ascii(open), Ascii(name), Ascii(rest));
  }

  lemma {:induction false} NameFollows(key: Bytes, open: Bytes, name: Bytes, rest: Bytes)
    ensures Contains(key + (open + (name + rest)), name) && key <= Greeting(key + (open + (name + rest)))
  {
    var hello := key + (open + (name + rest));
    assert hello[|key| + |open|..|key| + |open| + |name|] == name;
    assert At(hello, |key| + |open|, name);
  }

  /** The client posts frames only after it has its ack, and one POST at a time. */
  predicate ClientMayPost(hello: Bytes, s: Protocol, frames: seq<Frame>) {
    && ACK <= s.received && s.post == None
    && frames != [] && AllWritable(frames) && |Greeting(hello) + Wire(frames)| < 0x8000_0000
  }

  ghost predicate Enabled(hello: Bytes, s: Protocol, m: Move) {
    match m
    case ClientGreets => s.clientBytes == []
    case ClientPosts(frames) => ClientMayPost(hello, s, frames)
    case ClientPolls => s.poll == Idle
    case TimerFired => s.timerArmed
    case HoldExpires => s.poll == Holding && s.response == None
    case ResponseArrives => s.response.Some?
    case CanisterGetsPost => s.post.Some?
    case CanisterGetsLone => s.lone.Some?
    case CanisterAnswersPoll => s.poll != Idle && s.response == None
    case CanisterSends(frame) => s.transport.handshakeComplete && ServerFrame(frame)
    case CanisterCalls(target, args) => s.transport.handshakeComplete
    case CanisterCancels(id) => s.transport.handshakeComplete
  }

  /** The client's POST of these bytes, as the bridge routes it. */
  function Posted(s: Protocol, body: Bytes, frames: seq<Frame>): Protocol {
    var (e, route) := PostTo(s.entry, body);
    s.(clientBytes := s.clientBytes + body, posted := s.posted + frames, entry := e,
       post := if route.Forward? then Some(route.bytes) else s.post, posting := s.posting + frames)
  }

  function Deliver(s: Protocol, bytes: Bytes): Protocol {
    s.(received := s.received + bytes, poll := Idle, response := None)
  }

  /** A new transport state; what the transport sent meanwhile goes to the queue. */
  function Advance(s: Protocol, t: State): Protocol
    requires s.transport.sent <= t.sent
  {
    s.(transport := t, queue := s.queue.(frames := s.queue.frames + t.sent[|s.transport.sent|..]))
  }

  /** The canister has a POST of these bytes, and the transport makes this of it. */
  function Taken(s: Protocol, bytes: Bytes, o: Outcome): Protocol
    requires s.transport.sent <= o.state.sent
  {
    Advance(s, o.state).(inbox := s.inbox + bytes, rejected := s.rejected + if o.error.Some? then 1 else 0)
  }

  /** The client's POST is handled. */
  function PostTaken(s: Protocol, o: Outcome): Protocol
    requires s.post.Some? && s.transport.sent <= o.state.sent
  {
    Taken(s, s.post.value, o).(post := None, handled := s.handled + s.posting, posting := [])
  }

  /** The timer's POST is handled. */
  function LoneTaken(s: Protocol, o: Outcome): Protocol
    requires s.lone.Some? && s.transport.sent <= o.state.sent
  {
    Taken(s, s.lone.value, o).(lone := None)
  }

  ghost function Next(hello: Bytes, s: Protocol, m: Move): Protocol
    requires Enabled(hello, s, m)
  {
    match m
    case ClientGreets => Posted(s, Greeting(hello), []).(timerArmed := true)
    case ClientPosts(frames) => Posted(s, Wire(frames), frames)
    case ClientPolls =>
      var (e, route) := PollTo(s.entry);
      (match route
       case InjectAck => s.(entry := e, received := s.received + ACK)
       case FetchOnce => s.(entry := e, poll := Direct)
       case Hold => s.(entry := e, poll := Holding))
    case TimerFired =>
      var (e, alone) := TimerFires(s.entry);
      s.(timerArmed := false, entry := e, lone := if alone.Some? then alone else s.lone)
    case HoldExpires => s.(poll := Last)
    case ResponseArrives =>
      var bytes := Concat(s.response.value);
      if s.poll == Holding then
        var (e, given) := HeldResponse(s.entry, bytes);
        match given
        case None => s.(entry := e, response := None)
        case Some(rest) => Deliver(s.(entry := e), rest)
      else
        Deliver(s, bytes)
    case CanisterGetsPost =>
      SentGrows(s.transport, s.post.value);
      PostTaken(s, Handle(s.transport, s.post.value))
    case CanisterGetsLone =>
      SentGrows(s.transport, s.lone.value);
      LoneTaken(s, Handle(s.transport, s.lone.value))
    case CanisterAnswersPoll =>
      s.(response := Some(Kept(s.queue.frames, s.queue.ackSent)), queue := Drained(s.queue))
    case CanisterSends(frame) => Advance(s, s.transport.(sent := s.transport.sent + [frame]))
    case CanisterCalls(target, args) => Advance(s, CircuitTransport.Invoke(s.transport, target, args))
    case CanisterCancels(id) => Advance(s, CircuitTransport.Cancel(s.transport, id))
  }

  lemma {:induction false} RunSentGrows(s: State, split: Split)
    ensures s.sent <= RunFrames(s, split).state.sent
    decreases |split.frames|
  {
    if split.frames != [] {
      var next := Dispatch(s, split.frames[0]);
      assert s.sent <= next.state.sent;
      if next.error == None { RunSentGrows(next.state, Split(split.frames[1..], split.error)); }
    }
  }

  lemma {:induction false} SentGrows(s: State, payload: Bytes)
    ensures s.sent <= Handle(s, payload).state.sent
  {
    if s.handshakeComplete {
      RunSentGrows(s, SplitFrames(payload, 0));
    } else if SeparatorIndex(payload) < |payload| {
      RunSentGrows(Opened(s), SplitFrames(payload, SeparatorIndex(payload) + 1));
    }
  }

  // ─── When the shortcut shows ─────────────────────────────────────────

  /** The lone-handshake timer finds the greeting still buffered after the bridge's ack went out. */
  predicate LateTimer(s: Protocol, m: Move) {
    m.TimerFired? && s.entry.pending.Some? && s.entry.ackInjected
  }

  /** The last fetch of a hold, which never strips, reads a response while a strip is owed. */
  predicate UnstrippedFetch(s: Protocol, m: Move) {
    m.ResponseArrives? && s.poll == Last && s.entry.stripDupAck && s.response.Some? && Concat(s.response.value) != []
  }

  predicate Slips(s: Protocol, m: Move) { LateTimer(s, m) || UnstrippedFetch(s, m) }

  /** States reached from the start by enabled moves. */
  ghost predicate IsRun(hello: Bytes, states: seq<Protocol>, moves: seq<Move>) {
    && |states| == |moves| + 1 && states[0] == START
    && forall i | 0 <= i < |moves| ::
         Enabled(hello, states[i], moves[i]) && states[i + 1] == Next(hello, states[i], moves[i])
  }

  /** One of the first `n` moves slipped. */
  predicate Slipped(states: seq<Protocol>, moves: seq<Move>, n: nat)
    requires n <= |moves| < |states|
  {
    exists i | 0 <= i < n :: Slips(states[i], moves[i])
  }

  /** The client's POST reaches the canister before the greeting the timer sent. */
  predicate Overtakes(s: Protocol, m: Move) { m.CanisterGetsPost? && s.lone.Some? }

  /** One of the first `n` moves was an overtaking POST. */
  predicate Overtaken(states: seq<Protocol>, moves: seq<Move>, n: nat)
    requires n <= |moves| < |states|
  {
    exists i | 0 <= i < n :: Overtakes(states[i], moves[i])
  }

  // ─── What every run keeps: towards the client ────────────────────────

  function OrEmpty<T>(o: Option<seq<T>>): seq<T> { match o case None => [] case Some(b) => b }

  function InFlight(s: Protocol): seq<Bytes> { OrEmpty(s.response) }

  predicate PollTidy(s: Protocol) {
    && (s.poll == Direct ==> !s.entry.ackInjected)
    && (s.entry.ackInjected ==> s.entry.established)
    && (s.poll == Idle ==> s.response == None)
  }

  /** Nothing has come from the transport, and the client has the bridge's ack or nothing. */
  predicate Mute(s: Protocol) {
    && !s.transport.handshakeComplete && s.transport.sent == [] && s.queue == Queue([], false) && InFlight(s) == []
    && s.received == (if s.entry.ackInjected then ACK else [])
    && (s.post.Some? ==> s.entry.ackInjected)
  }

  /** How the greeting left the bridge: combined with the client's first frames, or alone by the timer. */
  predicate GreetingLeft(s: Protocol, slipped: bool) {
    && (s.lone.Some? ==> !s.entry.stripDupAck)
    && if s.entry.stripDupAck then s.entry.ackInjected && !slipped else slipped == s.entry.ackInjected
  }

  /** Until the circuit is up. */
  predicate Waiting(s: Protocol, slipped: bool) {
    && Mute(s)
    && (s.clientBytes == [] ==> s.entry.pending == None && !s.entry.ackInjected)
    && if s.clientBytes == [] || s.entry.pending.Some?
       then s.post == None && s.lone == None && !s.entry.stripDupAck && !slipped
       else GreetingLeft(s, slipped)
  }

  ghost predicate AllServerFrames(fs: seq<Bytes>) {
    forall i | 0 <= i < |fs| :: ServerFrame(fs[i])
  }

  /** An ack, then written frames; or written frames only, once the ack has gone. */
  ghost predicate AckLed(fs: seq<Bytes>, acked: bool) {
    if acked then AllServerFrames(fs) else fs != [] && fs[0] == ACK && AllServerFrames(fs[1..])
  }

  /** The bridge's ack, unless it took the place of the transport's. */
  function Extra(s: Protocol, slipped: bool): Bytes {
    if s.entry.ackInjected && (s.entry.stripDupAck || slipped) then ACK else []
  }

  predicate Balanced(s: Protocol, slipped: bool) {
    s.received + Concat(InFlight(s)) + Concat(s.queue.frames) == Extra(s, slipped) + Concat(s.transport.sent)
  }

  /** Once the circuit is up: every byte sent is delivered, on its way or queued. */
  ghost predicate Downstream(s: Protocol, slipped: bool) {
    && AckLed(s.transport.sent, false)
    && AckLed(s.queue.frames, s.queue.ackSent)
    && (InFlight(s) != [] ==> s.queue.ackSent)
    && Balanced(s, slipped)
  }

  /** While a strip is owed the server's ack is still to come; afterwards only data is. */
  ghost predicate StripOwed(s: Protocol, slipped: bool) {
    && (s.entry.stripDupAck ==> s.entry.ackInjected && s.poll != Direct)
    && (slipped ==> s.entry.ackInjected)
    && (s.entry.stripDupAck && !slipped ==>
          s.received == ACK && (s.queue.ackSent ==> AckLed(InFlight(s), false)))
    && (s.entry.stripDupAck && slipped ==> s.queue.ackSent && AllServerFrames(InFlight(s)))
  }

  ghost predicate Flowing(s: Protocol, slipped: bool) {
    Downstream(s, slipped) && StripOwed(s, slipped)
  }

  /** Once the circuit is up; a greeting sent alone is still under way only after a late timer. */
  ghost predicate Running(s: Protocol, slipped: bool) {
    && s.transport.handshakeComplete && s.clientBytes != [] && s.entry.pending == None
    && (s.lone.Some? ==> slipped)
    && Flowing(s, slipped)
  }

  ghost predicate ClientSide(s: Protocol, slipped: bool) {
    PollTidy(s) && (Waiting(s, slipped) || Running(s, slipped))
  }

  // ─── What every run keeps: towards the canister ──────────────────────

  /** The frames under way make up the client's POST. */
  predicate PostingIs(s: Protocol) {
    && AllWritable(s.posting) && |Wire(s.posting)| < 0x8000_0000
    && s.post == if s.posting == [] then None else Some(Wire(s.posting))
  }

  predicate Untouched(s: Protocol) {
    s.transport == FRESH && s.inbox == [] && s.handled == [] && s.posted == s.posting
  }

  /** The client has not greeted. */
  predicate Silent(s: Protocol) {
    && Untouched(s) && s.clientBytes == [] && s.posting == [] && s.post == None && s.lone == None
    && s.entry.pending == None
  }

  /** The bridge holds the greeting back. */
  predicate Buffering(hello: Bytes, s: Protocol) {
    && Untouched(s) && s.clientBytes == Greeting(hello) && s.posting == [] && s.post == None && s.lone == None
    && s.entry.pending == Some(Greeting(hello))
  }

  /** The greeting is under way with the client's first frames behind it. */
  predicate Combined(hello: Bytes, s: Protocol) {
    && Untouched(s) && s.entry.pending == None && s.lone == None && AllWritable(s.posting)
    && s.clientBytes == Greeting(hello) + Wire(s.posting) && |s.clientBytes| < 0x8000_0000
    && s.post == Some(s.clientBytes)
  }

  /** The greeting is under way alone, and a POST of the client's may be under way beside it. */
  predicate Alone(hello: Bytes, s: Protocol) {
    && Untouched(s) && s.entry.pending == None && s.lone == Some(Greeting(hello)) && PostingIs(s)
    && s.clientBytes == Greeting(hello) + Wire(s.posting)
  }

  /** Once the circuit is up: the client's frames reach the canister in order. */
  predicate Upstream(s: Protocol) {
    && s.entry.pending == None && s.clientBytes != [] && s.lone == None && PostingIs(s)
    && s.clientBytes == s.inbox + OrEmpty(s.post) && s.posted == s.handled + s.posting
    && s.transport.handshakeComplete && s.transport.raised == Calls(s.handled)
  }

  predicate InOrder(hello: Bytes, s: Protocol) {
    && s.rejected == 0
    && (Silent(s) || Buffering(hello, s) || Combined(hello, s) || Alone(hello, s) || Upstream(s))
  }

  /** What the canister got opens with something else than what the client posted. */
  predicate Disordered(s: Protocol) {
    && |s.inbox| >= 2 && |s.clientBytes| >= 2
    && (s.inbox[0] != s.clientBytes[0] || s.inbox[1] != s.clientBytes[1])
  }

  ghost predicate Inv(hello: Bytes, s: Protocol, slipped: bool, overtaken: bool) {
    && ClientSide(s, slipped) && (overtaken ==> slipped)
    && if overtaken then Disordered(s) else InOrder(hello, s)
  }

  // ─── What the transport sends ────────────────────────────────────────

  /** A run of frames never looks like a handshake, not even in its first two bytes. */
  lemma {:induction false} WireIsNoHandshake(fs: seq<Frame>)
    requires fs != [] && AllWritable(fs)
    ensures |Wire(fs)| >= 2 && (Wire(fs)[0] != HandshakePrefix()[0] || Wire(fs)[1] != HandshakePrefix()[1])
    ensures !(HandshakePrefix() <= Wire(fs))
  {
    var body := Body(fs[0]);
    BodyHead(fs[0]);
    assert HandshakePrefix()[0] == 0x7B && HandshakePrefix()[1] == 0x22;
    assert EncVarint(|body|)[0] == 0x7B ==> |EncVarint(|body|)| == 1 && Wire(fs)[1] == body[0];
  }

  lemma {:induction false} DispatchSends(s: State, frame: Bytes) returns (frames: seq<Bytes>)
    ensures var t := Dispatch(s, frame).state;
            t.sent == s.sent + frames && t.handshakeComplete == s.handshakeComplete
    ensures AllServerFrames(frames)
  {
    var t := Dispatch(s, frame).state;
    if t.sent == s.sent {
      frames := [];
    } else {
      assert IsServerBody(PING_BODY);
      frames := [PingFrame()];
    }
  }

  lemma {:induction false} RunSends(s: State, split: Split) returns (frames: seq<Bytes>)
    ensures var t := RunFrames(s, split).state;
            t.sent == s.sent + frames && t.handshakeComplete == s.handshakeComplete
    ensures AllServerFrames(frames)
    decreases |split.frames|
  {
    if split.frames == [] { return []; }
    frames := DispatchSends(s, split.frames[0]);
    var next := Dispatch(s, split.frames[0]);
    if next.error == None {
      var more := RunSends(next.state, Split(split.frames[1..], split.error));
      assert s.sent + (frames + more) == (s.sent + frames) + more;
      frames := frames + more;
    }
  }

  /** Whatever the bytes: an open transport sends written frames; a fresh one opens with its ack, or stays as it was. */
  lemma {:induction false} HandleSends(s: State, payload: Bytes) returns (frames: seq<Bytes>)
    ensures var t := Handle(s, payload).state;
            && t.sent == s.sent + frames
            && (s.handshakeComplete ==> t.handshakeComplete && AllServerFrames(frames))
            && (!s.handshakeComplete && t.handshakeComplete ==> AckLed(frames, false))
            && (!t.handshakeComplete ==> t == s && Handle(s, payload).error.Some?)
  {
    if s.handshakeComplete {
      frames := RunSends(s, SplitFrames(payload, 0));
    } else if Handle(s, payload) == Outcome(s, Some(FormatError)) {
      frames := [];
    } else {
      frames := OpeningSends(s, SplitFrames(payload, SeparatorIndex(payload) + 1));
    }
  }

  lemma {:induction false} OpeningSends(s: State, split: Split) returns (frames: seq<Bytes>)
    ensures var t := RunFrames(Opened(s), split).state; t.sent == s.sent + frames && t.handshakeComplete
    ensures AckLed(frames, false)
  {
    var more := RunSends(Opened(s), split);
    frames := [ACK] + more;
    assert frames[1..] == more;
    assert s.sent + frames == s.sent + [ACK] + more;
  }

  // ─── Moves once the circuit is up ────────────────────────────────────

  lemma {:induction false} CallsAppend(a: seq<Frame>, b: seq<Frame>)
    ensures Calls(a + b) == Calls(a) + Calls(b)
    decreases |a|
  {
    if a == [] {
      assert a + b == b;
    } else {
      assert (a + b)[0] == a[0] && (a + b)[1..] == a[1..] + b;
      CallsAppend(a[1..], b);
    }
  }

  lemma {:induction false} RepliesAreServerFrames(fs: seq<Frame>)
    ensures AllServerFrames(Replies(fs))
  {
    if fs != [] {
      RepliesAreServerFrames(fs[1..]);
      assert IsServerBody(PING_BODY);
    }
  }

  /** A queue led by the ack, or free of it, is drained whole. */
  lemma {:induction false} AllKept(frames: seq<Bytes>, acked: bool)
    requires AckLed(frames, acked)
    ensures Kept(frames, acked) == frames && Drained(Queue(frames, acked)) == Queue([], true)
  {
    if acked {
      AckIsNeverData(frames);
      DataKept(frames, true);
    } else {
      AckIsNeverData(frames[1..]);
      DataKept(frames[1..], true);
      assert frames == [ACK] + frames[1..];
      assert ACK in frames;
    }
  }

  lemma {:induction false} DataKept(frames: seq<Bytes>, acked: bool)
    requires ACK !in frames
    ensures Kept(frames, acked) == frames
  {
    if frames != [] {
      assert frames == [frames[0]] + frames[1..];
      DataKept(frames[1..], acked);
    }
  }

  /** What the server's direction depends on, but for the frames themselves. */
  predicate SameDownstream(s: Protocol, n: Protocol) {
    && n.received == s.received && n.response == s.response && n.queue == s.queue
    && n.transport.sent == s.transport.sent && (n.poll == Direct ==> s.poll == Direct || !s.entry.stripDupAck)
    && n.entry.ackInjected == s.entry.ackInjected && n.entry.stripDupAck == s.entry.stripDupAck
  }

  lemma {:induction false} DownstreamSame(s: Protocol, n: Protocol, slipped: bool)
    requires Downstream(s, slipped) && StripOwed(s, slipped) && SameDownstream(s, n)
    ensures Downstream(n, slipped) && StripOwed(n, slipped)
  {
  }

  lemma {:induction false} LedGrows(fs: seq<Bytes>, frames: seq<Bytes>, acked: bool)
    requires AckLed(fs, acked) && AllServerFrames(frames)
    ensures AckLed(fs + frames, acked)
  {
    assert !acked ==> (fs + frames)[1..] == fs[1..] + frames;
  }

  lemma {:induction false} BothGrow(a: Bytes, b: Bytes, c: Bytes, k: Bytes, p: Bytes, d: Bytes)
    requires a + b + c == k + p
    ensures a + b + (c + d) == k + (p + d)
  {
    assert a + b + (c + d) == (a + b + c) + d;
  }

  lemma {:induction false} PromiseGrows(s: Protocol, t: State, frames: seq<Bytes>, slipped: bool)
    requires Balanced(s, slipped) && t.sent == s.transport.sent + frames
    ensures Balanced(Advance(s, t), slipped)
  {
    var n := Advance(s, t);
    assert n.queue.frames == s.queue.frames + frames;
    ConcatAppend(s.queue.frames, frames);
    ConcatAppend(s.transport.sent, frames);
    BothGrow(s.received, Concat(InFlight(s)), Concat(s.queue.frames),
             Extra(s, slipped), Concat(s.transport.sent), Concat(frames));
  }

  /** New frames from the transport go to the end of the queue and of the promise. */
  lemma {:induction false} AdvanceKeeps(s: Protocol, t: State, frames: seq<Bytes>, slipped: bool)
    requires Downstream(s, slipped) && StripOwed(s, slipped)
    requires t.sent == s.transport.sent + frames && AllServerFrames(frames)
    ensures Downstream(Advance(s, t), slipped) && StripOwed(Advance(s, t), slipped)
  {
    assert t.sent[|s.transport.sent|..] == frames;
    LedGrows(s.queue.frames, frames, s.queue.ackSent);
    LedGrows(s.transport.sent, frames, false);
    PromiseGrows(s, t, frames, slipped);
  }

  lemma {:induction false} Speech(hello: Bytes, s: Protocol, m: Move) returns (frames: seq<Bytes>)
    requires Enabled(hello, s, m) && (m.CanisterSends? || m.CanisterCalls? || m.CanisterCancels?)
    ensures Next(hello, s, m).transport.sent == s.transport.sent + frames && AllServerFrames(frames)
  {
    match m
    case CanisterSends(frame) => frames := [frame];
    case CanisterCalls(target, args) =>
      if target == [] || !InvokeFits(s.transport.issued + 1, target, args) { return []; }
      var body := InvocationBody(Some(InvocationId(s.transport.issued + 1)), target, args);
      assert IsServerBody(body);
      frames := [Framed(body)];
    case CanisterCancels(_) => frames := [];
  }

  // ─── Towards the client, move by move ────────────────────────────────

  /** What the client's direction depends on, but for the frames themselves. */
  predicate SameClientSide(s: Protocol, n: Protocol) {
    && n.received == s.received && n.response == s.response && n.entry == s.entry && n.poll == s.poll
    && n.clientBytes == s.clientBytes
  }

  /** The ack opens the circuit for the client. */
  lemma {:induction false} Opens(s: Protocol, n: Protocol, frames: seq<Bytes>, slipped: bool)
    requires PollTidy(s) && Waiting(s, slipped) && (s.post.Some? || s.lone.Some?) && SameClientSide(s, n)
    requires n.transport.sent == frames && n.queue == Queue(frames, false) && AckLed(frames, false)
    ensures Flowing(n, slipped)
  {
    assert n.received + [] + Concat(frames) == n.received + Concat(frames);
    assert Extra(n, slipped) == n.received;
  }

  /** A POST that leaves the transport waiting. */
  lemma {:induction false} StaysWaiting(s: Protocol, n: Protocol, slipped: bool)
    requires ClientSide(s, slipped) && Waiting(s, slipped) && SameClientSide(s, n)
    requires n.transport == s.transport && n.queue == s.queue
    requires (n.post == None || n.post == s.post) && (n.lone == None || n.lone == s.lone)
    ensures ClientSide(n, slipped)
  {
  }

  /** A POST to an open circuit. */
  lemma {:induction false} StaysRunning(s: Protocol, n: Protocol, t: State, frames: seq<Bytes>, slipped: bool)
    requires ClientSide(s, slipped) && Running(s, slipped) && SameClientSide(s, n)
    requires t.sent == s.transport.sent + frames && t.handshakeComplete && AllServerFrames(frames)
    requires n.transport == t && n.queue == Advance(s, t).queue && (n.lone == None || n.lone == s.lone)
    ensures ClientSide(n, slipped)
  {
    AdvanceKeeps(s, t, frames, slipped);
    DownstreamSame(Advance(s, t), n, slipped);
  }

  /** Whatever a POST holds, the client's direction stays in balance. */
  lemma {:induction false} PostKeepsClientSide(s: Protocol, n: Protocol, bytes: Bytes, slipped: bool)
    requires ClientSide(s, slipped) && (s.post.Some? || s.lone.Some?) && SameClientSide(s, n)
    requires n.transport == Handle(s.transport, bytes).state && s.transport.sent <= n.transport.sent
    requires n.queue == Advance(s, n.transport).queue
    requires (n.post == None || n.post == s.post) && (n.lone == None || (n.lone == s.lone && s.post.Some?))
    ensures ClientSide(n, slipped)
  {
    var frames := HandleSends(s.transport, bytes);
    assert n.transport.sent[|s.transport.sent|..] == frames;
    if Running(s, slipped) {
      StaysRunning(s, n, n.transport, frames, slipped);
    } else if n.transport.handshakeComplete {
      assert s.queue.frames + frames == frames && s.transport.sent + frames == frames;
      Opens(s, n, frames, slipped);
    } else {
      assert n.transport == s.transport;
      assert n.queue.frames == s.queue.frames;
      StaysWaiting(s, n, slipped);
    }
  }

  lemma {:induction false} CanisterTakes(hello: Bytes, s: Protocol, m: Move, slipped: bool)
    requires ClientSide(s, slipped) && Enabled(hello, s, m) && (m.CanisterGetsPost? || m.CanisterGetsLone?)
    ensures ClientSide(Next(hello, s, m), slipped)
  {
    var bytes := if m.CanisterGetsPost? then s.post.value else s.lone.value;
    SentGrows(s.transport, bytes);
    PostKeepsClientSide(s, Next(hello, s, m), bytes, slipped);
  }

  lemma {:induction false} CanisterSpeaks(hello: Bytes, s: Protocol, m: Move, slipped: bool)
    requires ClientSide(s, slipped) && Running(s, slipped) && Enabled(hello, s, m)
    requires m.CanisterSends? || m.CanisterCalls? || m.CanisterCancels?
    ensures ClientSide(Next(hello, s, m), slipped)
  {
    var n := Next(hello, s, m);
    var frames := Speech(hello, s, m);
    StaysRunning(s, n, n.transport, frames, slipped);
  }

  lemma {:induction false} WaitingPosts(hello: Bytes, s: Protocol, frames: seq<Frame>, slipped: bool)
    requires PollTidy(s) && Waiting(s, slipped) && ClientMayPost(hello, s, frames)
    ensures PollTidy(Next(hello, s, ClientPosts(frames))) && Waiting(Next(hello, s, ClientPosts(frames)), slipped)
  {
    WireIsNoHandshake(frames);
    assert s.received == ACK && s.entry.ackInjected;
  }

  lemma {:induction false} WaitingResponse(hello: Bytes, s: Protocol, slipped: bool)
    requires PollTidy(s) && Waiting(s, slipped) && s.response.Some?
    ensures var n := Next(hello, s, ResponseArrives); PollTidy(n) && Waiting(n, slipped)
  {
    assert Concat(s.response.value) == [];
    assert s.received + [] == s.received;
  }

  predicate ClientSideOnly(m: Move) {
    m.ClientGreets? || m.ClientPolls? || m.TimerFired? || m.HoldExpires? || m.CanisterAnswersPoll?
  }

  lemma {:induction false} WaitingMoves(hello: Bytes, s: Protocol, m: Move, slipped: bool)
    requires IsHello(hello) && PollTidy(s) && Waiting(s, slipped) && Enabled(hello, s, m) && ClientSideOnly(m)
    ensures var n := Next(hello, s, m); PollTidy(n) && Waiting(n, slipped || Slips(s, m))
  {
  }

  lemma {:induction false} AnswerBalanced(s: Protocol, n: Protocol, slipped: bool)
    requires Balanced(s, slipped) && InFlight(s) == [] && InFlight(n) == s.queue.frames && n.queue.frames == []
    requires n.received == s.received && n.entry == s.entry && n.transport == s.transport
    ensures Balanced(n, slipped)
  {
    var q := Concat(s.queue.frames);
    assert s.received + [] + q == s.received + q + [];
  }

  lemma {:induction false} CanisterAnswers(hello: Bytes, s: Protocol, slipped: bool)
    requires Flowing(s, slipped) && Enabled(hello, s, CanisterAnswersPoll)
    ensures Flowing(Next(hello, s, CanisterAnswersPoll), slipped)
  {
    AllKept(s.queue.frames, s.queue.ackSent);
    AnswerBalanced(s, Next(hello, s, CanisterAnswersPoll), slipped);
  }

  lemma {:induction false} QuietMoves(hello: Bytes, s: Protocol, m: Move, slipped: bool)
    requires ClientSide(s, slipped) && Running(s, slipped) && Enabled(hello, s, m)
    requires m.ClientPosts? || m.ClientPolls? || m.TimerFired? || m.HoldExpires?
    ensures ClientSide(Next(hello, s, m), slipped) && !Slips(s, m)
  {
    if m.ClientPosts? { WireIsNoHandshake(m.frames); }
    DownstreamSame(s, Next(hello, s, m), slipped);
  }

  // ─── A response arrives ──────────────────────────────────────────────

  /** A response given to the client as it came. */
  lemma {:induction false} GivenWhole(s: Protocol, n: Protocol, slipped: bool)
    requires Downstream(s, slipped) && s.response.Some?
    requires n == Deliver(s, Concat(s.response.value))
    ensures Downstream(n, slipped)
  {
    assert s.received + Concat(s.response.value) + [] == s.received + Concat(s.response.value);
  }

  lemma {:induction false} LastFetchSlips(s: Protocol, slipped: bool)
    requires Flowing(s, slipped) && s.poll == Last && s.response.Some?
    requires s.entry.stripDupAck && Concat(s.response.value) != []
    ensures var n := Deliver(s, Concat(s.response.value)); Downstream(n, true) && StripOwed(n, true)
  {
    GivenWhole(s, Deliver(s, Concat(s.response.value)), slipped);
  }

  lemma {:induction false} UnheldResponse(hello: Bytes, s: Protocol, slipped: bool)
    requires PollTidy(s) && Flowing(s, slipped) && s.response.Some? && s.poll != Holding
    ensures Flowing(Next(hello, s, ResponseArrives), slipped || Slips(s, ResponseArrives))
  {
    if Slips(s, ResponseArrives) {
      LastFetchSlips(s, slipped);
    } else {
      GivenWhole(s, Deliver(s, Concat(s.response.value)), slipped);
    }
  }

  lemma {:induction false} Unstack(a: Bytes, r: Bytes, q: Bytes, sent: Bytes)
    requires a + (a + r) + q == a + sent
    ensures a + r + [] + q == [] + sent
  {
    assert (a + (a + r) + q)[|a|..] == a + r + q;
    assert (a + sent)[|a|..] == sent;
  }

  /** The strip takes the server's ack, which is the first thing to arrive. */
  lemma {:induction false} StripTakesAck(s: Protocol, frames: seq<Bytes>)
    requires Balanced(s, false) && s.entry.ackInjected && s.entry.stripDupAck && s.received == ACK
    requires s.response == Some(frames) && AckLed(frames, false)
    ensures Concat(frames) == ACK + Concat(frames[1..])
    ensures Balanced(Deliver(s.(entry := s.entry.(stripDupAck := false)), Concat(frames)[|ACK|..]), false)
  {
    assert Concat(frames)[|ACK|..] == Concat(frames[1..]);
    Unstack(ACK, Concat(frames[1..]), Concat(s.queue.frames), Concat(s.transport.sent));
  }

  lemma {:induction false} HeldStrip(hello: Bytes, s: Protocol, slipped: bool)
    requires PollTidy(s) && Flowing(s, slipped) && s.response.Some? && s.poll == Holding
    requires s.entry.stripDupAck && Concat(s.response.value) != []
    ensures Flowing(Next(hello, s, ResponseArrives), slipped)
  {
    var frames := s.response.value;
    if slipped {
      AckIsNeverData(frames);
      GivenWhole(s, Deliver(s, Concat(frames)), slipped);
    } else {
      StripTakesAck(s, frames);
    }
  }

  lemma {:induction false} ResponseWhileHolding(hello: Bytes, s: Protocol, slipped: bool)
    requires PollTidy(s) && Flowing(s, slipped) && s.response.Some? && s.poll == Holding
    ensures Flowing(Next(hello, s, ResponseArrives), slipped)
  {
    if Concat(s.response.value) == [] {
      assert !AckLed(s.response.value, false);
    } else if s.entry.stripDupAck {
      HeldStrip(hello, s, slipped);
    } else {
      GivenWhole(s, Deliver(s, Concat(s.response.value)), slipped);
    }
  }

  lemma {:induction false} ResponseKeeps(hello: Bytes, s: Protocol, slipped: bool)
    requires ClientSide(s, slipped) && Running(s, slipped) && s.response.Some?
    ensures ClientSide(Next(hello, s, ResponseArrives), slipped || Slips(s, ResponseArrives))
  {
    if s.poll == Holding {
      ResponseWhileHolding(hello, s, slipped);
    } else {
      UnheldResponse(hello, s, slipped);
    }
  }

  // ─── Towards the client, every move ──────────────────────────────────

  lemma {:induction false} RunningKeeps(hello: Bytes, s: Protocol, m: Move, slipped: bool)
    requires ClientSide(s, slipped) && Running(s, slipped) && Enabled(hello, s, m)
    ensures ClientSide(Next(hello, s, m), slipped || Slips(s, m))
  {
    match m
    case CanisterGetsPost => CanisterTakes(hello, s, m, slipped);
    case CanisterGetsLone => CanisterTakes(hello, s, m, slipped);
    case CanisterAnswersPoll => CanisterAnswers(hello, s, slipped);
    case CanisterSends(_) => CanisterSpeaks(hello, s, m, slipped);
    case CanisterCalls(_, _) => CanisterSpeaks(hello, s, m, slipped);
    case CanisterCancels(_) => CanisterSpeaks(hello, s, m, slipped);
    case ResponseArrives => ResponseKeeps(hello, s, slipped);
    case _ => QuietMoves(hello, s, m, slipped);
  }

  lemma {:induction false} ClientSideKeeps(hello: Bytes, s: Protocol, m: Move, slipped: bool)
    requires IsHello(hello) && ClientSide(s, slipped) && Enabled(hello, s, m)
    ensures ClientSide(Next(hello, s, m), slipped || Slips(s, m))
  {
    if Running(s, slipped) {
      RunningKeeps(hello, s, m, slipped);
    } else if m.CanisterGetsPost? || m.CanisterGetsLone? {
      CanisterTakes(hello, s, m, slipped);
    } else if m.ClientPosts? {
      WaitingPosts(hello, s, m.frames, slipped);
    } else if m.ResponseArrives? {
      WaitingResponse(hello, s, slipped);
    } else {
      WaitingMoves(hello, s, m, slipped);
    }
  }

  // ─── Towards the canister, move by move ──────────────────────────────

  /** What the canister's direction depends on. */
  predicate SameUpstream(s: Protocol, n: Protocol) {
    && n.clientBytes == s.clientBytes && n.posted == s.posted && n.entry.pending == s.entry.pending
    && n.post == s.post && n.posting == s.posting && n.lone == s.lone && n.inbox == s.inbox
    && n.handled == s.handled && n.rejected == s.rejected && n.transport == s.transport
  }

  lemma {:induction false} InOrderSame(hello: Bytes, s: Protocol, n: Protocol)
    requires InOrder(hello, s) && SameUpstream(s, n)
    ensures InOrder(hello, n)
  {
  }

  lemma {:induction false} QuietUpstream(hello: Bytes, s: Protocol, m: Move)
    requires Enabled(hello, s, m)
    requires m.ClientPolls? || m.HoldExpires? || m.ResponseArrives? || m.CanisterAnswersPoll?
    ensures SameUpstream(s, Next(hello, s, m))
  {
  }

  lemma {:induction false} InOrderTimer(hello: Bytes, s: Protocol)
    requires IsHello(hello) && InOrder(hello, s) && s.timerArmed
    ensures InOrder(hello, Next(hello, s, TimerFired))
  {
    if Buffering(hello, s) {
      assert Greeting(hello) + Wire([]) == Greeting(hello);
      assert Alone(hello, Next(hello, s, TimerFired));
    } else {
      InOrderSame(hello, s, Next(hello, s, TimerFired));
    }
  }

  lemma {:induction false} InOrderSpeaks(hello: Bytes, s: Protocol, m: Move)
    requires InOrder(hello, s) && Enabled(hello, s, m)
    requires m.CanisterSends? || m.CanisterCalls? || m.CanisterCancels?
    ensures InOrder(hello, Next(hello, s, m))
  {
    assert Upstream(s);
    assert Upstream(Next(hello, s, m));
  }

  lemma {:induction false} InOrderGreets(hello: Bytes, s: Protocol)
    requires IsHello(hello) && InOrder(hello, s) && s.clientBytes == []
    ensures InOrder(hello, Next(hello, s, ClientGreets))
  {
    assert Silent(s);
    assert Buffering(hello, Next(hello, s, ClientGreets));
  }

  /** The client's frames go behind a buffered greeting. */
  lemma {:induction false} PostsCombined(hello: Bytes, s: Protocol, frames: seq<Frame>)
    requires Buffering(hello, s) && ClientMayPost(hello, s, frames)
    ensures Combined(hello, Next(hello, s, ClientPosts(frames)))
  {
    WireIsNoHandshake(frames);
    assert [] + frames == frames;
  }

  /** The client's frames beside a greeting on its way. */
  lemma {:induction false} PostsBeside(hello: Bytes, s: Protocol, frames: seq<Frame>)
    requires Alone(hello, s) && ClientMayPost(hello, s, frames)
    ensures Alone(hello, Next(hello, s, ClientPosts(frames)))
  {
    WireIsNoHandshake(frames);
    assert s.posting == [] && [] + frames == frames;
    assert Greeting(hello) + Wire([]) == Greeting(hello);
  }

  lemma {:induction false} PostsUpstream(hello: Bytes, s: Protocol, frames: seq<Frame>)
    requires Upstream(s) && ClientMayPost(hello, s, frames)
    ensures Upstream(Next(hello, s, ClientPosts(frames)))
  {
    WireIsNoHandshake(frames);
    assert s.posting == [] && [] + frames == frames;
    assert s.inbox + [] == s.inbox && s.handled + [] == s.handled;
  }

  lemma {:induction false} InOrderPosts(hello: Bytes, s: Protocol, frames: seq<Frame>, slipped: bool)
    requires ClientSide(s, slipped) && InOrder(hello, s) && ClientMayPost(hello, s, frames)
    ensures InOrder(hello, Next(hello, s, ClientPosts(frames)))
  {
    assert !Silent(s) && !Combined(hello, s);
    if Buffering(hello, s) {
      PostsCombined(hello, s, frames);
    } else if Alone(hello, s) {
      PostsBeside(hello, s, frames);
    } else {
      PostsUpstream(hello, s, frames);
    }
  }

  /** The greeting opens the circuit, with or without frames behind it. */
  lemma {:induction false} GreetingHandled(hello: Bytes, fs: seq<Frame>)
    requires IsHello(hello) && AllWritable(fs) && |Greeting(hello) + Wire(fs)| < 0x8000_0000
    ensures var o := Handle(FRESH, Greeting(hello) + Wire(fs));
            o == Outcome(Effects(Opened(FRESH), fs), None) && o.state.handshakeComplete && o.state.raised == Calls(fs)
  {
    HandshakeThenWire(FRESH, hello, fs);
    EffectsSummed(Opened(FRESH), fs);
    EffectsKeepHandshake(Opened(FRESH), fs);
    assert FRESH.raised + Calls(fs) == Calls(fs);
  }

  lemma {:induction false} GreetingAlone(hello: Bytes)
    requires IsHello(hello)
    ensures Handle(FRESH, Greeting(hello)) == Outcome(Opened(FRESH), None)
  {
    assert Greeting(hello) + Wire([]) == Greeting(hello);
    GreetingHandled(hello, []);
  }

  lemma {:induction false} CombinedTaken(hello: Bytes, s: Protocol)
    requires IsHello(hello) && Combined(hello, s)
    ensures Upstream(Next(hello, s, CanisterGetsPost))
    ensures Handle(s.transport, s.post.value).error == None
  {
    var n := Next(hello, s, CanisterGetsPost);
    GreetingHandled(hello, s.posting);
    assert n.handled == s.posting && n.posting == [] && n.posted == n.handled + n.posting;
    assert n.inbox == s.clientBytes && n.clientBytes == n.inbox + OrEmpty(n.post);
  }

  lemma {:induction false} AloneOpens(hello: Bytes, s: Protocol, o: Outcome)
    requires Alone(hello, s) && o == Outcome(Opened(FRESH), None)
    ensures Upstream(LoneTaken(s, o))
  {
    var n := LoneTaken(s, o);
    assert n.inbox == Greeting(hello) && n.posted == n.handled + n.posting;
    assert s.posting == [] ==> Wire(s.posting) == [];
  }

  lemma {:induction false} AloneTaken(hello: Bytes, s: Protocol)
    requires IsHello(hello) && Alone(hello, s)
    ensures Upstream(Next(hello, s, CanisterGetsLone))
    ensures Handle(s.transport, s.lone.value).error == None
  {
    var o := Outcome(Opened(FRESH), None);
    GreetingAlone(hello);
    AloneOpens(hello, s, o);
    assert Next(hello, s, CanisterGetsLone) == LoneTaken(s, o);
  }

  lemma {:induction false} UpstreamTaken(hello: Bytes, s: Protocol)
    requires Upstream(s) && s.post.Some?
    ensures Upstream(Next(hello, s, CanisterGetsPost))
    ensures Handle(s.transport, s.post.value).error == None
  {
    var n := Next(hello, s, CanisterGetsPost);
    RunWire(s.transport, s.posting);
    EffectsSummed(s.transport, s.posting);
    EffectsKeepHandshake(s.transport, s.posting);
    CallsAppend(s.handled, s.posting);
    assert n.clientBytes == n.inbox + OrEmpty(n.post) && n.posted == n.handled + n.posting;
  }

  lemma {:induction false} InOrderTakes(hello: Bytes, s: Protocol, m: Move)
    requires IsHello(hello) && InOrder(hello, s) && Enabled(hello, s, m)
    requires (m.CanisterGetsPost? && !Overtakes(s, m)) || m.CanisterGetsLone?
    ensures InOrder(hello, Next(hello, s, m))
  {
    if m.CanisterGetsLone? {
      AloneTaken(hello, s);
    } else if Combined(hello, s) {
      CombinedTaken(hello, s);
    } else {
      UpstreamTaken(hello, s);
    }
  }

  /** The client's frames come first: what the canister has does not open like the client's bytes. */
  lemma {:induction false} OvertakenIsDisordered(hello: Bytes, s: Protocol)
    requires IsHello(hello) && Alone(hello, s) && s.post.Some?
    ensures Disordered(Next(hello, s, CanisterGetsPost))
  {
    WireIsNoHandshake(s.posting);
    PostReaches(hello, s);
    assert [] + s.post.value == s.post.value;
  }

  lemma {:induction false} PostReaches(hello: Bytes, s: Protocol)
    requires s.post.Some?
    ensures var n := Next(hello, s, CanisterGetsPost);
            n.inbox == s.inbox + s.post.value && n.clientBytes == s.clientBytes
  {
  }

  lemma {:induction false} DisorderStays(hello: Bytes, s: Protocol, m: Move)
    requires Disordered(s) && Enabled(hello, s, m)
    ensures Disordered(Next(hello, s, m))
  {
    var n := Next(hello, s, m);
    assert s.inbox <= n.inbox && s.clientBytes <= n.clientBytes;
  }

  lemma {:induction false} InOrderKeeps(hello: Bytes, s: Protocol, m: Move, slipped: bool)
    requires IsHello(hello) && ClientSide(s, slipped) && InOrder(hello, s) && Enabled(hello, s, m) && !Overtakes(s, m)
    ensures InOrder(hello, Next(hello, s, m))
  {
    match m
    case ClientGreets => InOrderGreets(hello, s);
    case ClientPosts(frames) => InOrderPosts(hello, s, frames, slipped);
    case TimerFired => InOrderTimer(hello, s);
    case CanisterGetsPost => InOrderTakes(hello, s, m);
    case CanisterGetsLone => InOrderTakes(hello, s, m);
    case CanisterSends(_) => InOrderSpeaks(hello, s, m);
    case CanisterCalls(_, _) => InOrderSpeaks(hello, s, m);
    case CanisterCancels(_) => InOrderSpeaks(hello, s, m);
    case _ =>
      QuietUpstream(hello, s, m);
      InOrderSame(hello, s, Next(hello, s, m));
  }

  // ─── Every run ───────────────────────────────────────────────────────

  /** Only a greeting sent after the bridge's ack can be overtaken. */
  lemma {:induction false} OvertakingSlipped(hello: Bytes, s: Protocol, m: Move, slipped: bool)
    requires ClientSide(s, slipped) && InOrder(hello, s) && Enabled(hello, s, m) && Overtakes(s, m)
    ensures slipped && Alone(hello, s)
  {
    assert Waiting(s, slipped);
  }

  lemma {:induction false} MoveKeeps(hello: Bytes, s: Protocol, m: Move, slipped: bool, overtaken: bool)
    requires IsHello(hello) && Inv(hello, s, slipped, overtaken) && Enabled(hello, s, m)
    ensures Inv(hello, Next(hello, s, m), slipped || Slips(s, m), overtaken || Overtakes(s, m))
  {
    ClientSideKeeps(hello, s, m, slipped);
    if overtaken {
      DisorderStays(hello, s, m);
    } else if Overtakes(s, m) {
      OvertakingSlipped(hello, s, m, slipped);
      OvertakenIsDisordered(hello, s);
    } else {
      InOrderKeeps(hello, s, m, slipped);
    }
  }

  lemma {:induction false} OneMoreMove(states: seq<Protocol>, moves: seq<Move>, n: nat)
    requires n < |moves| < |states|
    ensures Slipped(states, moves, n + 1) == (Slipped(states, moves, n) || Slips(states[n], moves[n]))
    ensures Overtaken(states, moves, n + 1) == (Overtaken(states, moves, n) || Overtakes(states[n], moves[n]))
  {
  }

  lemma {:induction false} EveryRunKeeps(hello: Bytes, states: seq<Protocol>, moves: seq<Move>, n: nat)
    requires IsHello(hello) && IsRun(hello, states, moves) && n <= |moves|
    ensures Inv(hello, states[n], Slipped(states, moves, n), Overtaken(states, moves, n))
  {
    if n == 0 {
      assert Waiting(START, false) && Silent(START);
    } else {
      var s, m := states[n - 1], moves[n - 1];
      EveryRunKeeps(hello, states, moves, n - 1);
      MoveKeeps(hello, s, m, Slipped(states, moves, n - 1), Overtaken(states, moves, n - 1));
      OneMoreMove(states, moves, n - 1);
    }
  }

  // ─── The shortcut is invisible ───────────────────────────────────────

  /** What a client without the bridge gets: the ack and every frame the transport sent. */
  function Unbridged(s: Protocol): Bytes {
    if s.transport.sent == [] then ACK else Concat(s.transport.sent)
  }

  /** The circuit is up and nothing is left for the client. */
  predicate Delivered(s: Protocol) {
    s.transport.handshakeComplete && InFlight(s) == [] && s.queue.frames == []
  }

  lemma {:induction false} FirstPart(a: Bytes, b: Bytes, c: Bytes, whole: Bytes)
    requires a + b + c == whole
    ensures a <= whole && (b == [] && c == [] ==> a == whole)
  {
    assert a + b + c == a + (b + c);
  }

  lemma {:induction false} StreamFacts(s: Protocol, slipped: bool)
    requires Running(s, slipped)
    ensures s.received <= (if slipped then ACK else []) + Concat(s.transport.sent)
    ensures Delivered(s) ==> s.received == (if slipped then ACK else []) + Concat(s.transport.sent)
  {
    if s.entry.stripDupAck && !slipped {
      assert [] + Concat(s.transport.sent) == Concat(s.transport.sent);
    } else {
      assert Extra(s, slipped) == if slipped then ACK else [];
      FirstPart(s.received, Concat(InFlight(s)), Concat(s.queue.frames), Extra(s, slipped) + Concat(s.transport.sent));
    }
  }

  /**
   In every reachable state: until a move slips, what the client has is a prefix of what it
   would get without the bridge; and when the circuit is up and all is delivered, it has
   exactly that, one ack and every server frame once and in order, if and only if no move
   slipped. In the client's stream a slip shows as one ack too many, and as nothing else,
   whatever reached the canister.
   */
  lemma {:induction false} ClientSeesNoBridge(hello: Bytes, states: seq<Protocol>, moves: seq<Move>, n: nat)
    requires IsHello(hello) && IsRun(hello, states, moves) && n <= |moves|
    ensures var s := states[n];
            && s.received <= (if Slipped(states, moves, n) then ACK else []) + Unbridged(s)
            && (Delivered(s) ==> (s.received == Unbridged(s) <==> !Slipped(states, moves, n)))
            && (Delivered(s) && Slipped(states, moves, n) ==> s.received == ACK + Unbridged(s))
  {
    var s, slipped := states[n], Slipped(states, moves, n);
    EveryRunKeeps(hello, states, moves, n);
    if Running(s, slipped) { StreamFacts(s, slipped); }
  }

  /** What the canister got, what is on its way and what the bridge holds back make up what the client posted. */
  predicate StreamsAgree(s: Protocol) {
    s.clientBytes == s.inbox + OrEmpty(s.lone) + OrEmpty(s.post) + OrEmpty(s.entry.pending)
  }

  /** The transport accepts each POST on its way; one beside the greeting only behind it. */
  ghost predicate Accepted(s: Protocol) {
    && (s.lone.Some? ==> Handle(s.transport, s.lone.value).error == None)
    && (s.post.Some? && s.lone == None ==> Handle(s.transport, s.post.value).error == None)
  }

  lemma {:induction false} OneStream(a: Bytes, b: Bytes)
    ensures [] + [] + [] + a == a && [] + [] + a + [] == a && [] + a + b + [] == a + b && a + [] + b + [] == a + b
  {
  }

  lemma {:induction false} OrderedStreams(hello: Bytes, s: Protocol)
    requires InOrder(hello, s)
    ensures StreamsAgree(s)
  {
    if Combined(hello, s) {
      OneStream(s.clientBytes, []);
    } else if Alone(hello, s) {
      OneStream(Greeting(hello), Wire(s.posting));
      assert Wire([]) == [];
    } else if Upstream(s) {
      OneStream(s.inbox, OrEmpty(s.post));
    } else {
      OneStream(s.clientBytes, []);
    }
  }

  lemma {:induction false} OrderedFrames(hello: Bytes, s: Protocol)
    requires InOrder(hello, s)
    ensures s.posted == s.handled + s.posting && s.transport.raised == Calls(s.handled)
  {
    if Silent(s) || Buffering(hello, s) || Combined(hello, s) || Alone(hello, s) { UntouchedFrames(s); }
  }

  lemma {:induction false} UntouchedFrames(s: Protocol)
    requires Untouched(s)
    ensures s.posted == s.handled + s.posting && s.transport.raised == Calls(s.handled)
  {
    assert [] + s.posting == s.posting;
  }

  lemma {:induction false} OrderedAccepted(hello: Bytes, s: Protocol)
    requires IsHello(hello) && InOrder(hello, s)
    ensures Accepted(s)
  {
    if Combined(hello, s) {
      CombinedTaken(hello, s);
    } else if Alone(hello, s) {
      AloneTaken(hello, s);
    } else if Upstream(s) && s.post.Some? {
      UpstreamTaken(hello, s);
    }
  }

  lemma {:induction false} DisorderedStreams(s: Protocol)
    requires Disordered(s)
    ensures !StreamsAgree(s)
  {
    var behind := OrEmpty(s.lone) + OrEmpty(s.post) + OrEmpty(s.entry.pending);
    assert s.inbox + OrEmpty(s.lone) + OrEmpty(s.post) + OrEmpty(s.entry.pending) == s.inbox + behind;
  }

  /**
   In every reachable state: the canister's bytes are the client's, byte for byte and in
   order, if and only if no POST of the client's was handled before a greeting the timer
   sent; then no POST was or will be rejected, and the transport has raised each invocation
   it got once and in order. Only after a late timer can a POST overtake.
   */
  lemma {:induction false} CanisterSeesNoBridge(hello: Bytes, states: seq<Protocol>, moves: seq<Move>, n: nat)
    requires IsHello(hello) && IsRun(hello, states, moves) && n <= |moves|
    ensures var s := states[n];
            && (StreamsAgree(s) <==> !Overtaken(states, moves, n))
            && (!Overtaken(states, moves, n) ==>
                  && s.rejected == 0 && Accepted(s)
                  && s.posted == s.handled + s.posting && s.transport.raised == Calls(s.handled))
            && (Overtaken(states, moves, n) ==> Slipped(states, moves, n))
  {
    EveryRunKeeps(hello, states, moves, n);
    if Overtaken(states, moves, n) {
      DisorderedStreams(states[n]);
    } else {
      OrderedStreams(hello, states[n]);
      OrderedFrames(hello, states[n]);
      OrderedAccepted(hello, states[n]);
    }
  }

  /** Frames that a fresh transport takes for a greeting. */
  predicate ReadAsGreeting(bytes: Bytes) {
    exists i: nat | i < |bytes| :: bytes[i] == SEPARATOR && SEPARATOR !in bytes[..i] && ValidHandshake(bytes[..i])
  }

  lemma {:induction false} FirstSeparator(bytes: Bytes, i: nat)
    requires i < |bytes| && bytes[i] == SEPARATOR && SEPARATOR !in bytes[..i]
    ensures SeparatorIndex(bytes) == i
  {
    if i > 0 {
      assert bytes[..i][0] == bytes[0] && bytes[..i][1..] == bytes[1..][..i - 1];
      FirstSeparator(bytes[1..], i - 1);
    }
  }

  lemma {:induction false} RejectedIff(bytes: Bytes)
    ensures Handle(FRESH, bytes) == Outcome(FRESH, Some(FormatError)) <==> !ReadAsGreeting(bytes)
    ensures ReadAsGreeting(bytes) ==> Handle(FRESH, bytes).state.handshakeComplete
  {
    var sep := SeparatorIndex(bytes);
    if ReadAsGreeting(bytes) {
      var i: nat :| i < |bytes| && bytes[i] == SEPARATOR && SEPARATOR !in bytes[..i] && ValidHandshake(bytes[..i]);
      FirstSeparator(bytes, i);
      RunKeepsHandshake(Opened(FRESH), SplitFrames(bytes, sep + 1));
    } else if sep < |bytes| {
      assert !ValidHandshake(bytes[..sep]);
    }
  }

  /**
   The first POST that overtakes is rejected and its frames are lost, if and only if they
   do not happen to hold a protocol's name before their first separator.
   */
  lemma {:induction false} OvertakingPostIsLost(hello: Bytes, states: seq<Protocol>, moves: seq<Move>, n: nat)
    requires IsHello(hello) && IsRun(hello, states, moves) && n < |moves|
    requires !Overtaken(states, moves, n) && Overtakes(states[n], moves[n])
    ensures var s, t := states[n], states[n + 1];
            && s.posting != [] && AllWritable(s.posting) && t.handled == s.posting
            && (t.rejected == 1 && t.transport == FRESH <==> !ReadAsGreeting(Wire(s.posting)))
  {
    var s := states[n];
    EveryRunKeeps(hello, states, moves, n);
    assert Alone(hello, s);
    RejectedIff(Wire(s.posting));
    assert [] + s.posting == s.posting;
  }

  lemma {:induction false} PrefixCancels(a: Bytes, b: Bytes, c: Bytes)
    ensures a + b <= a + c <==> b <= c
  {
    assert (a + b)[|a|..] == b && (a + c)[|a|..] == c;
    assert |b| <= |c| ==> (a + c)[..|a + b|] == a + c[..|b|];
  }

  /** When all is delivered the client's stream opens with a second ack if and only if a move slipped. */
  lemma {:induction false} SecondAckIffSlipped(hello: Bytes, states: seq<Protocol>, moves: seq<Move>, n: nat)
    requires IsHello(hello) && IsRun(hello, states, moves) && n <= |moves| && Delivered(states[n])
    ensures ACK <= states[n].received
    ensures ACK + ACK <= states[n].received <==> Slipped(states, moves, n)
  {
    var s, slipped := states[n], Slipped(states, moves, n);
    EveryRunKeeps(hello, states, moves, n);
    StreamFacts(s, slipped);
    var data := Concat(s.transport.sent[1..]);
    AckIsNeverData(s.transport.sent[1..]);
    assert Concat(s.transport.sent) == ACK + data;
    PrefixCancels(ACK, ACK, data);
  }

  // ─── Each of them happens ────────────────────────────────────────────

  datatype Trace = Trace(states: seq<Protocol>, moves: seq<Move>)

  ghost predicate IsTrace(hello: Bytes, r: Trace) { IsRun(hello, r.states, r.moves) }

  function LastState(r: Trace): Protocol
    requires r.states != []
  {
    r.states[|r.states| - 1]
  }

  lemma {:induction false} Then(hello: Bytes, r: Trace, m: Move, next: Protocol) returns (longer: Trace)
    requires IsTrace(hello, r)
    requires Enabled(hello, LastState(r), m) && Next(hello, LastState(r), m) == next
    ensures longer == Trace(r.states + [next], r.moves + [m])
    ensures IsTrace(hello, longer) && LastState(longer) == next
  {
    longer := Trace(r.states + [next], r.moves + [m]);
  }

  /** After the client greets and takes the bridge's ack. */
  function AckTaken(hello: Bytes): Protocol {
    START.(clientBytes := Greeting(hello), timerArmed := true, received := ACK,
           entry := Entry(Some(Greeting(hello)), true, false, true))
  }

  lemma {:induction false} GreetAndTakeAck(hello: Bytes) returns (r: Trace)
    requires IsHello(hello)
    ensures IsTrace(hello, r) && LastState(r) == AckTaken(hello)
  {
    var s := START.(clientBytes := Greeting(hello), timerArmed := true,
                    entry := Entry(Some(Greeting(hello)), false, false, false));
    r := Then(hello, Trace([START], []), ClientGreets, s);
    r := Then(hello, r, ClientPolls, AckTaken(hello));
  }

  /** The timer then finds the greeting still buffered. */
  function SentAlone(hello: Bytes): Protocol {
    AckTaken(hello).(timerArmed := false, entry := Entry(None, true, false, true), lone := Some(Greeting(hello)))
  }

  lemma {:induction false} TimerSendsGreeting(hello: Bytes) returns (r: Trace)
    requires IsHello(hello)
    ensures IsTrace(hello, r) && LastState(r) == SentAlone(hello)
  {
    r := GreetAndTakeAck(hello);
    r := Then(hello, r, TimerFired, SentAlone(hello));
  }

  /** The greeting sent alone reaches the canister. */
  lemma {:induction false} GreetingArrives(hello: Bytes, r0: Trace) returns (r: Trace)
    requires IsHello(hello) && IsTrace(hello, r0)
    requires LastState(r0).lone == Some(Greeting(hello)) && LastState(r0).transport == FRESH
    requires LastState(r0).queue == Queue([], false)
    ensures IsTrace(hello, r)
    ensures var s := LastState(r0);
            LastState(r) == s.(lone := None, inbox := s.inbox + Greeting(hello), transport := Opened(FRESH),
                               queue := Queue([ACK], false))
  {
    GreetingAlone(hello);
    r := Then(hello, r0, CanisterGetsLone, Next(hello, LastState(r0), CanisterGetsLone));
  }

  /** The server's ack reaches a client that has the bridge's. */
  lemma {:induction false} SecondAckFetched(hello: Bytes, r0: Trace) returns (r: Trace)
    requires IsTrace(hello, r0)
    requires var s := LastState(r0);
             && s.transport.handshakeComplete && s.received == ACK && s.response == None
             && s.queue == Queue([ACK], false)
             && (s.poll == Last || (s.poll == Holding && !s.entry.stripDupAck))
    ensures IsTrace(hello, r)
    ensures LastState(r) == LastState(r0).(poll := Idle, received := ACK + ACK, queue := Queue([], true))
  {
    AllKept([ACK], false);
    assert Concat([ACK]) == ACK;
    var s := LastState(r0).(response := Some([ACK]), queue := Queue([], true));
    r := Then(hello, r0, CanisterAnswersPoll, s);
    r := Then(hello, r, ResponseArrives, s.(poll := Idle, response := None, received := ACK + ACK));
  }

  /** The timer sends the greeting alone after the bridge's ack, and the server's ack comes second. */
  lemma {:induction false} LateTimerShows(hello: Bytes) returns (r: Trace)
    requires IsHello(hello)
    ensures IsTrace(hello, r)
    ensures Delivered(LastState(r)) && LastState(r).received == ACK + ACK
  {
    r := TimerSendsGreeting(hello);
    r := GreetingArrives(hello, r);
    r := Then(hello, r, ClientPolls, LastState(r).(poll := Holding));
    r := SecondAckFetched(hello, r);
  }

  /** The client's frames reach the canister before the greeting, and are rejected. */
  lemma {:induction false} FramesOvertake(hello: Bytes, frames: seq<Frame>) returns (r: Trace)
    requires IsHello(hello) && ClientMayPost(hello, SentAlone(hello), frames) && !ReadAsGreeting(Wire(frames))
    ensures IsTrace(hello, r)
    ensures LastState(r) == SentAlone(hello).(clientBytes := Greeting(hello) + Wire(frames), posted := frames,
                                              inbox := Wire(frames), handled := frames, rejected := 1)
  {
    r := TimerSendsGreeting(hello);
    WireIsNoHandshake(frames);
    RejectedIff(Wire(frames));
    assert [] + frames == frames && [] + Wire(frames) == Wire(frames);
    var s := SentAlone(hello).(clientBytes := Greeting(hello) + Wire(frames), posted := frames,
                               post := Some(Wire(frames)), posting := frames);
    r := Then(hello, r, ClientPosts(frames), s);
    r := Then(hello, r, CanisterGetsPost,
              s.(post := None, posting := [], inbox := Wire(frames), handled := frames, rejected := 1));
  }

  /**
   Any frames the client posts while the greeting is on its way alone can be lost: they come
   first and are rejected, the greeting then opens the circuit, and none of them is raised.
   */
  lemma {:induction false} OvertakingShows(hello: Bytes, frames: seq<Frame>) returns (r: Trace)
    requires IsHello(hello) && ClientMayPost(hello, SentAlone(hello), frames) && !ReadAsGreeting(Wire(frames))
    ensures IsTrace(hello, r)
    ensures var s := LastState(r);
            && Delivered(s) && s.post == None && s.lone == None && s.posted == frames && s.rejected == 1
            && s.inbox == Wire(frames) + Greeting(hello) && s.clientBytes == Greeting(hello) + Wire(frames)
            && s.transport.raised == [] && s.received == ACK + ACK
  {
    r := FramesOvertake(hello, frames);
    r := GreetingArrives(hello, r);
    r := Then(hello, r, ClientPolls, LastState(r).(poll := Holding));
    r := SecondAckFetched(hello, r);
  }

  /** A ping is such a frame. */
  lemma {:induction false} PingCanBeLost(hello: Bytes)
    requires IsHello(hello) && |Greeting(hello)| < 0x7FFF_FFFD
    ensures ClientMayPost(hello, SentAlone(hello), [Ping]) && !ReadAsGreeting(Wire([Ping]))
  {
    assert Wire([Ping]) == PingFrame() + [] == [0x02, 0x91, 0x06];
  }

  /** Combined POST and nothing late, but the server's ack is read by the last fetch of a hold. */
  lemma {:induction false} UnstrippedFetchShows(hello: Bytes) returns (r: Trace)
    requires IsHello(hello) && |Greeting(hello) + Wire([Close])| < 0x8000_0000
    ensures IsTrace(hello, r)
    ensures Delivered(LastState(r)) && LastState(r).received == ACK + ACK
  {
    r := GreetAndTakeAck(hello);
    var both := Greeting(hello) + Wire([Close]);
    WireIsNoHandshake([Close]);
    var s := AckTaken(hello).(clientBytes := both, posted := [Close], posting := [Close],
                              entry := Entry(None, true, true, true), post := Some(both));
    r := Then(hello, r, ClientPosts([Close]), s);
    GreetingHandled(hello, [Close]);
    var t := Opened(FRESH).(connected := false);
    assert Effects(Opened(FRESH), [Close]) == t;
    s := s.(post := None, posting := [], inbox := both, handled := [Close], transport := t,
            queue := Queue([ACK], false));
    r := Then(hello, r, CanisterGetsPost, s);
    s := s.(poll := Holding);
    r := Then(hello, r, ClientPolls, s);
    s := s.(poll := Last);
    r := Then(hello, r, HoldExpires, s);
    r := SecondAckFetched(hello, r);
  }
}
