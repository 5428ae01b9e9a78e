/**
 The long-polling connection: frames queued for the client, drained by polls, with the
 handshake ack delivered at most once; and the read-only answer to an idle poll.
 */
module LongPolling {
  import opened ByteStrings
  import opened BlazorPack
  import opened CircuitTransport

  datatype Queue = Queue(frames: seq<Bytes>, ackSent: bool)

  /** The frames a drain keeps: repeated acks are swallowed. */
  function Kept(frames: seq<Bytes>, ackSent: bool): seq<Bytes> {
    if frames == [] then []
    else if frames[0] == ACK then (if ackSent then [] else [ACK]) + Kept(frames[1..], true)
    else [frames[0]] + Kept(frames[1..], ackSent)
  }

  function Drained(q: Queue): Queue {
    Queue([], q.ackSent || ACK in q.frames)
  }

  class LongPollingConnection {
    var outbound: seq<Bytes>
    var handshakeAckSent: bool

    function Value(): Queue
      reads this
    {
      Queue(outbound, handshakeAckSent)
    }

    constructor ()
      ensures Value() == Queue([], false)
    {
      outbound, handshakeAckSent := [], false;
    }

    method Enqueue(frame: Bytes)
      modifies this
      ensures Value() == Queue(old(outbound) + [frame], old(handshakeAckSent))
    {
      outbound := outbound + [frame];
    }

    method DrainOutbound() returns (bytes: Bytes)
      modifies this
      ensures bytes == Concat(Kept(old(outbound), old(handshakeAckSent)))
      ensures Value() == Drained(old(Value()))
    {
      bytes := [];
      while outbound != []
        invariant Rest(bytes, Value()) == Concat(Kept(old(outbound), old(handshakeAckSent)))
        invariant Drained(Value()) == Drained(old(Value()))
        decreases |outbound|
      {
        var frame := outbound[0];
        DrainStep(bytes, outbound, handshakeAckSent);
        outbound := outbound[1..];
        if frame == ACK {
          if handshakeAckSent { continue; }
          handshakeAckSent := true;
        }
        bytes := bytes + frame;
      }
    }

    /** The ack out of turn, unless one was already sent. */
    method TryRaceAck() returns (ack: Option<Bytes>)
      modifies `handshakeAckSent
      ensures ack == if old(handshakeAckSent) then None else Some(ACK)
      ensures handshakeAckSent
    {
      if handshakeAckSent { return None; }
      handshakeAckSent := true;
      ack := Some(ACK);
    }
  }

  lemma {:induction false} KeptStep(frames: seq<Bytes>, ackSent: bool)
    requires frames != []
    ensures Concat(Kept(frames, ackSent))
         == (if frames[0] == ACK && ackSent then [] else frames[0])
            + Concat(Kept(frames[1..], ackSent || frames[0] == ACK))
  {
    var rest := Kept(frames[1..], ackSent || frames[0] == ACK);
    assert [] + rest == rest && [] + Concat(rest) == Concat(rest);
    assert ([frames[0]] + rest)[1..] == rest;
  }

  /** What a drain gives in the end, with `bytes` taken so far. */
  function Rest(bytes: Bytes, q: Queue): Bytes { bytes + Concat(Kept(q.frames, q.ackSent)) }

  lemma {:induction false} DrainStep(bytes: Bytes, frames: seq<Bytes>, ackSent: bool)
    requires frames != []
    ensures var q := Queue(frames[1..], ackSent || frames[0] == ACK);
            && Rest(if frames[0] == ACK && ackSent then bytes else bytes + frames[0], q)
               == Rest(bytes, Queue(frames, ackSent))
            && Drained(q) == Drained(Queue(frames, ackSent))
  {
    KeptStep(frames, ackSent);
    assert frames == [frames[0]] + frames[1..];
  }

  // ─── Conservation ────────────────────────────────────────────────────

  datatype Op = Send(frame: Bytes) | Drain | RaceAck

  /** The queue, everything ever enqueued, and everything handed out, frame by frame. */
  datatype History = History(queue: Queue, enqueued: seq<Bytes>, delivered: seq<Bytes>)

  function Step(s: History, op: Op): History {
    match op
    case Send(f) => s.(queue := s.queue.(frames := s.queue.frames + [f]), enqueued := s.enqueued + [f])
    case Drain => s.(queue := Drained(s.queue), delivered := s.delivered + Kept(s.queue.frames, s.queue.ackSent))
    case RaceAck => if s.queue.ackSent then s
                    else s.(queue := s.queue.(ackSent := true), delivered := s.delivered + [ACK])
  }

  function Run(ops: seq<Op>): History {
    if ops == [] then History(Queue([], false), [], []) else Step(Run(ops[..|ops| - 1]), ops[|ops| - 1])
  }

  lemma {:induction false} KeptAppend(a: seq<Bytes>, b: seq<Bytes>, sent: bool)
    ensures Kept(a + b, sent) == Kept(a, sent) + Kept(b, sent || ACK in a)
    decreases |a|
  {
    if a == [] {
      assert a + b == b;
    } else {
      assert (a + b)[1..] == a[1..] + b;
      assert a == [a[0]] + a[1..];
      KeptAppend(a[1..], b, sent || a[0] == ACK);
    }
  }

  /** Frames other than acks. */
  function Data(frames: seq<Bytes>): seq<Bytes> {
    if frames == [] then [] else (if frames[0] == ACK then [] else [frames[0]]) + Data(frames[1..])
  }

  lemma {:induction false} DataAppend(a: seq<Bytes>, b: seq<Bytes>)
    ensures Data(a + b) == Data(a) + Data(b)
    decreases |a|
  {
    if a == [] {
      assert a + b == b;
    } else {
      assert (a + b)[1..] == a[1..] + b;
      DataAppend(a[1..], b);
    }
  }

  lemma {:induction false} KeptData(frames: seq<Bytes>, sent: bool)
    ensures Data(Kept(frames, sent)) == Data(frames)
  {
    if frames != [] {
      var rest := Kept(frames[1..], sent || frames[0] == ACK);
      KeptData(frames[1..], sent || frames[0] == ACK);
      DataAppend([frames[0]], rest);
      assert Data([frames[0]]) == if frames[0] == ACK then [] else [frames[0]];
      assert [] + rest == rest;
    }
  }

  /** How often the ack occurs. */
  function Acks(frames: seq<Bytes>): nat {
    if frames == [] then 0 else (if frames[0] == ACK then 1 else 0) + Acks(frames[1..])
  }

  lemma {:induction false} AcksAppend(a: seq<Bytes>, b: seq<Bytes>)
    ensures Acks(a + b) == Acks(a) + Acks(b)
    decreases |a|
  {
    if a == [] {
      assert a + b == b;
    } else {
      assert (a + b)[1..] == a[1..] + b;
      AcksAppend(a[1..], b);
    }
  }

  lemma {:induction false} KeptAcks(frames: seq<Bytes>, sent: bool)
    ensures Acks(Kept(frames, sent)) == if !sent && ACK in frames then 1 else 0
  {
    if frames != [] {
      var rest := Kept(frames[1..], sent || frames[0] == ACK);
      KeptAcks(frames[1..], sent || frames[0] == ACK);
      AcksAppend([frames[0]], rest);
      assert frames == [frames[0]] + frames[1..];
      assert Acks([frames[0]]) == if frames[0] == ACK then 1 else 0;
      assert [] + rest == rest;
    }
  }

  predicate Conserved(s: History) {
    && Data(s.delivered) + Data(s.queue.frames) == Data(s.enqueued)
    && Acks(s.delivered) == if s.queue.ackSent then 1 else 0
  }

  lemma {:induction false} StepConserves(s: History, op: Op)
    requires Conserved(s)
    ensures Conserved(Step(s, op))
  {
    match op
    case Send(f) =>
      DataAppend(s.queue.frames, [f]);
      DataAppend(s.enqueued, [f]);
    case Drain =>
      var kept := Kept(s.queue.frames, s.queue.ackSent);
      KeptData(s.queue.frames, s.queue.ackSent);
      KeptAcks(s.queue.frames, s.queue.ackSent);
      DataAppend(s.delivered, kept);
      AcksAppend(s.delivered, kept);
    case RaceAck =>
      DataAppend(s.delivered, [ACK]);
      AcksAppend(s.delivered, [ACK]);
  }

  /**
   Over every interleaving of sends, drains and raced acks: the data frames handed out
   and still queued are exactly those sent, in order, and the ack is handed out at most
   once, exactly when the flag says so.
   */
  lemma {:induction false} Conservation(ops: seq<Op>)
    ensures var s := Run(ops);
            && Data(s.delivered) + Data(s.queue.frames) == Data(s.enqueued)
            && Acks(s.delivered) == if s.queue.ackSent then 1 else 0
  {
    if ops != [] {
      Conservation(ops[..|ops| - 1]);
      StepConserves(Run(ops[..|ops| - 1]), ops[|ops| - 1]);
    }
  }

  /** Without raced acks, what was handed out and what is left is everything sent less repeated acks, in place. */
  lemma {:induction false} ConservationInOrder(ops: seq<Op>)
    requires forall i | 0 <= i < |ops| :: ops[i] != RaceAck
    ensures var s := Run(ops);
            && s.delivered + Kept(s.queue.frames, s.queue.ackSent) == Kept(s.enqueued, false)
            && (s.queue.ackSent || ACK in s.queue.frames <==> ACK in s.enqueued)
  {
    if ops != [] {
      var before, last := Run(ops[..|ops| - 1]), ops[|ops| - 1];
      ConservationInOrder(ops[..|ops| - 1]);
      if last.Send? {
        KeptAppend(before.queue.frames, [last.frame], before.queue.ackSent);
        KeptAppend(before.enqueued, [last.frame], false);
      } else {
        assert Kept([], before.queue.ackSent || ACK in before.queue.frames) == [];
      }
    }
  }

  // ─── Idle polls ──────────────────────────────────────────────────────

  /** The read-only answer to a poll; None hands the poll on to an update call. */
  function QueryAnswer(connection: Option<Queue>): Option<Bytes> {
    if connection == None || connection.value.frames == [] then Some([]) else None
  }

  /** What the update path answers: it creates a missing connection, then drains. */
  function PollAnswer(connection: Option<Queue>): (Bytes, Queue) {
    var q := if connection.Some? then connection.value else Queue([], false);
    (Concat(Kept(q.frames, q.ackSent)), Drained(q))
  }

  lemma {:induction false} NothingKeptIff(frames: seq<Bytes>, sent: bool)
    requires [] !in frames
    ensures Concat(Kept(frames, sent)) == [] <==> forall i | 0 <= i < |frames| :: sent && frames[i] == ACK
  {
    if frames != [] {
      KeptStep(frames, sent);
      assert frames[0] in frames;
      if frames[0] == ACK && sent { NothingKeptIff(frames[1..], true); }
    }
  }

  /**
   The query path answers only with an empty body, only where the update path would
   answer the same and change nothing but the missing connection. The converse fails for
   exactly one kind of queue: one that holds nothing but acks already sent.
   */
  lemma {:induction false} QueryAgreesWithPoll(connection: Option<Queue>)
    requires connection.Some? ==> [] !in connection.value.frames
    ensures QueryAnswer(connection).Some? ==>
      && QueryAnswer(connection).value == [] == PollAnswer(connection).0
      && PollAnswer(connection).1 == if connection.Some? then connection.value else Queue([], false)
    ensures PollAnswer(connection).0 == [] <==>
      QueryAnswer(connection).Some? ||
      (connection.value.ackSent && forall i | 0 <= i < |connection.value.frames| :: connection.value.frames[i] == ACK)
  {
    if connection.Some? { NothingKeptIff(connection.value.frames, connection.value.ackSent); }
  }

  // ─── The ack is never data ───────────────────────────────────────────

  /** A frame of any of the writers: its body opens with a small array tag. */
  ghost predicate ServerFrame(f: Bytes) {
    exists body: Bytes :: IsServerBody(body) && f == Framed(body)
  }

  predicate IsServerBody(body: Bytes) {
    0 < |body| < 0x8000_0000 && 0x90 <= body[0] <= 0x9F
  }

  lemma {:induction false} FramedIsNotAck(body: Bytes, rest: Bytes)
    requires IsServerBody(body)
    ensures !(ACK <= Framed(body) + rest) && |Framed(body)| >= 2
  {
    var f := Framed(body) + rest;
    assert EncVarint(|body|)[0] == ACK[0] ==> |EncVarint(|body|)| == 1 && f[1] == body[0];
  }

  /**
   The ack is not a prefix of any run of written frames, whatever follows, so neither the
   queue's test for acks nor the bridge's strip ever takes bytes of a real frame.
   */
  lemma {:induction false} AckIsNeverData(frames: seq<Bytes>)
    requires forall i | 0 <= i < |frames| :: ServerFrame(frames[i])
    ensures !(ACK <= Concat(frames)) && ACK !in frames && [] !in frames
  {
    forall i | 0 <= i < |frames| ensures frames[i] != ACK && frames[i] != [] {
      var body: Bytes :| IsServerBody(body) && frames[i] == Framed(body);
      FramedIsNotAck(body, []);
      assert Framed(body) + [] == Framed(body);
    }
    if frames != [] {
      var body: Bytes :| IsServerBody(body) && frames[0] == Framed(body);
      FramedIsNotAck(body, Concat(frames[1..]));
    }
  }

  /** Invocations, completions and pings are such frames. */
  lemma {:induction false} WrittenFramesAreServerFrames(id: Option<Bytes>, target: Bytes, args: seq<Value>,
      done: Bytes, result: Value, error: Bytes)
    ensures CallFits(id, target, args) ==> ServerFrame(Framed(InvocationBody(id, target, args)))
    ensures ResultFits(done, result) ==> ServerFrame(Framed(CompletionBody(done, result)))
    ensures ErrorFits(done, error) ==> ServerFrame(Framed(CompletionErrorBody(done, error)))
    ensures ServerFrame(PingFrame())
  {
    if CallFits(id, target, args) {
      assert IsServerBody(InvocationBody(id, target, args));
    }
    if ResultFits(done, result) {
      assert IsServerBody(CompletionBody(done, result));
    }
    if ErrorFits(done, error) {
      assert IsServerBody(CompletionErrorBody(done, error));
    }
    assert IsServerBody(PING_BODY);
  }
}
