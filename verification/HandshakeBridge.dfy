/**
 The browser bridge: the tables by which it answers a connection's handshake itself, sends
 the greeting on with the client's first frames, and takes the server's own ack out again.
 */
module HandshakeBridge {
  import opened ByteStrings
  import opened CircuitTransport

  function HandshakePrefix(): Bytes { Ascii("{\"protocol\":") }

  // ─── One connection's entries ────────────────────────────────────────

  datatype Entry = Entry(pending: Option<Bytes>, ackInjected: bool, stripDupAck: bool, established: bool)

  const NO_ENTRY := Entry(None, false, false, false)

  /** A POST is answered by the bridge alone, or sent on with these bytes. */
  datatype PostRoute = Buffered | Forward(bytes: Bytes)

  /** A GET is answered with the ack, fetched once, or held. */
  datatype PollRoute = InjectAck | FetchOnce | Hold

  function PostTo(e: Entry, body: Bytes): (Entry, PostRoute) {
    if HandshakePrefix() <= body && e.pending == None then
      (e.(pending := Some(body), ackInjected := false), Buffered)
    else if e.pending.Some? then
      (e.(pending := None, stripDupAck := true), Forward(e.pending.value + body))
    else (e, Forward(body))
  }

  function PollTo(e: Entry): (Entry, PollRoute) {
    if e.pending.Some? && !e.ackInjected then (e.(ackInjected := true, established := true), InjectAck)
    else if !e.established then (e.(established := true), FetchOnce)
    else (e, Hold)
  }

  /** A response read while holding: None asks again, otherwise what the client is given. */
  function HeldResponse(e: Entry, bytes: Bytes): (Entry, Option<Bytes>) {
    if bytes == [] then (e, None)
    else if e.stripDupAck then
      (e.(stripDupAck := false), Some(if ACK <= bytes then bytes[|ACK|..] else bytes))
    else (e, Some(bytes))
  }

  /** The lone-handshake timer sends on whatever is still buffered. */
  function TimerFires(e: Entry): (Entry, Option<Bytes>) {
    (e.(pending := None), e.pending)
  }

  method Combine(hs: Bytes, body: Bytes) returns (bytes: Bytes)
    ensures bytes == hs + body
  {
    var combined := new byte[|hs| + |body|];
    for i := 0 to |hs|
      invariant combined[..i] == hs[..i]
    {
      combined[i] := hs[i];
    }
    assert combined[..|hs|] == hs;
    for i := 0 to |body|
      invariant combined[..|hs|] == hs && combined[|hs|..|hs| + i] == body[..i]
    {
      combined[|hs| + i] := body[i];
    }
    assert combined[..] == combined[..|hs|] + combined[|hs|..|hs| + |body|];
    bytes := combined[..];
  }

  /** The tables, by connection id. */
  class WaspBridge {
    var pendingHandshake: map<Bytes, Bytes>
    var ackInjected: set<Bytes>
    var stripDupAck: set<Bytes>
    var establishedIds: set<Bytes>

    function At(id: Bytes): Entry
      reads this
    {
      Entry(if id in pendingHandshake then Some(pendingHandshake[id]) else None,
            id in ackInjected, id in stripDupAck, id in establishedIds)
    }

    twostate predicate OthersKept(id: Bytes)
      reads this
    {
      forall other | other != id :: At(other) == old(At(other))
    }

    constructor ()
      ensures forall id :: At(id) == NO_ENTRY
    {
      pendingHandshake, ackInjected, stripDupAck, establishedIds := map[], {}, {}, {};
    }

    method OnPost(id: Bytes, body: Bytes) returns (route: PostRoute)
      modifies this
      ensures (At(id), route) == PostTo(old(At(id)), body) && OthersKept(id)
    {
      if HandshakePrefix() <= body && id !in pendingHandshake {
        pendingHandshake := pendingHandshake[id := body];
        ackInjected := ackInjected - {id};
        return Buffered;
      }
      if id in pendingHandshake {
        var hs := pendingHandshake[id];
        pendingHandshake := pendingHandshake - {id};
        var combined := Combine(hs, body);
        stripDupAck := stripDupAck + {id};
        return Forward(combined);
      }
      route := Forward(body);
    }

    method OnTimer(id: Bytes) returns (alone: Option<Bytes>)
      modifies this
      ensures (At(id), alone) == TimerFires(old(At(id))) && OthersKept(id)
    {
      alone := None;
      if id in pendingHandshake {
        alone := Some(pendingHandshake[id]);
        pendingHandshake := pendingHandshake - {id};
      }
    }

    method OnPoll(id: Bytes) returns (route: PollRoute)
      modifies this
      ensures (At(id), route) == PollTo(old(At(id))) && OthersKept(id)
    {
      if id in pendingHandshake && id !in ackInjected {
        ackInjected := ackInjected + {id};
        establishedIds := establishedIds + {id};
        return InjectAck;
      }
      var seenBefore := id in establishedIds;
      establishedIds := establishedIds + {id};
      route := if seenBefore then Hold else FetchOnce;
    }

    method OnHeldResponse(id: Bytes, bytes: Bytes) returns (given: Option<Bytes>)
      modifies this
      ensures (At(id), given) == HeldResponse(old(At(id)), bytes) && OthersKept(id)
    {
      if bytes == [] { return None; }
      if id in stripDupAck {
        stripDupAck := stripDupAck - {id};
        return Some(if ACK <= bytes then bytes[|ACK|..] else bytes);
      }
      given := Some(bytes);
    }
  }
}
