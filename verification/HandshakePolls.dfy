/**
 How long the client's polls last in a run of the handshake protocol: the first one, which
 opens the transport, ends with its first response, and later ones wait for data.
 */
module HandshakePolls {
  import opened ByteStrings
  import opened CircuitTransport
  import opened HandshakeBridge
  import opened HandshakeProtocol

  /** One of the first `n` moves was a poll. */
  predicate Polled(moves: seq<Move>, n: nat)
    requires n <= |moves|
  {
    exists i | 0 <= i < n :: moves[i].ClientPolls?
  }

  /** The bridge holds a greeting for which it has not given its ack. */
  predicate OwesAck(s: Protocol) { s.entry.pending.Some? && !s.entry.ackInjected }

  lemma {:induction false} EstablishedByPolls(hello: Bytes, s: Protocol, m: Move)
    requires Enabled(hello, s, m)
    ensures Next(hello, s, m).entry.established == (s.entry.established || m.ClientPolls?)
  {
  }

  /** A connection counts as established if and only if it has been polled. */
  lemma {:induction false} EstablishedIffPolled(hello: Bytes, states: seq<Protocol>, moves: seq<Move>, n: nat)
    requires IsRun(hello, states, moves) && n <= |moves|
    ensures states[n].entry.established <==> Polled(moves, n)
  {
    if n > 0 {
      EstablishedIffPolled(hello, states, moves, n - 1);
      EstablishedByPolls(hello, states[n - 1], moves[n - 1]);
      assert states[n] == Next(hello, states[n - 1], moves[n - 1]);
    }
  }

  /** A poll is answered at once if and only if an ack is owed; otherwise the first is fetched and others are held. */
  lemma {:induction false} PollOpens(hello: Bytes, states: seq<Protocol>, moves: seq<Move>, n: nat)
    requires IsRun(hello, states, moves) && n < |moves| && moves[n].ClientPolls?
    ensures states[n + 1].poll
         == if OwesAck(states[n]) then Idle else if Polled(moves, n) then Holding else Direct
    ensures states[n + 1].received == states[n].received + if OwesAck(states[n]) then ACK else []
  {
    EstablishedIffPolled(hello, states, moves, n);
    assert Enabled(hello, states[n], moves[n]) && states[n + 1] == Next(hello, states[n], moves[n]);
    assert states[n].received + [] == states[n].received;
  }

  /** Only a response ends a fetch. */
  lemma {:induction false} FetchStays(hello: Bytes, s: Protocol, m: Move)
    requires Enabled(hello, s, m) && s.poll == Direct && !m.ResponseArrives?
    ensures Next(hello, s, m).poll == Direct
  {
  }

  lemma {:induction false} FetchStaysInRun(hello: Bytes, states: seq<Protocol>, moves: seq<Move>, i: nat)
    requires IsRun(hello, states, moves) && i < |moves| && states[i].poll == Direct && !moves[i].ResponseArrives?
    ensures states[i + 1].poll == Direct
  {
    var s, m := states[i], moves[i];
    assert Enabled(hello, s, m) && states[i + 1] == Next(hello, s, m);
    FetchStays(hello, s, m);
  }

  /** No response arrives between the two moves. */
  predicate NoResponse(moves: seq<Move>, from: nat, to: nat)
    requires to <= |moves|
  {
    forall i | from <= i < to :: !moves[i].ResponseArrives?
  }

  lemma {:induction false} FetchStaysOpen(hello: Bytes, states: seq<Protocol>, moves: seq<Move>, n: nat, k: nat)
    requires IsRun(hello, states, moves) && n <= k <= |moves| && NoResponse(moves, n, k)
    requires states[n].poll == Direct
    ensures states[k].poll == Direct
  {
    if k > n {
      FetchStaysOpen(hello, states, moves, n, k - 1);
      FetchStaysInRun(hello, states, moves, k - 1);
    }
  }

  /** The first poll, with no ack owed, ends with the first response, whole as it came and even when it is empty. */
  lemma {:induction false} FirstPollEnds(hello: Bytes, states: seq<Protocol>, moves: seq<Move>, n: nat, k: nat)
    requires IsRun(hello, states, moves) && n < k < |moves|
    requires moves[n].ClientPolls? && !Polled(moves, n) && !OwesAck(states[n])
    requires moves[k].ResponseArrives? && NoResponse(moves, n + 1, k)
    ensures states[k].response.Some? && states[k + 1].poll == Idle && states[k + 1].response == None
    ensures states[k + 1].received == states[k].received + Concat(states[k].response.value)
  {
    PollOpens(hello, states, moves, n);
    FetchStaysOpen(hello, states, moves, n + 1, k);
    assert Enabled(hello, states[k], moves[k]) && states[k + 1] == Next(hello, states[k], moves[k]);
  }

  /** The move is no expiry, and a response that arrives in it is empty. */
  predicate KeepsHolding(s: Protocol, m: Move) {
    && !m.HoldExpires?
    && (m.ResponseArrives? ==> s.response.Some? && Concat(s.response.value) == [])
  }

  lemma {:induction false} HoldStays(hello: Bytes, s: Protocol, m: Move)
    requires Enabled(hello, s, m) && s.poll == Holding
    ensures Next(hello, s, m).poll == Holding <==> KeepsHolding(s, m)
    ensures m.ResponseArrives? && KeepsHolding(s, m) ==> Next(hello, s, m).received == s.received
  {
  }

  /** A later poll, with no ack owed, is held as long as every response is empty and it does not expire. */
  lemma {:induction false} LaterPollWaits(hello: Bytes, states: seq<Protocol>, moves: seq<Move>, n: nat, k: nat)
    requires IsRun(hello, states, moves) && n < k <= |moves|
    requires moves[n].ClientPolls? && Polled(moves, n) && !OwesAck(states[n])
    ensures (forall j | n < j <= k :: states[j].poll == Holding)
       <==> (forall j | n < j < k :: KeepsHolding(states[j], moves[j]))
  {
    if k == n + 1 {
      PollOpens(hello, states, moves, n);
    } else {
      LaterPollWaits(hello, states, moves, n, k - 1);
      assert Enabled(hello, states[k - 1], moves[k - 1]) && states[k] == Next(hello, states[k - 1], moves[k - 1]);
      if states[k - 1].poll == Holding { HoldStays(hello, states[k - 1], moves[k - 1]); }
    }
  }
}
