/** The write pump shared by the TCP client and the server sessions: a deque of chunks of which the front
    one is being written, one asynchronous write at a time. */
module WritePump {
  import opened Basics

  type Chunk = seq<Byte>

  /** sending is the deque, inFlight the writes handed to the socket and not completed, wire the bytes the
      socket has taken.  done and failed are history: the chunks completed, and whether a completion
      reported an error. */
  datatype Pump = Pump(sending: seq<Chunk>, inFlight: seq<Chunk>, wire: seq<Byte>, done: seq<Chunk>, failed: bool)

  const IDLE := Pump([], [], [], [], false)

  function Flatten(chunks: seq<Chunk>): seq<Byte> {
    if chunks == [] then [] else Flatten(chunks[..|chunks| - 1]) + chunks[|chunks| - 1]
  }

  lemma {:induction false} FlattenConcat(a: seq<Chunk>, b: seq<Chunk>)
    ensures Flatten(a + b) == Flatten(a) + Flatten(b)
    decreases |b|
  {
    if b == [] {
      assert a + b == a;
    } else {
      var rest := b[..|b| - 1];
      FlattenConcat(a, rest);
      assert (a + b)[..|a + b| - 1] == a + rest;
      assert Flatten(a + b) == Flatten(a + rest) + b[|b| - 1];
    }
  }

  // ----- The handlers as functions -----

  /** do_write: hands the front chunk to the socket. */
  function DoWrite(p: Pump): Pump
    requires p.sending != []
  {
    p.(inFlight := p.inFlight + [p.sending[0]])
  }

  /** The body of a write on the io thread. */
  function Push(p: Pump, chunk: Chunk): Pump {
    var queued := p.(sending := p.sending + [chunk]);
    if p.sending == [] then DoWrite(queued) else queued
  }

  /** A write completes and its handler runs.  On success the socket took the whole chunk; on failure only
      its first n bytes, and the handler leaves the chunk at the front. */
  function Complete(p: Pump, ok: bool, n: nat): Pump
    requires p.inFlight != [] && p.sending != []
    requires !ok ==> n <= |p.inFlight[0]|
  {
    var chunk := p.inFlight[0];
    if !ok then
      p.(inFlight := p.inFlight[1..], wire := p.wire + chunk[..n], failed := true)
    else
      var popped := p.(inFlight := p.inFlight[1..], wire := p.wire + chunk, sending := p.sending[1..],
                       done := p.done + [p.sending[0]]);
      if popped.sending == [] then popped else DoWrite(popped)
  }

  // ----- The invariant -----

  /** At most one write is in flight, it is the front of the deque, and it is there exactly when the deque is
      not empty; bytes on the wire are exactly the completed chunks. */
  ghost predicate Flowing(p: Pump) {
    && !p.failed
    && p.inFlight == (if p.sending == [] then [] else [p.sending[0]])
    && p.wire == Flatten(p.done)
  }

  /** After a failed completion: nothing is in flight, the deque is not empty, and the wire ends inside the
      chunk that failed. */
  ghost predicate Stuck(p: Pump) {
    && p.failed
    && p.inFlight == []
    && p.sending != []
    && Flatten(p.done) <= p.wire
    && p.wire <= Flatten(p.done) + p.sending[0]
  }

  /** accepted is everything pushed so far. */
  ghost predicate Faithful(p: Pump, accepted: seq<Chunk>) {
    (Flowing(p) || Stuck(p)) && p.done + p.sending == accepted
  }

  lemma PushKeeps(p: Pump, accepted: seq<Chunk>, chunk: Chunk)
    requires Faithful(p, accepted)
    ensures Faithful(Push(p, chunk), accepted + [chunk])
    ensures Push(p, chunk).wire == p.wire && Push(p, chunk).failed == p.failed
  {
  }

  lemma CompleteKeeps(p: Pump, accepted: seq<Chunk>, ok: bool, n: nat)
    requires Faithful(p, accepted) && p.inFlight != []
    requires !ok ==> n <= |p.inFlight[0]|
    ensures p.sending != [] && Faithful(Complete(p, ok, n), accepted)
    ensures p.wire <= Complete(p, ok, n).wire
    ensures !ok ==> Complete(p, ok, n).wire == Flatten(p.done) + p.sending[0][..n]
  {
  }

  /** The bytes on the wire are always a prefix of the accepted bytes, in order, also after a failure, and
      until then an empty deque means they are all there. */
  lemma WireIsPrefix(p: Pump, accepted: seq<Chunk>)
    requires Faithful(p, accepted)
    ensures p.wire <= Flatten(accepted)
    ensures p.sending == [] ==> p.wire == Flatten(accepted)
  {
    FlattenConcat(p.done, p.sending);
    if p.sending == [] {
      assert p.done + p.sending == p.done;
    } else {
      var front := [p.sending[0]];
      assert p.sending == front + p.sending[1..];
      FlattenConcat(front, p.sending[1..]);
      assert Flatten(front) == p.sending[0] by {
        assert front[..0] == [];
      }
    }
  }
}
