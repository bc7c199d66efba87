/** The TCP client: writes accepted from the application are posted to the io thread, which feeds the
    write pump; connection events change only the connection state.  A run is any sequence of steps of
    the io thread and the application; a step that cannot happen leaves the state as it is. */
module TcpClient {
  import opened Basics
  import opened WritePump

  /** accepted is history: the chunks for which write returned true, in order. */
  datatype State = State(connected: bool, posted: seq<Chunk>, pump: Pump, accepted: seq<Chunk>)

  datatype Step =
    | Write(chunk: Chunk)
    | RunPosted
    | WriteCompleted(ok: bool, n: nat)
    | ConnectCompleted(ok: bool)
    | ReadFailed
    | Close
    | Reconnect

  const START := State(false, [], IDLE, [])

  /** The front of the deque exists whenever a write is in flight (ClientPumpIsFaithful). */
  predicate Enabled(s: State, step: Step) {
    match step
    case RunPosted => s.posted != []
    case WriteCompleted(ok, n) =>
      s.pump.inFlight != [] && s.pump.sending != [] && (!ok ==> n <= |s.pump.inFlight[0]|)
    case _ => true
  }

  function Next(s: State, step: Step): State {
    if !Enabled(s, step) then s
    else
      match step
      case Write(chunk) =>
        if s.connected then s.(posted := s.posted + [chunk], accepted := s.accepted + [chunk]) else s
      case RunPosted => s.(posted := s.posted[1..], pump := Push(s.pump, s.posted[0]))
      case WriteCompleted(ok, n) => s.(pump := Complete(s.pump, ok, n), connected := s.connected && ok)
      case ConnectCompleted(ok) => s.(connected := ok)
      case ReadFailed => s.(connected := false)
      case Close => s.(connected := false)
      case Reconnect => s.(connected := false)
  }

  function Run(steps: seq<Step>): State {
    if steps == [] then START else Next(Run(steps[..|steps| - 1]), steps[|steps| - 1])
  }

  // ----- The object -----

  /** The client's own fields, the io thread's task queue and the socket it writes to.  The history is
      ghost. */
  class Client {
    var connected: bool
    var posted: seq<Chunk>
    var sending: seq<Chunk>
    var inFlight: seq<Chunk>
    var wire: seq<Byte>
    ghost var done: seq<Chunk>
    ghost var failed: bool
    ghost var accepted: seq<Chunk>

    ghost function View(): State
      reads this
    {
      State(connected, posted, Pump(sending, inFlight, wire, done, failed), accepted)
    }

    /** The front of the deque is there whenever a write is in flight. */
    ghost predicate Valid()
      reads this
    {
      Inv(View())
    }

    constructor ()
      ensures Valid() && View() == START
    {
      connected, posted, sending, inFlight, wire := false, [], [], [], [];
      done, failed, accepted := [], false, [];
    }

    method Write(chunk: Chunk) returns (ok: bool)
      requires Valid()
      modifies this
      ensures Valid() && View() == Next(old(View()), Step.Write(chunk))
      ensures ok == old(connected)
      ensures !ok ==> View() == old(View())
    {
      StepKeeps(View(), Step.Write(chunk));
      if !connected {
        return false;
      }
      posted := posted + [chunk];
      accepted := accepted + [chunk];
      ok := true;
    }

    /** do_write */
    method DoWrite()
      requires sending != []
      modifies this`inFlight
      ensures View().pump == WritePump.DoWrite(old(View().pump))
      ensures inFlight == old(inFlight) + [sending[0]]
    {
      inFlight := inFlight + [sending[0]];
    }

    /** The posted task of a write. */
    method RunPosted()
      requires Valid() && posted != []
      modifies this
      ensures Valid() && View() == Next(old(View()), Step.RunPosted)
    {
      StepKeeps(View(), Step.RunPosted);
      var chunk := posted[0];
      posted := posted[1..];
      var writeInProgress := sending != [];
      sending := sending + [chunk];
      if !writeInProgress {
        DoWrite();
      }
    }

    /** The socket completes the first write in flight and handle_write runs. */
    method HandleWrite(ok: bool, n: nat)
      requires Valid() && inFlight != [] && (!ok ==> n <= |inFlight[0]|)
      modifies this
      ensures Valid() && View() == Next(old(View()), WriteCompleted(ok, n))
    {
      StepKeeps(View(), WriteCompleted(ok, n));
      var chunk := inFlight[0];
      inFlight := inFlight[1..];
      if !ok {
        wire := wire + chunk[..n];
        failed := true;
        connected := false;
        return;
      }
      wire := wire + chunk;
      done := done + [sending[0]];
      sending := sending[1..];
      if sending != [] {
        DoWrite();
      }
    }

    method HandleConnect(ok: bool)
      requires Valid()
      modifies this
      ensures Valid() && View() == Next(old(View()), ConnectCompleted(ok))
      ensures connected == ok
    {
      connected := ok;
    }

    /** handle_read with an error, close, and the start of a reconnect all end up here. */
    method Disconnect()
      requires Valid()
      modifies this
      ensures Valid()
      ensures !connected
      ensures View() == Next(old(View()), Step.ReadFailed) == Next(old(View()), Step.Close) == Next(old(View()), Step.Reconnect)
    {
      connected := false;
    }

    /** are_all_messages_sent: every accepted chunk is written or still a posted task, and the bytes that the
        wire lacks are those of the posted tasks. */
    method AreAllMessagesSent() returns (b: bool)
      requires Valid()
      ensures b <==> done + posted == accepted
      ensures b ==> Flatten(accepted) == wire + Flatten(posted)
    {
      b := sending == [];
      if b {
        WireIsPrefix(View().pump, done + sending);
        FlattenConcat(done + sending, posted);
      }
    }
  }

  /** One step of a run on the client object; a step that cannot happen is skipped. */
  method PlayStep(c: Client, step: Step) returns (answers: seq<bool>)
    requires c.Valid()
    modifies c
    ensures c.Valid() && c.View() == Next(old(c.View()), step)
    ensures answers == if step.Write? then [old(c.connected)] else []
  {
    answers := [];
    match step {
      case Write(chunk) =>
        var ok := c.Write(chunk);
        answers := [ok];
      case RunPosted =>
        if c.posted != [] {
          c.RunPosted();
        }
      case WriteCompleted(ok, n) =>
        if c.inFlight != [] && (ok || n <= |c.inFlight[0]|) {
          c.HandleWrite(ok, n);
        }
      case ConnectCompleted(ok) => c.HandleConnect(ok);
      case _ => c.Disconnect();
    }
  }

  /** Plays a whole run on a new client. */
  method Play(steps: seq<Step>) returns (c: Client, answers: seq<bool>)
    ensures c.Valid() && c.View() == Run(steps)
    ensures answers == Answers(steps)
  {
    c := new Client();
    answers := [];
    for i := 0 to |steps|
      invariant fresh(c) && c.Valid() && c.View() == Run(steps[..i]) && answers == Answers(steps[..i])
    {
      assert steps[..i + 1][..i] == steps[..i];
      ConnectedExactly(steps[..i]);
      var more := PlayStep(c, steps[i]);
      answers := answers + more;
    }
    assert steps[..|steps|] == steps;
  }

  // ----- Connection and acceptance, read off the steps -----

  /** Step i is a completion that reports an error. */
  ghost predicate FailsAt(steps: seq<Step>, i: nat) {
    i < |steps| && steps[i].WriteCompleted? && !steps[i].ok && Enabled(Run(steps[..i]), steps[i])
  }

  /** Step j ends the connection: an error of a connect, a read or a write, a close or a reconnect. */
  ghost predicate DropsAt(steps: seq<Step>, j: nat) {
    j < |steps|
    && (steps[j] == ConnectCompleted(false) || steps[j].ReadFailed? || steps[j].Close? || steps[j].Reconnect?
        || FailsAt(steps, j))
  }

  /** Step i establishes the connection, and nothing has ended it since. */
  ghost predicate UpSince(steps: seq<Step>, i: nat) {
    i < |steps| && steps[i] == ConnectCompleted(true) && forall j :: i < j ==> !DropsAt(steps, j)
  }

  ghost predicate Up(steps: seq<Step>) {
    exists i :: UpSince(steps, i)
  }

  /** What the calls of write should answer, in order. */
  ghost function Answers(steps: seq<Step>): seq<bool> {
    if steps == [] then []
    else
      var prefix, last := steps[..|steps| - 1], steps[|steps| - 1];
      Answers(prefix) + if last.Write? then [Up(prefix)] else []
  }

  /** The chunks of the writes made while the connection was up. */
  ghost function WrittenWhileUp(steps: seq<Step>): seq<Chunk> {
    if steps == [] then []
    else
      var prefix, last := steps[..|steps| - 1], steps[|steps| - 1];
      WrittenWhileUp(prefix) + if last.Write? && Up(prefix) then [last.chunk] else []
  }

  lemma DropsInPrefix(steps: seq<Step>, j: nat)
    requires j + 1 < |steps|
    ensures DropsAt(steps, j) <==> DropsAt(steps[..|steps| - 1], j)
  {
    assert steps[..j] == steps[..|steps| - 1][..j];
  }

  /** The connection stays up over a step that does not end it, and comes up with a successful connect. */
  lemma UpNext(steps: seq<Step>)
    requires steps != []
    ensures var last := |steps| - 1;
            Up(steps) <==> !DropsAt(steps, last) && (steps[last] == ConnectCompleted(true) || Up(steps[..last]))
  {
    var last := |steps| - 1;
    var prefix := steps[..last];
    forall j: nat | j < last ensures DropsAt(steps, j) <==> DropsAt(prefix, j) {
      DropsInPrefix(steps, j);
    }
    if i: nat :| UpSince(prefix, i) && !DropsAt(steps, last) {
      assert UpSince(steps, i);
    }
    if i: nat :| UpSince(steps, i) && i < last {
      assert !DropsAt(steps, last);
      forall j: nat | i < j ensures !DropsAt(prefix, j) {
        assert !DropsAt(steps, j);
      }
      assert UpSince(prefix, i);
    }
    assert steps[last] == ConnectCompleted(true) ==> UpSince(steps, last);
  }

  /** The client is connected exactly when the latest connection event was a successful connect. */
  lemma {:induction false} ConnectedExactly(steps: seq<Step>)
    ensures Run(steps).connected <==> Up(steps)
  {
    if steps != [] {
      ConnectedExactly(steps[..|steps| - 1]);
      UpNext(steps);
      assert FailsAt(steps, |steps| - 1) <==>
             steps[|steps| - 1].WriteCompleted? && !steps[|steps| - 1].ok
             && Enabled(Run(steps[..|steps| - 1]), steps[|steps| - 1]);
    }
  }

  /** What a run accepts is exactly what was written while the connection was up: a write that answers false
      leaves no trace, and one that answers true is never dropped. */
  lemma {:induction false} AcceptedExactly(steps: seq<Step>)
    ensures Run(steps).accepted == WrittenWhileUp(steps)
  {
    if steps != [] {
      AcceptedExactly(steps[..|steps| - 1]);
      ConnectedExactly(steps[..|steps| - 1]);
    }
  }

  // ----- Over every run -----

  ghost predicate Inv(s: State) {
    Faithful(s.pump, s.pump.done + s.pump.sending)
    && s.pump.done + s.pump.sending + s.posted == s.accepted
  }

  lemma StepKeeps(s: State, step: Step)
    requires Inv(s)
    ensures Inv(Next(s, step))
  {
    if Enabled(s, step) {
      var p := s.pump;
      match step
      case Write(chunk) =>
        assert p.done + p.sending + (s.posted + [chunk]) == p.done + p.sending + s.posted + [chunk];
      case RunPosted =>
        PushKeeps(p, p.done + p.sending, s.posted[0]);
        assert p.done + p.sending + s.posted == p.done + p.sending + [s.posted[0]] + s.posted[1..];
      case WriteCompleted(ok, n) =>
        CompleteKeeps(p, p.done + p.sending, ok, n);
      case _ =>
    }
  }

  /** In every run: up to the first failed completion one write is in flight exactly when the deque is not
      empty, and wire, deque and posted tasks together are the accepted chunks in order; in any case the
      wire carries a prefix of the accepted bytes. */
  lemma {:induction false} ClientPumpIsFaithful(steps: seq<Step>)
    ensures var s := Run(steps);
            && Inv(s)
            && |s.pump.inFlight| <= 1
            && (!s.pump.failed ==> Flowing(s.pump) && (|s.pump.inFlight| == 1 <==> s.pump.sending != []))
            && s.pump.wire <= Flatten(s.accepted)
  {
    if steps != [] {
      ClientPumpIsFaithful(steps[..|steps| - 1]);
      StepKeeps(Run(steps[..|steps| - 1]), steps[|steps| - 1]);
    }
    var s := Run(steps);
    assert s.pump.done + s.pump.sending == [] || steps != [];
    WireIsPrefix(s.pump, s.pump.done + s.pump.sending);
    FlattenConcat(s.pump.done + s.pump.sending, s.posted);
  }

  /** An empty deque means everything already on the io thread is on the wire; everything accepted is on
      it exactly when the tasks still posted carry no bytes. */
  lemma EmptyDequeMeansWritten(steps: seq<Step>)
    requires Run(steps).pump.sending == []
    ensures var s := Run(steps);
            && s.pump.wire == Flatten(s.pump.done) && s.pump.done + s.posted == s.accepted
            && (s.pump.wire == Flatten(s.accepted) <==> Flatten(s.posted) == [])
  {
    ClientPumpIsFaithful(steps);
    var s := Run(steps);
    WireIsPrefix(s.pump, s.pump.done);
    assert s.pump.done + s.pump.sending == s.pump.done;
    FlattenConcat(s.pump.done, s.posted);
  }

  /** The boundary: after a failed completion no reconnect restarts the pump.  In every continuation the
      wire stays as it was and the deque never empties. */
  lemma {:induction false} FailureStopsThePump(before: seq<Step>, after: seq<Step>)
    requires Run(before).pump.failed
    ensures var s := Run(before + after);
            && s.pump.failed
            && s.pump.wire == Run(before).pump.wire
            && s.pump.sending != []
    decreases |after|
  {
    if after == [] {
      ClientPumpIsFaithful(before);
      assert before + after == before;
    } else {
      var rest, last := after[..|after| - 1], after[|after| - 1];
      FailureStopsThePump(before, rest);
      ClientPumpIsFaithful(before + rest);
      assert (before + after)[..|before + after| - 1] == before + rest;
      assert Run(before + after) == Next(Run(before + rest), last);
    }
  }

  lemma NextIsRun(steps: seq<Step>, step: Step)
    ensures Run(steps + [step]) == Next(Run(steps), step)
  {
    assert (steps + [step])[..|steps|] == steps;
  }

  /** Everything accepted by the run is on the wire after some more steps that accept nothing else. */
  ghost predicate DrainedBy(steps: seq<Step>, more: seq<Step>) {
    var s, accepted := Run(steps + more), Run(steps).accepted;
    s.accepted == accepted && s.posted == [] && s.pump.sending == [] && s.pump.wire == Flatten(accepted)
  }

  /** Without a failed completion, running the posted tasks and completing the writes drains the pump. */
  lemma {:induction false} PumpDrains(steps: seq<Step>) returns (more: seq<Step>)
    requires !Run(steps).pump.failed
    ensures DrainedBy(steps, more)
    decreases 2 * |Run(steps).posted| + |Run(steps).pump.sending|
  {
    ClientPumpIsFaithful(steps);
    var s := Run(steps);
    if s.posted == [] && s.pump.sending == [] {
      more := [];
      assert steps + more == steps;
      EmptyDequeMeansWritten(steps);
    } else {
      var step := if s.posted != [] then RunPosted else WriteCompleted(true, 0);
      NextIsRun(steps, step);
      var rest := PumpDrains(steps + [step]);
      more := [step] + rest;
      assert steps + more == steps + [step] + rest;
    }
  }

  lemma {:induction false} FailedExactly(steps: seq<Step>)
    ensures Run(steps).pump.failed <==> exists i :: FailsAt(steps, i)
  {
    if steps != [] {
      var prefix := steps[..|steps| - 1];
      FailedExactly(prefix);
      forall i: nat | i < |prefix| ensures FailsAt(steps, i) <==> FailsAt(prefix, i) {
        assert steps[..i] == prefix[..i];
      }
      assert Run(steps).pump.failed <==> Run(prefix).pump.failed || FailsAt(steps, |prefix|);
    }
  }

  /** What the application accepted can still reach the wire exactly when no completion reported an error;
      after one the deque never empties. */
  lemma DrainsUnlessFailed(steps: seq<Step>)
    ensures (exists more :: DrainedBy(steps, more)) <==> !exists i :: FailsAt(steps, i)
    ensures (forall more :: Run(steps + more).pump.sending != []) <==> exists i :: FailsAt(steps, i)
  {
    FailedExactly(steps);
    if Run(steps).pump.failed {
      forall more ensures Run(steps + more).pump.sending != [] {
        FailureStopsThePump(steps, more);
      }
    } else {
      var more := PumpDrains(steps);
      assert Run(steps + more).pump.sending == [];
    }
  }

  /** A run that fails: one chunk is accepted, and its write breaks off before the first byte. */
  lemma WriteCanFail()
    ensures var steps := [ConnectCompleted(true), Write([0]), RunPosted, WriteCompleted(false, 0)];
            Run(steps).pump.failed && Run(steps).accepted == [[0]] && Run(steps).pump.wire == []
  {
    var connected, written := [ConnectCompleted(true)], [ConnectCompleted(true), Write([0])];
    var posted := written + [RunPosted];
    assert Run(connected) == START.(connected := true) by {
      NextIsRun([], ConnectCompleted(true));
      assert [] + connected == connected;
    }
    assert Run(written) == State(true, [[0]], IDLE, [[0]]) by {
      NextIsRun(connected, Write([0]));
    }
    assert Run(posted) == State(true, [], Pump([[0]], [[0]], [], [], false), [[0]]) by {
      NextIsRun(written, RunPosted);
    }
    NextIsRun(posted, WriteCompleted(false, 0));
    assert posted + [WriteCompleted(false, 0)] == [ConnectCompleted(true), Write([0]), RunPosted, WriteCompleted(false, 0)];
  }
}
