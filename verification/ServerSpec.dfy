/** The TCP server as steps of its io thread: a registry from session addresses to session objects, and one
    write pump per session.  A session leaves the registry on an error or when the server closes, but the
    object lives on while a read or a write is outstanding. */
module ServerSpec {
  import opened Basics
  import opened WritePump
  import opened Callbacks

  datatype Session = Session(address: nat, pump: Pump, reading: bool)

  /** Objects are numbered in order of creation.  callbacks are the connection callbacks made so far. */
  datatype Server = Server(sessions: seq<Session>, registry: map<nat, nat>, callbacks: seq<Callback>)

  const START := Server([], map[], [])

  /** order is the order in which close happens to walk the registry. */
  datatype Step =
    | Accepted(address: nat)
    | AcceptFailed
    | WriteTo(address: nat, chunk: Chunk)
    | WriteToAll(chunk: Chunk)
    | WriteToAllExcept(address: nat, chunk: Chunk)
    | ReadCompleted(obj: nat)
    | ReadFailed(obj: nat)
    | WriteCompleted(obj: nat, ok: bool, n: nat)
    | Close(order: seq<nat>)

  // ----- Steps -----

  predicate Registered(s: Server, o: nat) {
    o < |s.sessions| && s.sessions[o].address in s.registry && s.registry[s.sessions[o].address] == o
  }

  /** Held by the registry or by an outstanding handler. */
  predicate Live(s: Server, o: nat) {
    o < |s.sessions| && (Registered(s, o) || s.sessions[o].reading || s.sessions[o].pump.inFlight != [])
  }

  /** The step hands the chunk to the session registered under this address. */
  predicate Addresses(step: Step, address: nat) {
    match step
    case WriteTo(a, _) => a == address
    case WriteToAll(_) => true
    case WriteToAllExcept(a, _) => a != address
    case _ => false
  }

  predicate Enabled(s: Server, step: Step) {
    match step
    case Accepted(a) => forall o: nat {:trigger Live(s, o)} :: o < |s.sessions| && Live(s, o) ==> s.sessions[o].address != a
    case ReadCompleted(o) => o < |s.sessions| && s.sessions[o].reading
    case ReadFailed(o) => o < |s.sessions| && s.sessions[o].reading
    case WriteCompleted(o, ok, n) =>
      o < |s.sessions| && s.sessions[o].pump.inFlight != [] && s.sessions[o].pump.sending != []
      && (!ok ==> n <= |s.sessions[o].pump.inFlight[0]|)
    case Close(order) => Enumerates(order, s.registry.Keys)
    case _ => true
  }

  /** leave: erases the session's address from the registry and reports a disconnect. */
  function Leave(s: Server, o: nat): Server
    requires o < |s.sessions|
  {
    var a := s.sessions[o].address;
    s.(registry := s.registry - {a}, callbacks := s.callbacks + [Callback(a, false)])
  }

  /** Pushes the chunk to every registered session the step addresses. */
  function Route(s: Server, step: Step, chunk: Chunk): Server {
    s.(sessions := seq(|s.sessions|, o requires 0 <= o < |s.sessions| =>
      if Registered(s, o) && Addresses(step, s.sessions[o].address)
      then s.sessions[o].(pump := Push(s.sessions[o].pump, chunk))
      else s.sessions[o]))
  }

  function Next(s: Server, step: Step): Server {
    if !Enabled(s, step) then s
    else
      match step
      case Accepted(a) =>
        Server(s.sessions + [Session(a, IDLE, true)], s.registry[a := |s.sessions|],
               s.callbacks + [Callback(a, true)])
      case AcceptFailed => s
      case WriteTo(_, chunk) => Route(s, step, chunk)
      case WriteToAll(chunk) => Route(s, step, chunk)
      case WriteToAllExcept(_, chunk) => Route(s, step, chunk)
      case ReadCompleted(_) => s
      case ReadFailed(o) => Leave(s.(sessions := s.sessions[o := s.sessions[o].(reading := false)]), o)
      case WriteCompleted(o, ok, n) =>
        var s' := s.(sessions := s.sessions[o := s.sessions[o].(pump := Complete(s.sessions[o].pump, ok, n))]);
        if ok then s' else Leave(s', o)
      case Close(order) => s.(registry := map[], callbacks := s.callbacks + Disconnects(order))
  }

  function Run(steps: seq<Step>): Server {
    if steps == [] then START else Next(Run(steps[..|steps| - 1]), steps[|steps| - 1])
  }

  lemma NextIsRun(steps: seq<Step>, step: Step)
    ensures Run(steps + [step]) == Next(Run(steps), step)
  {
    assert (steps + [step])[..|steps|] == steps;
  }

  // ----- The registry -----

  /** Registry entries name a session of that address. */
  ghost predicate EntriesNameSessions(s: Server) {
    forall a :: a in s.registry ==> s.registry[a] < |s.sessions| && s.sessions[s.registry[a]].address == a
  }

  ghost predicate LiveAddressesDistinct(s: Server) {
    forall o: nat, o': nat {:trigger Live(s, o), Live(s, o')} ::
      o < o' && Live(s, o) && Live(s, o') ==> s.sessions[o].address != s.sessions[o'].address
  }

  /** An address is registered exactly when its latest callback was a connect. */
  ghost predicate FollowsCallbacks(s: Server) {
    forall a :: a in s.registry <==> LatestCallback(s.callbacks, a) == Some(true)
  }

  ghost predicate RegistrySound(s: Server) {
    EntriesNameSessions(s) && LiveAddressesDistinct(s) && FollowsCallbacks(s)
  }

  /** One callback more, and the registry changed accordingly at its address. */
  lemma CallbackFollowed(s: Server, s': Server, c: Callback)
    requires FollowsCallbacks(s) && s'.callbacks == s.callbacks + [c]
    requires s'.registry.Keys == if c.connected then s.registry.Keys + {c.id} else s.registry.Keys - {c.id}
    ensures FollowsCallbacks(s')
  {
    forall a ensures a in s'.registry <==> LatestCallback(s'.callbacks, a) == Some(true) {
      LatestAppended(s.callbacks, c, a);
    }
  }

  lemma AcceptKeepsRegistry(s: Server, a: nat)
    requires RegistrySound(s) && Enabled(s, Accepted(a))
    ensures RegistrySound(Next(s, Accepted(a)))
  {
    var s' := Next(s, Accepted(a));
    var newest := |s.sessions|;
    forall o: nat | o < newest && Live(s', o) ensures Live(s, o) {
    }
    CallbackFollowed(s, s', Callback(a, true));
  }

  /** Only the session itself can be registered under the address of a live session. */
  lemma LeaveKeepsRegistry(s: Server, o: nat)
    requires RegistrySound(s) && o < |s.sessions|
    ensures RegistrySound(Leave(s, o))
  {
    CallbackFollowed(s, Leave(s, o), Callback(s.sessions[o].address, false));
    assert forall p: nat :: Live(Leave(s, o), p) ==> Live(s, p);
  }

  lemma CloseKeepsRegistry(s: Server, order: seq<nat>)
    requires RegistrySound(s)
    ensures RegistrySound(Next(s, Close(order)))
  {
    if Enabled(s, Close(order)) {
      assert forall o: nat :: Live(Next(s, Close(order)), o) ==> Live(s, o);
      forall a ensures LatestCallback(s.callbacks + Disconnects(order), a) != Some(true) {
        DisconnectsAppended(s.callbacks, order, a);
      }
    }
  }

  /** Steps that change no address and revive no session keep the registry. */
  lemma SessionsKeepRegistry(s: Server, s': Server)
    requires RegistrySound(s)
    requires s'.registry == s.registry && s'.callbacks == s.callbacks && |s'.sessions| == |s.sessions|
    requires forall o: nat :: o < |s.sessions| ==> s'.sessions[o].address == s.sessions[o].address
    requires forall o: nat :: o < |s.sessions| && Live(s', o) ==> Live(s, o)
    ensures RegistrySound(s')
  {
  }

  lemma StepKeepsRegistry(s: Server, step: Step)
    requires RegistrySound(s)
    ensures RegistrySound(Next(s, step))
  {
    if Enabled(s, step) {
      match step
      case Accepted(a) => AcceptKeepsRegistry(s, a);
      case WriteTo(_, chunk) => SessionsKeepRegistry(s, Route(s, step, chunk));
      case WriteToAll(chunk) => SessionsKeepRegistry(s, Route(s, step, chunk));
      case WriteToAllExcept(_, chunk) => SessionsKeepRegistry(s, Route(s, step, chunk));
      case ReadFailed(o) =>
        var s' := s.(sessions := s.sessions[o := s.sessions[o].(reading := false)]);
        SessionsKeepRegistry(s, s');
        LeaveKeepsRegistry(s', o);
      case WriteCompleted(o, ok, n) =>
        var s' := s.(sessions := s.sessions[o := s.sessions[o].(pump := Complete(s.sessions[o].pump, ok, n))]);
        SessionsKeepRegistry(s, s');
        LeaveKeepsRegistry(s', o);
      case Close(order) => CloseKeepsRegistry(s, order);
      case _ =>
    }
  }

  lemma {:induction false} RegistryFollowsCallbacks(steps: seq<Step>)
    ensures RegistrySound(Run(steps))
  {
    if steps != [] {
      RegistryFollowsCallbacks(steps[..|steps| - 1]);
      StepKeepsRegistry(Run(steps[..|steps| - 1]), steps[|steps| - 1]);
    }
  }

  /** A session that leaves, even twice, never takes another session out of the registry. */
  lemma LeavingTouchesNobodyElse(steps: seq<Step>, step: Step, o: nat)
    requires step == ReadFailed(o) || (step.WriteCompleted? && step.obj == o)
    ensures var s := Run(steps);
            forall p: nat :: p != o && Registered(s, p) ==> Registered(Next(s, step), p)
  {
    RegistryFollowsCallbacks(steps);
    var s := Run(steps);
    if Enabled(s, step) {
      forall p: nat | p != o && Registered(s, p) ensures Registered(Next(s, step), p) {
        assert Live(s, p) && Live(s, o);
        assert s.sessions[p].address != s.sessions[o].address;
      }
    }
  }

  // ----- Who is registered, read off the steps -----

  /** The step is an error of a read or a write of this session. */
  predicate Fails(step: Step, o: nat) {
    step == ReadFailed(o) || (step.WriteCompleted? && step.obj == o && !step.ok)
  }

  /** A session whose read or write fails is unregistered and reported disconnected, once. */
  lemma FailureLeaves(s: Server, step: Step, o: nat)
    requires Enabled(s, step) && Fails(step, o)
    ensures var a, s' := s.sessions[o].address, Next(s, step);
            && a !in s'.registry
            && s'.callbacks == s.callbacks + [Callback(a, false)]
  {
  }

  /** The callbacks one step makes. */
  function Told(s: Server, step: Step): seq<Callback> {
    if !Enabled(s, step) then []
    else
      match step
      case Accepted(a) => [Callback(a, true)]
      case ReadFailed(o) => [Callback(s.sessions[o].address, false)]
      case WriteCompleted(o, ok, _) => if ok then [] else [Callback(s.sessions[o].address, false)]
      case Close(order) => Disconnects(order)
      case _ => []
  }

  function ToldIn(steps: seq<Step>): seq<Callback> {
    if steps == [] then [] else ToldIn(steps[..|steps| - 1]) + Told(Run(steps[..|steps| - 1]), steps[|steps| - 1])
  }

  /** The application is told of every accept, every failure and every closed session, and of nothing else. */
  lemma {:induction false} CallbacksExactly(steps: seq<Step>)
    ensures Run(steps).callbacks == ToldIn(steps)
  {
    if steps != [] {
      CallbacksExactly(steps[..|steps| - 1]);
    }
  }

  /** The step takes the session out of the registry. */
  predicate Removes(s: Server, step: Step, o: nat) {
    Enabled(s, step) && (Fails(step, o) || step.Close?)
  }

  lemma RegisteredNext(s: Server, step: Step, o: nat)
    requires RegistrySound(s)
    ensures Registered(Next(s, step), o) <==>
            (Registered(s, o) && !Removes(s, step, o)) || (Enabled(s, step) && step.Accepted? && o == |s.sessions|)
  {
    if Enabled(s, step) && Registered(s, o) {
      assert Live(s, o);
      if step.ReadFailed? || step.WriteCompleted? {
        assert Live(s, step.obj);
      }
    }
  }

  ghost predicate RemovedAt(steps: seq<Step>, j: nat, o: nat) {
    j < |steps| && o < |Run(steps[..j]).sessions| && Removes(Run(steps[..j]), steps[j], o)
  }

  ghost predicate NeverRemoved(steps: seq<Step>, o: nat) {
    forall j :: !RemovedAt(steps, j, o)
  }

  lemma RemovedInPrefix(steps: seq<Step>, o: nat)
    requires steps != []
    ensures NeverRemoved(steps, o) <==> NeverRemoved(steps[..|steps| - 1], o) && !RemovedAt(steps, |steps| - 1, o)
  {
    var prefix := steps[..|steps| - 1];
    forall j: nat | j < |prefix| ensures RemovedAt(steps, j, o) <==> RemovedAt(prefix, j, o) {
      assert steps[..j] == prefix[..j];
    }
    if NeverRemoved(steps, o) {
      forall j: nat ensures !RemovedAt(prefix, j, o) {
        assert j < |prefix| ==> !RemovedAt(steps, j, o);
      }
    }
  }

  lemma {:induction false} NotYetRemoved(steps: seq<Step>, o: nat)
    requires |Run(steps).sessions| <= o
    ensures NeverRemoved(steps, o)
  {
    if steps != [] {
      var prefix := steps[..|steps| - 1];
      assert |Run(prefix).sessions| <= |Run(steps).sessions|;
      NotYetRemoved(prefix, o);
      RemovedInPrefix(steps, o);
    }
  }

  /** A session is registered from its accept until its first failed read or write or the next close, and
      never again. */
  lemma {:induction false} RegisteredExactly(steps: seq<Step>, o: nat)
    ensures Registered(Run(steps), o) <==> o < |Run(steps).sessions| && NeverRemoved(steps, o)
  {
    if steps != [] {
      var prefix, last := steps[..|steps| - 1], steps[|steps| - 1];
      var s := Run(prefix);
      RegisteredExactly(prefix, o);
      RegistryFollowsCallbacks(prefix);
      RegisteredNext(s, last, o);
      RemovedInPrefix(steps, o);
      if |s.sessions| <= o {
        NotYetRemoved(prefix, o);
      }
    }
  }

  /** The id names a session that was accepted and never removed: when write_to finds it. */
  ghost predicate OpenUnder(steps: seq<Step>, a: nat, o: nat) {
    o < |Run(steps).sessions| && Run(steps).sessions[o].address == a && NeverRemoved(steps, o)
  }

  lemma FoundExactly(steps: seq<Step>, a: nat)
    ensures a in Run(steps).registry <==> exists o :: OpenUnder(steps, a, o)
  {
    var s := Run(steps);
    RegistryFollowsCallbacks(steps);
    if a in s.registry {
      RegisteredExactly(steps, s.registry[a]);
      assert OpenUnder(steps, a, s.registry[a]);
    }
    if o: nat :| OpenUnder(steps, a, o) {
      RegisteredExactly(steps, o);
    }
  }

  ghost predicate ReadFailedAt(steps: seq<Step>, j: nat, o: nat) {
    j < |steps| && steps[j] == ReadFailed(o) && Enabled(Run(steps[..j]), steps[j])
  }

  ghost predicate NoFailedRead(steps: seq<Step>, o: nat) {
    forall j :: !ReadFailedAt(steps, j, o)
  }

  lemma ReadFailedInPrefix(steps: seq<Step>, o: nat)
    requires steps != []
    ensures NoFailedRead(steps, o) <==> NoFailedRead(steps[..|steps| - 1], o) && !ReadFailedAt(steps, |steps| - 1, o)
  {
    var prefix := steps[..|steps| - 1];
    forall j: nat | j < |prefix| ensures ReadFailedAt(steps, j, o) <==> ReadFailedAt(prefix, j, o) {
      assert steps[..j] == prefix[..j];
    }
    if NoFailedRead(steps, o) {
      forall j: nat ensures !ReadFailedAt(prefix, j, o) {
        assert j < |prefix| ==> !ReadFailedAt(steps, j, o);
      }
    }
  }

  lemma ReadingNext(s: Server, step: Step, o: nat)
    requires o < |Next(s, step).sessions|
    ensures Next(s, step).sessions[o].reading <==>
            (o < |s.sessions| ==> s.sessions[o].reading) && !(step == ReadFailed(o) && Enabled(s, step))
  {
  }

  /** A session reads until its first failed read, registered or not. */
  lemma {:induction false} ReadsUntilFailure(steps: seq<Step>, o: nat)
    ensures (o < |Run(steps).sessions| ==> Run(steps).sessions[o].reading) <==> NoFailedRead(steps, o)
  {
    if steps != [] {
      var prefix, last := steps[..|steps| - 1], steps[|steps| - 1];
      ReadsUntilFailure(prefix, o);
      ReadFailedInPrefix(steps, o);
      if o < |Run(steps).sessions| {
        ReadingNext(Run(prefix), last, o);
      } else {
        assert |Run(prefix).sessions| <= |Run(steps).sessions|;
      }
    }
  }

  // ----- Callbacks in pairs -----

  /** The step makes a session leave that is no longer registered: it left before, or the server was
      closed. */
  predicate Repeats(s: Server, step: Step) {
    && Enabled(s, step)
    && (step.ReadFailed? || (step.WriteCompleted? && !step.ok))
    && !Registered(s, step.obj)
  }

  ghost predicate LeavesAgain(steps: seq<Step>, i: nat) {
    i < |steps| && Repeats(Run(steps[..i]), steps[i])
  }

  ghost predicate NeverLeavesAgain(steps: seq<Step>) {
    forall i :: !LeavesAgain(steps, i)
  }

  lemma LastLeavesAgain(steps: seq<Step>)
    requires steps != []
    ensures var prefix := steps[..|steps| - 1];
            NeverLeavesAgain(steps) <==> NeverLeavesAgain(prefix) && !LeavesAgain(steps, |prefix|)
  {
    var prefix := steps[..|steps| - 1];
    forall i: nat | i < |prefix| ensures LeavesAgain(steps, i) <==> LeavesAgain(prefix, i) {
      assert steps[..i] == prefix[..i];
    }
    if NeverLeavesAgain(steps) {
      forall i: nat ensures !LeavesAgain(prefix, i) {
        assert i < |prefix| ==> !LeavesAgain(steps, i);
      }
    }
  }

  /** A leaving session's disconnect alternates exactly when it was registered. */
  lemma LeaveAlternates(s: Server, o: nat)
    requires RegistrySound(s) && Live(s, o)
    ensures Alternates(s.callbacks, Callback(s.sessions[o].address, false)) <==> Registered(s, o)
  {
    var a := s.sessions[o].address;
    if a in s.registry && s.registry[a] != o {
      assert Registered(s, s.registry[a]) && Live(s, s.registry[a]);
      assert false;
    }
  }

  lemma AcceptAlternates(s: Server, a: nat)
    requires RegistrySound(s) && Enabled(s, Accepted(a))
    ensures Alternates(s.callbacks, Callback(a, true))
  {
    assert a in s.registry ==> Live(s, s.registry[a]);
  }

  lemma ClosePairs(s: Server, order: seq<nat>)
    requires FollowsCallbacks(s) && Enumerates(order, s.registry.Keys)
    ensures Paired(s.callbacks + Disconnects(order)) <==> Paired(s.callbacks)
  {
    PairedDisconnects(s.callbacks, order);
  }

  /** One step keeps the callbacks paired unless it makes a session leave again. */
  lemma StepPairs(s: Server, step: Step)
    requires RegistrySound(s)
    ensures Paired(Next(s, step).callbacks) <==> Paired(s.callbacks) && !Repeats(s, step)
  {
    if Enabled(s, step) {
      match step
      case Accepted(a) =>
        PairedAppended(s.callbacks, Callback(a, true));
        AcceptAlternates(s, a);
      case ReadFailed(o) =>
        PairedAppended(s.callbacks, Callback(s.sessions[o].address, false));
        LeaveAlternates(s, o);
      case WriteCompleted(o, ok, n) =>
        PairedAppended(s.callbacks, Callback(s.sessions[o].address, false));
        LeaveAlternates(s, o);
      case Close(order) => ClosePairs(s, order);
      case _ =>
    }
  }

  /** In a run the connects and disconnects of every address take turns if and only if every session that
      leaves is registered when it does. */
  lemma {:induction false} CallbacksPairedExactly(steps: seq<Step>)
    ensures Paired(Run(steps).callbacks) <==> NeverLeavesAgain(steps)
  {
    if steps != [] {
      var prefix, last := steps[..|steps| - 1], steps[|steps| - 1];
      CallbacksPairedExactly(prefix);
      RegistryFollowsCallbacks(prefix);
      StepPairs(Run(prefix), last);
      LastLeavesAgain(steps);
    }
  }

  const ACCEPTED := Server([Session(7, IDLE, true)], map[7 := 0], [Callback(7, true)])
  const CLOSED := Server([Session(7, IDLE, true)], map[], [Callback(7, true), Callback(7, false)])

  lemma OneAccepted()
    ensures Run([Accepted(7)]) == ACCEPTED
  {
    assert [Accepted(7)] == [] + [Accepted(7)];
    NextIsRun([], Accepted(7));
  }

  lemma OneClosed()
    ensures Next(ACCEPTED, Close([7])) == CLOSED
  {
    assert Ids([7]) == {7} == ACCEPTED.registry.Keys;
    assert Disconnects([7]) == [Callback(7, false)];
  }

  lemma AcceptedThenClosed()
    ensures Run([Accepted(7), Close([7])]) == CLOSED
  {
    OneAccepted();
    OneClosed();
    assert [Accepted(7), Close([7])] == [Accepted(7)] + [Close([7])];
    NextIsRun([Accepted(7)], Close([7]));
  }

  /** The failed read of a closed session reports its disconnect a second time. */
  lemma DisconnectCanRepeat()
    ensures var calls := Run([Accepted(7), Close([7]), ReadFailed(0)]).callbacks;
            calls == [Callback(7, true), Callback(7, false), Callback(7, false)] && !Paired(calls)
  {
    var steps := [Accepted(7), Close([7])];
    AcceptedThenClosed();
    NextIsRun(steps, ReadFailed(0));
    assert [Accepted(7), Close([7]), ReadFailed(0)] == steps + [ReadFailed(0)];
    RegistryFollowsCallbacks(steps);
    StepPairs(CLOSED, ReadFailed(0));
  }

  /** What the calls of write_to answer, in order. */
  function Answers(steps: seq<Step>): seq<bool> {
    if steps == [] then []
    else
      var prefix, last := steps[..|steps| - 1], steps[|steps| - 1];
      Answers(prefix) + if last.WriteTo? then [last.address in Run(prefix).registry] else []
  }

  /** The run and its answers one step further. */
  lemma NextPrefix(steps: seq<Step>, i: nat)
    requires i < |steps|
    ensures Run(steps[..i + 1]) == Next(Run(steps[..i]), steps[i])
    ensures Answers(steps[..i + 1]) ==
            Answers(steps[..i]) + if steps[i].WriteTo? then [steps[i].address in Run(steps[..i]).registry] else []
  {
    assert steps[..i + 1][..i] == steps[..i];
  }

  // ----- Routing -----

  /** The chunks addressed to a session object while it was registered, read off the run alone. */
  function AddressedTo(steps: seq<Step>, o: nat): seq<Chunk> {
    if steps == [] then []
    else
      var prefix, last := steps[..|steps| - 1], steps[|steps| - 1];
      var s := Run(prefix);
      AddressedTo(prefix, o) +
      if Registered(s, o) && Addresses(last, s.sessions[o].address) then [last.chunk] else []
  }

  lemma RouteOne(s: Server, step: Step, chunk: Chunk, o: nat)
    requires o < |s.sessions|
    ensures o < |Route(s, step, chunk).sessions|
    ensures Route(s, step, chunk).sessions[o] ==
            if Registered(s, o) && Addresses(step, s.sessions[o].address)
            then s.sessions[o].(pump := Push(s.sessions[o].pump, chunk)) else s.sessions[o]
  {
  }

  /** One step on one session's pump. */
  lemma StepRoutes(s: Server, step: Step, o: nat, accepted: seq<Chunk>)
    requires o < |s.sessions| && Faithful(s.sessions[o].pump, accepted)
    ensures o < |Next(s, step).sessions|
    ensures Faithful(Next(s, step).sessions[o].pump,
                     accepted + if Registered(s, o) && Addresses(step, s.sessions[o].address) then [step.chunk] else [])
  {
    assert accepted + [] == accepted;
    if Enabled(s, step) {
      match step
      case WriteTo(_, chunk) => RouteOne(s, step, chunk, o); PushKeeps(s.sessions[o].pump, accepted, chunk);
      case WriteToAll(chunk) => RouteOne(s, step, chunk, o); PushKeeps(s.sessions[o].pump, accepted, chunk);
      case WriteToAllExcept(_, chunk) => RouteOne(s, step, chunk, o); PushKeeps(s.sessions[o].pump, accepted, chunk);
      case WriteCompleted(p, ok, n) =>
        if p == o {
          CompleteKeeps(s.sessions[o].pump, accepted, ok, n);
        }
      case _ =>
    }
  }

  lemma {:induction false} NotYetAddressed(steps: seq<Step>, o: nat)
    requires |Run(steps).sessions| <= o
    ensures AddressedTo(steps, o) == []
  {
    if steps != [] {
      var prefix := steps[..|steps| - 1];
      assert |Run(prefix).sessions| <= |Run(steps).sessions|;
      NotYetAddressed(prefix, o);
    }
  }

  /** In every run and for any mix of unicast, broadcast and broadcast-except, a session's pump carries
      exactly the chunks addressed to it while it was registered, in order: until its first failed write one
      write is in flight exactly when its deque is not empty, and its wire is always a prefix of those
      chunks' bytes. */
  lemma {:induction false} RoutingIsFaithful(steps: seq<Step>, o: nat)
    requires o < |Run(steps).sessions|
    ensures var p := Run(steps).sessions[o].pump;
            && Faithful(p, AddressedTo(steps, o))
            && p.wire <= Flatten(AddressedTo(steps, o))
            && (!p.failed ==> Flowing(p))
            && (p.sending == [] ==> p.wire == Flatten(AddressedTo(steps, o)))
  {
    var prefix, last := steps[..|steps| - 1], steps[|steps| - 1];
    var s := Run(prefix);
    if o < |s.sessions| {
      RoutingIsFaithful(prefix, o);
      StepRoutes(s, last, o, AddressedTo(prefix, o));
    } else {
      NotYetAddressed(prefix, o);
      assert AddressedTo(steps, o) == [];
      assert Run(steps).sessions[o].pump == IDLE;
    }
    WireIsPrefix(Run(steps).sessions[o].pump, AddressedTo(steps, o));
  }
}
