/** The server and session objects under the server model: any run, played on the objects, keeps every
    session object and the session map in step with the model. */
module ConcreteServer {
  import opened Basics
  import opened WritePump
  import opened Callbacks
  import opened ServerSpec
  import opened TcpServer

  ghost predicate DistinctObjects(objs: seq<TcpServer.Session>) {
    forall i, j :: 0 <= i < j < |objs| ==> objs[i] != objs[j]
  }

  /** The map holds exactly the objects the model's registry names. */
  ghost predicate MapAgrees(sessions: map<nat, TcpServer.Session>, objs: seq<TcpServer.Session>, registry: map<nat, nat>) {
    && sessions.Keys == registry.Keys
    && forall a :: a in registry ==> registry[a] < |objs| && sessions[a] == objs[registry[a]]
  }

  ghost predicate PumpsAgree(objs: seq<TcpServer.Session>, model: seq<ServerSpec.Session>)
    reads objs
  {
    |objs| == |model| && forall o :: 0 <= o < |objs| ==> objs[o].View() == model[o].pump
  }

  ghost predicate Agrees(server: TcpServer.Server, objs: seq<TcpServer.Session>, s: ServerSpec.Server)
    reads server, objs
  {
    && DistinctObjects(objs)
    && server.callbacks == s.callbacks
    && MapAgrees(server.sessions, objs, s.registry)
    && PumpsAgree(objs, s.sessions)
  }

  lemma MapIsValid(server: TcpServer.Server, objs: seq<TcpServer.Session>, s: ServerSpec.Server)
    requires Agrees(server, objs, s) && EntriesNameSessions(s)
    ensures server.Valid()
    ensures forall x :: x in server.sessions.Values ==> x in objs
  {
  }

  /** Registered objects are in the map under their address, the others are not in it. */
  lemma Placement(sessions: map<nat, TcpServer.Session>, objs: seq<TcpServer.Session>, s: ServerSpec.Server, o: nat)
    requires o < |objs| == |s.sessions| && DistinctObjects(objs)
    requires MapAgrees(sessions, objs, s.registry) && EntriesNameSessions(s)
    ensures Registered(s, o) ==> s.sessions[o].address in sessions && sessions[s.sessions[o].address] == objs[o]
    ensures !Registered(s, o) ==> objs[o] !in sessions.Values
  {
  }

  /** A session the step does not reach keeps its pump, one it reaches has the chunk pushed. */
  lemma RoutedPumps(objs: seq<TcpServer.Session>, s: ServerSpec.Server, step: Step)
    requires step.WriteTo? || step.WriteToAll? || step.WriteToAllExcept?
    requires |objs| == |s.sessions|
    requires forall o :: 0 <= o < |objs| ==>
               objs[o].View() == if Registered(s, o) && Addresses(step, s.sessions[o].address)
                                 then Push(s.sessions[o].pump, step.chunk) else s.sessions[o].pump
    ensures PumpsAgree(objs, Next(s, step).sessions)
  {
  }

  method PlayUnicast(server: TcpServer.Server, objs: seq<TcpServer.Session>, ghost s: ServerSpec.Server, a: nat, chunk: Chunk)
    returns (found: bool)
    requires Agrees(server, objs, s) && EntriesNameSessions(s)
    modifies objs
    ensures Agrees(server, objs, Next(s, WriteTo(a, chunk)))
    ensures found == (a in s.registry)
  {
    MapIsValid(server, objs, s);
    forall o | 0 <= o < |objs|
      ensures Registered(s, o) ==> s.sessions[o].address in server.sessions && server.sessions[s.sessions[o].address] == objs[o]
      ensures !Registered(s, o) ==> objs[o] !in server.sessions.Values
    {
      Placement(server.sessions, objs, s, o);
    }
    found := server.WriteTo(a, chunk);
    RoutedPumps(objs, s, WriteTo(a, chunk));
  }

  method PlayBroadcast(server: TcpServer.Server, objs: seq<TcpServer.Session>, ghost s: ServerSpec.Server, chunk: Chunk)
    requires Agrees(server, objs, s) && EntriesNameSessions(s)
    modifies objs
    ensures Agrees(server, objs, Next(s, WriteToAll(chunk)))
  {
    MapIsValid(server, objs, s);
    forall o | 0 <= o < |objs|
      ensures Registered(s, o) ==> s.sessions[o].address in server.sessions && server.sessions[s.sessions[o].address] == objs[o]
      ensures !Registered(s, o) ==> objs[o] !in server.sessions.Values
    {
      Placement(server.sessions, objs, s, o);
    }
    server.WriteToAll(chunk);
    RoutedPumps(objs, s, WriteToAll(chunk));
  }

  method PlayBroadcastExcept(server: TcpServer.Server, objs: seq<TcpServer.Session>, ghost s: ServerSpec.Server, a: nat, chunk: Chunk)
    requires Agrees(server, objs, s) && EntriesNameSessions(s)
    modifies objs
    ensures Agrees(server, objs, Next(s, WriteToAllExcept(a, chunk)))
  {
    MapIsValid(server, objs, s);
    forall o | 0 <= o < |objs|
      ensures Registered(s, o) ==> s.sessions[o].address in server.sessions && server.sessions[s.sessions[o].address] == objs[o]
      ensures !Registered(s, o) ==> objs[o] !in server.sessions.Values
    {
      Placement(server.sessions, objs, s, o);
    }
    server.WriteToAllExcept(a, chunk);
    RoutedPumps(objs, s, WriteToAllExcept(a, chunk));
  }

  method PlayAccept(server: TcpServer.Server, objs: seq<TcpServer.Session>, ghost s: ServerSpec.Server, a: nat)
    returns (objs': seq<TcpServer.Session>)
    requires Agrees(server, objs, s) && EntriesNameSessions(s) && Enabled(s, Accepted(a))
    modifies server
    ensures Agrees(server, objs', Next(s, Accepted(a)))
    ensures |objs'| == |objs| + 1 && objs' == objs + [objs'[|objs|]] && fresh(objs'[|objs|])
  {
    MapIsValid(server, objs, s);
    assert a !in server.sessions by {
      if a in s.registry {
        assert Live(s, s.registry[a]);
      }
    }
    var session := server.HandleAccept(true, a);
    objs' := objs + [session];
    AcceptedMap(server.sessions, objs, s, a, session);
    AcceptedPumps(objs, s, a, session);
  }

  lemma AcceptedMap(sessions: map<nat, TcpServer.Session>, objs: seq<TcpServer.Session>, s: ServerSpec.Server, a: nat,
                    session: TcpServer.Session)
    requires |objs| == |s.sessions| && a in sessions && sessions[a] == session
    requires sessions.Keys == s.registry.Keys + {a}
    requires forall b :: b in s.registry && b != a ==> s.registry[b] < |objs| && sessions[b] == objs[s.registry[b]]
    ensures MapAgrees(sessions, objs + [session], s.registry[a := |s.sessions|])
  {
  }

  lemma AcceptedPumps(objs: seq<TcpServer.Session>, s: ServerSpec.Server, a: nat, session: TcpServer.Session)
    requires DistinctObjects(objs) && PumpsAgree(objs, s.sessions)
    requires session !in objs && session.View() == IDLE
    ensures DistinctObjects(objs + [session])
    ensures PumpsAgree(objs + [session], s.sessions + [ServerSpec.Session(a, IDLE, true)])
  {
  }

  /** leave on the objects. */
  method PlayLeave(server: TcpServer.Server, objs: seq<TcpServer.Session>, ghost s: ServerSpec.Server, a: nat, ghost o: nat)
    requires Agrees(server, objs, s) && EntriesNameSessions(s)
    requires o < |s.sessions| && a == s.sessions[o].address
    modifies server
    ensures Agrees(server, objs, Leave(s, o))
  {
    MapIsValid(server, objs, s);
    server.Leave(a);
  }

  method PlayClose(server: TcpServer.Server, objs: seq<TcpServer.Session>, ghost s: ServerSpec.Server, order: seq<nat>)
    requires Agrees(server, objs, s) && EntriesNameSessions(s) && Enabled(s, Close(order))
    modifies server
    ensures Agrees(server, objs, Next(s, Close(order)))
  {
    MapIsValid(server, objs, s);
    server.Close(order);
  }

  /** A completed write on its session object; the caller makes the session leave if it failed. */
  method PlayCompletion(server: TcpServer.Server, objs: seq<TcpServer.Session>, ghost s: ServerSpec.Server, o: nat, ok: bool, n: nat)
    returns (leaves: bool)
    requires Agrees(server, objs, s) && Enabled(s, WriteCompleted(o, ok, n))
    modifies objs
    ensures leaves == !ok
    ensures Agrees(server, objs, s.(sessions := s.sessions[o := s.sessions[o].(pump := Complete(s.sessions[o].pump, ok, n))]))
  {
    assert objs[o].View() == s.sessions[o].pump;
    leaves := objs[o].HandleWrite(ok, n);
  }

  /** One step of a run on the objects.  Addresses are those of the session objects, so the model's state
      is at hand only to read them and to know what can happen. */
  method PlayStep(server: TcpServer.Server, objs: seq<TcpServer.Session>, s: ServerSpec.Server, step: Step)
    returns (objs': seq<TcpServer.Session>, answers: seq<bool>)
    requires Agrees(server, objs, s) && RegistrySound(s)
    modifies server, objs
    ensures Agrees(server, objs', Next(s, step))
    ensures answers == if step.WriteTo? then [step.address in s.registry] else []
    ensures objs' == objs || (|objs'| == |objs| + 1 && objs' == objs + [objs'[|objs|]] && fresh(objs'[|objs|]))
  {
    objs', answers := objs, [];
    if Enabled(s, step) {
      match step {
        case Accepted(a) => objs' := PlayAccept(server, objs, s, a);
        case WriteTo(a, chunk) =>
          var found := PlayUnicast(server, objs, s, a, chunk);
          answers := [found];
        case WriteToAll(chunk) => PlayBroadcast(server, objs, s, chunk);
        case WriteToAllExcept(a, chunk) => PlayBroadcastExcept(server, objs, s, a, chunk);
        case ReadFailed(o) =>
          ghost var s' := s.(sessions := s.sessions[o := s.sessions[o].(reading := false)]);
          SessionsKeepRegistry(s, s');
          PlayLeave(server, objs, s', s.sessions[o].address, o);
        case WriteCompleted(o, ok, n) =>
          ghost var s' := s.(sessions := s.sessions[o := s.sessions[o].(pump := Complete(s.sessions[o].pump, ok, n))]);
          SessionsKeepRegistry(s, s');
          var leaves := PlayCompletion(server, objs, s, o, ok, n);
          if leaves {
            PlayLeave(server, objs, s', s.sessions[o].address, o);
          }
        case Close(order) => PlayClose(server, objs, s, order);
        case _ =>
      }
    }
  }

  /** The i-th step of a run. */
  method PlayNext(server: TcpServer.Server, objs: seq<TcpServer.Session>, steps: seq<Step>, i: nat, s: ServerSpec.Server)
    returns (objs': seq<TcpServer.Session>, s': ServerSpec.Server, more: seq<bool>)
    requires i < |steps| && s == Run(steps[..i]) && Agrees(server, objs, s)
    modifies server, objs
    ensures s' == Run(steps[..i + 1]) && Agrees(server, objs', s')
    ensures Answers(steps[..i + 1]) == Answers(steps[..i]) + more
    ensures objs' == objs || (|objs'| == |objs| + 1 && objs' == objs + [objs'[|objs|]] && fresh(objs'[|objs|]))
  {
    RegistryFollowsCallbacks(steps[..i]);
    NextPrefix(steps, i);
    objs', more := PlayStep(server, objs, s, steps[i]);
    s' := Next(s, steps[i]);
  }

  /** Plays a whole run on a new server: session objects, session map, the sequence of callbacks and the
      answers of write_to are the model's. */
  method Play(steps: seq<Step>) returns (server: TcpServer.Server, objs: seq<TcpServer.Session>, answers: seq<bool>)
    ensures Agrees(server, objs, Run(steps))
    ensures answers == Answers(steps)
  {
    server := new TcpServer.Server();
    objs, answers := [], [];
    var s := START;
    for i := 0 to |steps|
      invariant s == Run(steps[..i]) && Agrees(server, objs, s) && answers == Answers(steps[..i])
      invariant fresh(server) && forall o :: 0 <= o < |objs| ==> fresh(objs[o])
    {
      var more;
      objs, s, more := PlayNext(server, objs, steps, i, s);
      answers := answers + more;
    }
    assert steps[..|steps|] == steps;
  }
}
