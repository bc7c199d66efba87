/** The server and session objects: handlers that update the deque and the session map in place. */
module TcpServer {
  import opened Basics
  import opened WritePump
  import opened Callbacks

  class Session {
    var sending: seq<Chunk>
    var inFlight: seq<Chunk>
    var wire: seq<Byte>
    ghost var done: seq<Chunk>
    ghost var failed: bool

    ghost function View(): Pump
      reads this
    {
      Pump(sending, inFlight, wire, done, failed)
    }

    constructor ()
      ensures View() == IDLE
    {
      sending, inFlight, wire := [], [], [];
      done, failed := [], false;
    }

    method DoWrite()
      requires sending != []
      modifies this
      ensures View() == WritePump.DoWrite(old(View()))
    {
      inFlight := inFlight + [sending[0]];
    }

    method Write(chunk: Chunk)
      modifies this
      ensures View() == Push(old(View()), chunk)
    {
      var writeInProgress := sending != [];
      sending := sending + [chunk];
      if !writeInProgress {
        DoWrite();
      }
    }

    /** The socket completes the first write in flight and handle_write runs; leaves says that the handler
        makes the session leave the server. */
    method HandleWrite(ok: bool, n: nat) returns (leaves: bool)
      requires inFlight != [] && sending != [] && (!ok ==> n <= |inFlight[0]|)
      modifies this
      ensures View() == Complete(old(View()), ok, n)
      ensures leaves == !ok
    {
      var chunk := inFlight[0];
      inFlight := inFlight[1..];
      if !ok {
        wire := wire + chunk[..n];
        failed := true;
        return true;
      }
      wire := wire + chunk;
      done := done + [sending[0]];
      sending := sending[1..];
      if sending != [] {
        DoWrite();
      }
      leaves := false;
    }
  }

  class Server {
    var sessions: map<nat, Session>
    var callbacks: seq<Callback>

    /** No two ids share a session object. */
    ghost predicate Valid()
      reads this
    {
      forall a, b :: a in sessions && b in sessions && a != b ==> sessions[a] != sessions[b]
    }

    constructor ()
      ensures Valid() && sessions == map[] && callbacks == []
    {
      sessions, callbacks := map[], [];
    }

    /** The loop of both broadcasts: every registered session except the one given, in any order. */
    method Broadcast(skip: set<nat>, chunk: Chunk)
      requires Valid()
      modifies sessions.Values
      ensures forall id :: id in sessions ==>
                sessions[id].View() == if id in skip then old(sessions[id].View()) else Push(old(sessions[id].View()), chunk)
    {
      var todo := sessions.Keys;
      while todo != {}
        invariant todo <= sessions.Keys
        invariant forall id :: id in sessions ==>
                    sessions[id].View() ==
                    if id in skip || id in todo then old(sessions[id].View()) else Push(old(sessions[id].View()), chunk)
        decreases todo
      {
        var id :| id in todo;
        if id !in skip {
          sessions[id].Write(chunk);
        }
        todo := todo - {id};
      }
    }

    method WriteToAll(chunk: Chunk)
      requires Valid()
      modifies sessions.Values
      ensures forall id :: id in sessions ==> sessions[id].View() == Push(old(sessions[id].View()), chunk)
    {
      Broadcast({}, chunk);
    }

    method WriteToAllExcept(id: nat, chunk: Chunk)
      requires Valid()
      modifies sessions.Values
      ensures forall a :: a in sessions && a != id ==> sessions[a].View() == Push(old(sessions[a].View()), chunk)
      ensures id in sessions ==> sessions[id].View() == old(sessions[id].View())
    {
      Broadcast({id}, chunk);
    }

    method WriteTo(id: nat, chunk: Chunk) returns (found: bool)
      requires Valid()
      modifies sessions.Values
      ensures found == (id in sessions)
      ensures found ==> sessions[id].View() == Push(old(sessions[id].View()), chunk)
      ensures forall a :: a in sessions && a != id ==> sessions[a].View() == old(sessions[a].View())
    {
      if id !in sessions {
        return false;
      }
      sessions[id].Write(chunk);
      found := true;
    }

    method Leave(id: nat)
      requires Valid()
      modifies this
      ensures Valid()
      ensures sessions == old(sessions) - {id}
      ensures callbacks == old(callbacks) + [Callback(id, false)]
    {
      sessions := sessions - {id};
      callbacks := callbacks + [Callback(id, false)];
    }

    /** handle_accept; the session object is new, so its address is that of no registered session. */
    method HandleAccept(ok: bool, id: nat) returns (session: Session?)
      requires Valid() && id !in sessions
      modifies this
      ensures Valid()
      ensures !ok ==> session == null && sessions == old(sessions) && callbacks == old(callbacks)
      ensures ok ==> session != null && fresh(session) && session.View() == IDLE
                     && sessions == old(sessions)[id := session]
                     && callbacks == old(callbacks) + [Callback(id, true)]
    {
      if !ok {
        return null;
      }
      var s := new Session();
      callbacks := callbacks + [Callback(id, true)];
      sessions := sessions[id := s];
      session := s;
    }

    /** close: every registered session leaves, each with one disconnect callback.  The order is the one in
        which the hash map happens to be walked: any order of its ids. */
    method Close(order: seq<nat>)
      requires Valid() && Enumerates(order, sessions.Keys)
      modifies this
      ensures Valid() && sessions == map[]
      ensures callbacks == old(callbacks) + Disconnects(order)
    {
      for i := 0 to |order|
        invariant Valid() && sessions.Keys == Ids(order[i..])
        invariant callbacks == old(callbacks) + Disconnects(order[..i])
      {
        assert order[i..] == [order[i]] + order[i + 1..];
        assert order[i] !in order[i + 1..];
        assert Ids(order[i..]) == {order[i]} + Ids(order[i + 1..]);
        Leave(order[i]);
        DisconnectsSplit(old(callbacks), order[..i + 1]);
        assert order[..i + 1][..i] == order[..i];
      }
      assert order[..|order|] == order;
    }
  }
}
