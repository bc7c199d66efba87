/** The sequence of connection callbacks the server makes to the application. */
module Callbacks {
  import opened Basics

  /** connected or disconnected */
  datatype Callback = Callback(id: nat, connected: bool)

  function Disconnects(ids: seq<nat>): (calls: seq<Callback>)
    ensures |calls| == |ids|
    ensures forall i :: 0 <= i < |ids| ==> calls[i] == Callback(ids[i], false)
  {
    seq(|ids|, i requires 0 <= i < |ids| => Callback(ids[i], false))
  }

  function Ids(order: seq<nat>): set<nat> {
    set id | id in order
  }

  /** order walks over the ids, each once. */
  predicate Enumerates(order: seq<nat>, ids: set<nat>) {
    && (forall i, j :: 0 <= i < j < |order| ==> order[i] != order[j])
    && ids == Ids(order)
  }

  /** The last callback made for an id. */
  function LatestCallback(calls: seq<Callback>, id: nat): Option<bool> {
    if calls == [] then None
    else if calls[|calls| - 1].id == id then Some(calls[|calls| - 1].connected)
    else LatestCallback(calls[..|calls| - 1], id)
  }

  lemma LatestAppended(calls: seq<Callback>, c: Callback, id: nat)
    ensures LatestCallback(calls + [c], id) == if c.id == id then Some(c.connected) else LatestCallback(calls, id)
  {
    assert (calls + [c])[..|calls|] == calls;
  }

  lemma DisconnectsSplit(calls: seq<Callback>, ids: seq<nat>)
    requires ids != []
    ensures calls + Disconnects(ids) == (calls + Disconnects(ids[..|ids| - 1])) + [Callback(ids[|ids| - 1], false)]
  {
  }

  lemma {:induction false} DisconnectsAppended(calls: seq<Callback>, ids: seq<nat>, id: nat)
    ensures LatestCallback(calls + Disconnects(ids), id) == if id in ids then Some(false) else LatestCallback(calls, id)
    decreases |ids|
  {
    if ids == [] {
      assert calls + Disconnects(ids) == calls;
    } else {
      var init, last := ids[..|ids| - 1], ids[|ids| - 1];
      DisconnectsAppended(calls, init, id);
      DisconnectsSplit(calls, ids);
      LatestAppended(calls + Disconnects(init), Callback(last, false), id);
      assert ids == init + [last];
    }
  }

  // ----- Connects and disconnects in pairs -----

  /** The callback changes what the application knows about its id: a disconnect of a connected id, or a
      connect of one that is not. */
  predicate Alternates(calls: seq<Callback>, c: Callback) {
    LatestCallback(calls, c.id) == Some(true) <==> !c.connected
  }

  /** Per id, connects and disconnects take turns, starting with a connect. */
  predicate Paired(calls: seq<Callback>) {
    calls == [] || (Paired(calls[..|calls| - 1]) && Alternates(calls[..|calls| - 1], calls[|calls| - 1]))
  }

  lemma PairedAppended(calls: seq<Callback>, c: Callback)
    ensures Paired(calls + [c]) <==> Paired(calls) && Alternates(calls, c)
  {
    assert (calls + [c])[..|calls|] == calls;
  }

  /** One disconnect for each of several connected ids keeps the pairs. */
  lemma {:induction false} PairedDisconnects(calls: seq<Callback>, ids: seq<nat>)
    requires forall i, j :: 0 <= i < j < |ids| ==> ids[i] != ids[j]
    requires forall id :: id in ids ==> LatestCallback(calls, id) == Some(true)
    ensures Paired(calls + Disconnects(ids)) <==> Paired(calls)
    decreases |ids|
  {
    if ids == [] {
      assert calls + Disconnects(ids) == calls;
    } else {
      var init, last := ids[..|ids| - 1], ids[|ids| - 1];
      PairedDisconnects(calls, init);
      DisconnectsSplit(calls, ids);
      DisconnectsAppended(calls, init, last);
      PairedAppended(calls + Disconnects(init), Callback(last, false));
    }
  }
}
