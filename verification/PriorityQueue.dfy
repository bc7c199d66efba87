/** The abstract stable priority queue that both index builds of the message queue implement,
    and an unordered reference model that does not mention any order of storage.

    A queue is a sequence in ascending priority order; a receive takes the last element and a send
    inserts in front of every message of the same or a higher priority.  The reference model is a
    plain set of pending messages from which a receive picks the best one. */
module PriorityQueue {
  import opened Basics

  datatype Message = Message(payload: seq<Byte>, priority: nat)

  // ----- The sorted queue -----

  /** The least position at which a message of priority p keeps the order. */
  function LowerBound(ps: seq<nat>, p: nat): (k: nat)
    ensures k <= |ps|
    ensures forall i :: 0 <= i < k ==> ps[i] < p
    ensures k < |ps| ==> p <= ps[k]
  {
    if ps == [] || p <= ps[0] then 0 else 1 + LowerBound(ps[1..], p)
  }

  ghost predicate Ascending(ps: seq<nat>) {
    forall i, j :: 0 <= i < j < |ps| ==> ps[i] <= ps[j]
  }

  lemma LowerBoundUnique(ps: seq<nat>, p: nat, k: nat)
    requires k <= |ps|
    requires forall i :: 0 <= i < k ==> ps[i] < p
    requires k < |ps| ==> p <= ps[k]
    ensures LowerBound(ps, p) == k
  {
  }

  function Priorities(q: seq<Message>): (ps: seq<nat>)
    ensures |ps| == |q|
    ensures forall i :: 0 <= i < |q| ==> ps[i] == q[i].priority
  {
    seq(|q|, i requires 0 <= i < |q| => q[i].priority)
  }

  function InsertAt<T>(q: seq<T>, k: nat, x: T): seq<T>
    requires k <= |q|
  {
    q[..k] + [x] + q[k..]
  }

  function Enqueue(q: seq<Message>, m: Message): seq<Message> {
    InsertAt(q, LowerBound(Priorities(q), m.priority), m)
  }

  function Top(q: seq<Message>): Message
    requires q != []
  {
    q[|q| - 1]
  }

  function Dequeue(q: seq<Message>): seq<Message>
    requires q != []
  {
    q[..|q| - 1]
  }

  // ----- Sequential histories -----

  datatype Event = Sent(message: Message) | Received(message: Message)

  /** One event on the queue, or None when the queue cannot produce it: a send needs a free place and a
      receive must return the top message. */
  function QueueStep(cap: nat, q: seq<Message>, e: Event): Option<seq<Message>> {
    match e
    case Sent(m) => if |q| < cap then Some(Enqueue(q, m)) else None
    case Received(m) => if q != [] && Top(q) == m then Some(Dequeue(q)) else None
  }

  /** The queue after a history, or None when the history is not one the queue can produce. */
  function Replay(cap: nat, log: seq<Event>): Option<seq<Message>> {
    if log == [] then Some([])
    else
      var before := Replay(cap, log[..|log| - 1]);
      if before.None? then None else QueueStep(cap, before.value, log[|log| - 1])
  }

  lemma ReplayAppend(cap: nat, log: seq<Event>, e: Event)
    ensures Replay(cap, log + [e]) ==
            var before := Replay(cap, log);
            if before.None? then None else QueueStep(cap, before.value, e)
  {
  }

  // ----- The reference model: a set of pending messages -----

  /** A pending message with the number of sends that came before it. */
  datatype Pending = Pending(message: Message, ticket: nat)

  /** x must be delivered before y: higher priority first, then earlier sent. */
  ghost predicate Before(x: Pending, y: Pending) {
    x.message.priority > y.message.priority
    || (x.message.priority == y.message.priority && x.ticket < y.ticket)
  }

  ghost predicate IsBest(x: Pending, bag: set<Pending>) {
    x in bag && forall y :: y in bag && y != x ==> Before(x, y)
  }

  /** State of the reference model: what is pending, how many sends happened, what was delivered. */
  datatype Bag = Bag(pending: set<Pending>, sends: nat, delivered: seq<Pending>)

  ghost function BagReplay(cap: nat, log: seq<Event>): Option<Bag> {
    if log == [] then Some(Bag({}, 0, []))
    else
      var before := BagReplay(cap, log[..|log| - 1]);
      if before.None? then None else BagStep(cap, before.value, log[|log| - 1])
  }

  ghost function BagStep(cap: nat, b: Bag, e: Event): Option<Bag> {
    match e
    case Sent(m) =>
      if |b.pending| < cap
      then Some(Bag(b.pending + {Pending(m, b.sends)}, b.sends + 1, b.delivered))
      else None
    case Received(m) =>
      if exists x :: IsBest(x, b.pending) && x.message == m then
        var x :| IsBest(x, b.pending) && x.message == m;
        Some(Bag(b.pending - {x}, b.sends, b.delivered + [x]))
      else None
  }

  // ----- The sorted queue with tickets, used to relate the two -----

  function Strip(t: seq<Pending>): (q: seq<Message>)
    ensures |q| == |t|
    ensures forall i :: 0 <= i < |t| ==> q[i] == t[i].message
  {
    seq(|t|, i requires 0 <= i < |t| => t[i].message)
  }

  function Elements(t: seq<Pending>): (s: set<Pending>)
    ensures forall x :: x in s <==> x in t
  {
    set x | x in t
  }

  /** Ascending priority; among equals the earlier message is nearer the top. */
  ghost predicate DeliveryOrder(t: seq<Pending>) {
    forall i, j :: 0 <= i < j < |t| ==> Before(t[j], t[i])
  }

  ghost predicate TicketsBelow(t: seq<Pending>, n: nat) {
    forall i :: 0 <= i < |t| ==> t[i].ticket < n
  }

  ghost predicate Tracks(t: seq<Pending>, q: seq<Message>, b: Bag) {
    && Strip(t) == q
    && Elements(t) == b.pending
    && |b.pending| == |t|
    && DeliveryOrder(t)
    && TicketsBelow(t, b.sends)
  }

  lemma InsertElements(t: seq<Pending>, k: nat, x: Pending)
    requires k <= |t|
    ensures Elements(InsertAt(t, k, x)) == Elements(t) + {x}
  {
  }

  /** The new message has the largest ticket, so it goes below its equals and above everything lower. */
  lemma InsertDeliveryOrder(t: seq<Pending>, k: nat, x: Pending)
    requires k <= |t| && DeliveryOrder(t)
    requires forall i :: 0 <= i < k ==> Before(x, t[i])
    requires forall i :: k <= i < |t| ==> Before(t[i], x)
    ensures DeliveryOrder(InsertAt(t, k, x))
  {
  }

  lemma EnqueueTracks(t: seq<Pending>, q: seq<Message>, b: Bag, m: Message) returns (t': seq<Pending>)
    requires Tracks(t, q, b)
    ensures Tracks(t', Enqueue(q, m), Bag(b.pending + {Pending(m, b.sends)}, b.sends + 1, b.delivered))
  {
    var x := Pending(m, b.sends);
    var k := LowerBound(Priorities(q), m.priority);
    t' := InsertAt(t, k, x);
    InsertTickets(t, k, x);
    StripInsert(t, k, x);
    InsertElements(t, k, x);
    PlaceOfNewest(t, q, k, x);
    InsertDeliveryOrder(t, k, x);
  }

  lemma InsertTickets(t: seq<Pending>, k: nat, x: Pending)
    requires k <= |t| && TicketsBelow(t, x.ticket)
    ensures TicketsBelow(InsertAt(t, k, x), x.ticket + 1)
    ensures x !in Elements(t)
  {
  }

  lemma StripInsert(t: seq<Pending>, k: nat, x: Pending)
    requires k <= |t|
    ensures Strip(InsertAt(t, k, x)) == InsertAt(Strip(t), k, x.message)
  {
  }

  lemma PlaceOfNewest(t: seq<Pending>, q: seq<Message>, k: nat, x: Pending)
    requires Strip(t) == q && DeliveryOrder(t) && TicketsBelow(t, x.ticket)
    requires k == LowerBound(Priorities(q), x.message.priority)
    ensures forall i :: 0 <= i < k ==> Before(x, t[i])
    ensures forall i :: k <= i < |t| ==> Before(t[i], x)
  {
  }

  lemma BestIsUnique(x: Pending, y: Pending, bag: set<Pending>)
    requires IsBest(x, bag) && IsBest(y, bag)
    ensures x == y
  {
    assert x == y || (Before(x, y) && Before(y, x));
  }

  lemma TopIsBest(t: seq<Pending>, q: seq<Message>, b: Bag)
    requires Tracks(t, q, b) && t != []
    ensures q != [] && t[|t| - 1].message == Top(q)
    ensures IsBest(t[|t| - 1], b.pending)
  {
    var x := t[|t| - 1];
    forall y | y in b.pending && y != x ensures Before(x, y) {
      var i :| 0 <= i < |t| && t[i] == y;
    }
  }

  lemma DequeueTracks(t: seq<Pending>, q: seq<Message>, b: Bag)
    requires Tracks(t, q, b) && t != []
    ensures q != []
    ensures var x := t[|t| - 1];
            Tracks(t[..|t| - 1], Dequeue(q), Bag(b.pending - {x}, b.sends, b.delivered + [x]))
  {
    var x := t[|t| - 1];
    var t' := t[..|t| - 1];
    assert t == t' + [x];
    forall i | 0 <= i < |t'| ensures t'[i] != x {
      assert Before(t[|t| - 1], t[i]);
    }
    assert Elements(t') == b.pending - {x};
  }

  /** The queue can deliver m exactly when the reference model can, and then they stay in step. */
  lemma ReceiveTracks(cap: nat, t: seq<Pending>, q: seq<Message>, b: Bag, m: Message)
    requires Tracks(t, q, b)
    ensures q != [] && Top(q) == m <==> BagStep(cap, b, Received(m)).Some?
    ensures q != [] && Top(q) == m ==> t != [] && Tracks(t[..|t| - 1], Dequeue(q), BagStep(cap, b, Received(m)).value)
  {
    if t == [] {
      assert b.pending == {};
    } else {
      TopIsBest(t, q, b);
      DequeueTracks(t, q, b);
      forall y | IsBest(y, b.pending) ensures y == t[|t| - 1] {
        BestIsUnique(y, t[|t| - 1], b.pending);
      }
    }
  }

  /** One event: the queue can produce it exactly when the reference model can, and they stay in step. */
  lemma StepTracks(cap: nat, t: seq<Pending>, q: seq<Message>, b: Bag, e: Event) returns (t': seq<Pending>)
    requires Tracks(t, q, b)
    ensures QueueStep(cap, q, e).Some? <==> BagStep(cap, b, e).Some?
    ensures QueueStep(cap, q, e).Some? ==> Tracks(t', QueueStep(cap, q, e).value, BagStep(cap, b, e).value)
  {
    match e
    case Sent(m) =>
      t' := EnqueueTracks(t, q, b, m);
    case Received(m) =>
      ReceiveTracks(cap, t, q, b, m);
      t' := if t == [] then [] else t[..|t| - 1];
  }

  /** Every history the sorted queue produces is one of the reference model and the other way round,
      with the same messages pending after it. */
  lemma {:induction false} QueueIsBag(cap: nat, log: seq<Event>) returns (t: seq<Pending>)
    ensures Replay(cap, log).Some? <==> BagReplay(cap, log).Some?
    ensures Replay(cap, log).Some? ==>
              Tracks(t, Replay(cap, log).value, BagReplay(cap, log).value)
    decreases |log|
  {
    t := [];
    if log != [] {
      var prefix := log[..|log| - 1];
      t := QueueIsBag(cap, prefix);
      if Replay(cap, prefix).Some? {
        t := StepTracks(cap, t, Replay(cap, prefix).value, BagReplay(cap, prefix).value, log[|log| - 1]);
      }
    }
  }

  // ----- What the reference model promises over every history -----

  ghost predicate EqualPriorityInOrder(delivered: seq<Pending>) {
    forall i, j :: 0 <= i < j < |delivered| && delivered[i].message.priority == delivered[j].message.priority
                   ==> delivered[i].ticket < delivered[j].ticket
  }

  /** Delivered and pending messages carry exactly the tickets handed out, each once. */
  ghost predicate EveryTicketOnce(b: Bag) {
    && (forall n: nat :: n < b.sends <==> HasTicket(b, n))
    && (forall x, y :: x in b.pending && y in b.pending && x.ticket == y.ticket ==> x == y)
    && (forall i, j :: 0 <= i < j < |b.delivered| ==> b.delivered[i].ticket != b.delivered[j].ticket)
    && (forall x, i :: x in b.pending && 0 <= i < |b.delivered| ==> x.ticket != b.delivered[i].ticket)
  }

  ghost predicate HasTicket(b: Bag, n: nat) {
    (exists x :: x in b.pending && x.ticket == n)
    || (exists i :: 0 <= i < |b.delivered| && b.delivered[i].ticket == n)
  }

  /** What is pending was sent after anything of the same priority already delivered. */
  ghost predicate DeliveredFirst(b: Bag) {
    forall i, x :: 0 <= i < |b.delivered| && x in b.pending && b.delivered[i].message.priority == x.message.priority
                   ==> b.delivered[i].ticket < x.ticket
  }

  lemma SentKeepsOrder(cap: nat, b: Bag, m: Message)
    requires EqualPriorityInOrder(b.delivered) && EveryTicketOnce(b) && DeliveredFirst(b)
    requires BagStep(cap, b, Sent(m)).Some?
    ensures var b' := BagStep(cap, b, Sent(m)).value;
            EqualPriorityInOrder(b'.delivered) && EveryTicketOnce(b') && DeliveredFirst(b')
  {
    var b' := BagStep(cap, b, Sent(m)).value;
    var x := Pending(m, b.sends);
    forall i | 0 <= i < |b.delivered| ensures b.delivered[i].ticket < b.sends {
      assert HasTicket(b, b.delivered[i].ticket);
    }
    forall y | y in b.pending ensures y.ticket < b.sends {
      assert HasTicket(b, y.ticket);
    }
    forall n: nat ensures n < b'.sends <==> HasTicket(b', n) {
      assert x in b'.pending;
      if HasTicket(b, n) && exists y :: y in b.pending && y.ticket == n {
        var y :| y in b.pending && y.ticket == n;
        assert y in b'.pending;
      }
      assert n < b.sends <==> HasTicket(b, n);
    }
  }

  lemma TicketsAfterDelivery(b: Bag, x: Pending, n: nat)
    requires x in b.pending
    ensures HasTicket(b, n) <==> HasTicket(Bag(b.pending - {x}, b.sends, b.delivered + [x]), n)
  {
    var b' := Bag(b.pending - {x}, b.sends, b.delivered + [x]);
    assert b'.delivered[|b.delivered|] == x;
    if y :| y in b.pending && y.ticket == n {
      assert y == x || y in b'.pending;
    } else if i :| 0 <= i < |b.delivered| && b.delivered[i].ticket == n {
      assert b'.delivered[i] == b.delivered[i];
    }
    if y :| y in b'.pending && y.ticket == n {
      assert y in b.pending;
    } else if i :| 0 <= i < |b'.delivered| && b'.delivered[i].ticket == n {
      assert i < |b.delivered| ==> b.delivered[i] == b'.delivered[i];
    }
  }

  lemma DeliveryKeepsTickets(b: Bag, x: Pending)
    requires EveryTicketOnce(b) && x in b.pending
    ensures EveryTicketOnce(Bag(b.pending - {x}, b.sends, b.delivered + [x]))
  {
    var b' := Bag(b.pending - {x}, b.sends, b.delivered + [x]);
    forall n: nat ensures n < b'.sends <==> HasTicket(b', n) {
      TicketsAfterDelivery(b, x, n);
    }
  }

  lemma DeliveryKeepsOrder(b: Bag, x: Pending)
    requires EqualPriorityInOrder(b.delivered) && DeliveredFirst(b) && IsBest(x, b.pending)
    ensures EqualPriorityInOrder(b.delivered + [x])
    ensures DeliveredFirst(Bag(b.pending - {x}, b.sends, b.delivered + [x]))
  {
  }

  lemma ReceivedKeepsOrder(cap: nat, b: Bag, m: Message)
    requires EqualPriorityInOrder(b.delivered) && EveryTicketOnce(b) && DeliveredFirst(b)
    requires BagStep(cap, b, Received(m)).Some?
    ensures var b' := BagStep(cap, b, Received(m)).value;
            EqualPriorityInOrder(b'.delivered) && EveryTicketOnce(b') && DeliveredFirst(b')
  {
    var b' := BagStep(cap, b, Received(m)).value;
    var x := b'.delivered[|b.delivered|];
    DeliveryKeepsTickets(b, x);
    DeliveryKeepsOrder(b, x);
  }

  lemma {:induction false} BagOrder(cap: nat, log: seq<Event>)
    requires BagReplay(cap, log).Some?
    ensures var b := BagReplay(cap, log).value;
            EqualPriorityInOrder(b.delivered) && EveryTicketOnce(b) && DeliveredFirst(b)
    decreases |log|
  {
    if log != [] {
      var prefix := log[..|log| - 1];
      BagOrder(cap, prefix);
      match log[|log| - 1]
      case Sent(m) => SentKeepsOrder(cap, BagReplay(cap, prefix).value, m);
      case Received(m) => ReceivedKeepsOrder(cap, BagReplay(cap, prefix).value, m);
    }
  }

  // ----- The main results about the queue itself -----

  function SentMessages(log: seq<Event>): multiset<Message> {
    if log == [] then multiset{}
    else
      SentMessages(log[..|log| - 1]) +
      match log[|log| - 1] { case Sent(m) => multiset{m} case Received(_) => multiset{} }
  }

  function ReceivedMessages(log: seq<Event>): multiset<Message> {
    if log == [] then multiset{}
    else
      ReceivedMessages(log[..|log| - 1]) +
      match log[|log| - 1] { case Sent(_) => multiset{} case Received(m) => multiset{m} }
  }

  lemma EnqueueMultiset(q: seq<Message>, m: Message)
    ensures multiset(Enqueue(q, m)) == multiset(q) + multiset{m}
  {
    var k := LowerBound(Priorities(q), m.priority);
    assert q == q[..k] + q[k..];
  }

  /** Nothing is lost or duplicated: sent messages are exactly those received plus those stored,
      and the store never exceeds its capacity and stays in ascending priority order. */
  lemma {:induction false} Conservation(cap: nat, log: seq<Event>)
    requires Replay(cap, log).Some?
    ensures var q := Replay(cap, log).value;
            && SentMessages(log) == ReceivedMessages(log) + multiset(q)
            && |q| <= cap
            && Ascending(Priorities(q))
    decreases |log|
  {
    if log != [] {
      var prefix := log[..|log| - 1];
      Conservation(cap, prefix);
      var q := Replay(cap, prefix).value;
      match log[|log| - 1]
      case Sent(m) =>
        EnqueueMultiset(q, m);
        EnqueueAscending(q, m);
      case Received(m) =>
        DequeueConserves(q);
    }
  }

  lemma DequeueConserves(q: seq<Message>)
    requires q != []
    ensures multiset(Dequeue(q)) + multiset{Top(q)} == multiset(q)
    ensures Ascending(Priorities(q)) ==> Ascending(Priorities(Dequeue(q)))
  {
    assert q == Dequeue(q) + [Top(q)];
  }

  lemma EnqueueAscending(q: seq<Message>, m: Message)
    requires Ascending(Priorities(q))
    ensures Ascending(Priorities(Enqueue(q, m)))
  {
  }

  /** Whenever a history ends in a receive, the message returned is the one that has to be delivered
      first among all pending: highest priority, and earliest sent among equals.  Over the whole
      history, messages of one priority are delivered in the order they were sent, and every send
      is accounted for exactly once. */
  lemma DeliveryIsStable(cap: nat, log: seq<Event>, m: Message)
    requires Replay(cap, log + [Received(m)]).Some?
    ensures BagReplay(cap, log).Some? && BagReplay(cap, log + [Received(m)]).Some?
    ensures var b, b' := BagReplay(cap, log).value, BagReplay(cap, log + [Received(m)]).value;
            && (exists x :: IsBest(x, b.pending) && x.message == m
                            && b'.pending == b.pending - {x} && b'.delivered == b.delivered + [x])
            && EqualPriorityInOrder(b'.delivered)
            && EveryTicketOnce(b')
  {
    var full := log + [Received(m)];
    ReplayAppend(cap, log, Received(m));
    assert full[..|full| - 1] == log;
    var t := QueueIsBag(cap, log);
    var t' := QueueIsBag(cap, full);
    BagOrder(cap, full);
    var b, b' := BagReplay(cap, log).value, BagReplay(cap, full).value;
    var x := b'.delivered[|b.delivered|];
    assert IsBest(x, b.pending) && x.message == m
           && b'.pending == b.pending - {x} && b'.delivered == b.delivered + [x];
  }
}
