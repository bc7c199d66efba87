/** The two index builds answer alike when one caller at a time makes calls that do not block: both are driven
    through the same calls and both give the replies of the abstract queue. */
module Equivalence {
  import opened Basics
  import opened PriorityQueue
  import opened Protocol
  import opened CircularIndex
  import opened LinearIndex

  datatype Call = TrySend(payload: seq<Byte>, priority: nat) | TryReceive(bufferSize: nat)

  /** Waits: the call does not return. */
  datatype Result = BadSize | No | Yes | Got(payload: seq<Byte>, priority: nat) | Waits

  /** What a caller sees: the result of the call and whether the queue is full or empty after it. */
  datatype Reply = Reply(result: Result, full: bool, empty: bool)

  function ResultOf(o: Outcome): Result {
    match o
    case SizeError => BadSize
    case Refused => No
    case MustWait => Waits
    case Accepted(_) => Yes
    case Delivered(m, _) => Got(m.payload, m.priority)
  }

  /** The abstract queue's answer, with no index in sight. */
  function Answer(l: Limits, q: seq<Message>, c: Call): (seq<Message>, Result) {
    match c
    case TrySend(payload, priority) =>
      if |payload| > l.maxSize then (q, BadSize)
      else if |q| == l.cap then (q, No)
      else (Enqueue(q, Message(payload, priority)), Yes)
    case TryReceive(bufferSize) =>
      if bufferSize < l.maxSize then (q, BadSize)
      else if q == [] then (q, No)
      else (Dequeue(q), Got(Top(q).payload, Top(q).priority))
  }

  function After(l: Limits, calls: seq<Call>): seq<Message> {
    if calls == [] then [] else Answer(l, After(l, calls[..|calls| - 1]), calls[|calls| - 1]).0
  }

  function Replies(l: Limits, calls: seq<Call>): seq<Reply> {
    if calls == [] then []
    else
      var prefix := calls[..|calls| - 1];
      var (q, r) := Answer(l, After(l, prefix), calls[|calls| - 1]);
      Replies(l, prefix) + [Reply(r, |q| == l.cap, q == [])]
  }

  lemma RunStep(l: Limits, calls: seq<Call>, i: nat)
    requires i < |calls|
    ensures After(l, calls[..i + 1]) == Answer(l, After(l, calls[..i]), calls[i]).0
    ensures var (q, r) := Answer(l, After(l, calls[..i]), calls[i]);
            Replies(l, calls[..i + 1]) == Replies(l, calls[..i]) + [Reply(r, |q| == l.cap, q == [])]
  {
    assert calls[..i + 1][..i] == calls[..i];
  }

  /** The non-blocking sections of both builds give the abstract answers. */
  lemma SectionsAnswer(b: Build, l: Limits, c: Core, payload: seq<Byte>, priority: nat, bufferSize: nat)
    ensures var (sent, o) := Protocol.SendEnter(b, l, c, NonBlocking, Message(payload, priority));
            (sent.queue, ResultOf(o)) == Answer(l, c.queue, TrySend(payload, priority))
    ensures var (received, o) := Protocol.ReceiveEnter(b, l, c, NonBlocking, bufferSize);
            (received.queue, ResultOf(o)) == Answer(l, c.queue, TryReceive(bufferSize))
  {
  }

  method SendCircular(mq: CircularQueue, payload: seq<Byte>, priority: nat) returns (o: Outcome)
    requires mq.Valid()
    modifies mq, mq.index, mq.slots
    ensures mq.Valid()
    ensures (mq.Queue(), ResultOf(o)) == Answer(mq.Bounds(), old(mq.Queue()), TrySend(payload, priority))
  {
    SectionsAnswer(Circular, mq.Bounds(), mq.State(), payload, priority, 0);
    o := mq.SendEnter(NonBlocking, payload, priority);
  }

  method ReceiveCircular(mq: CircularQueue, bufferSize: nat) returns (o: Outcome)
    requires mq.Valid()
    modifies mq, mq.index, mq.slots
    ensures mq.Valid()
    ensures (mq.Queue(), ResultOf(o)) == Answer(mq.Bounds(), old(mq.Queue()), TryReceive(bufferSize))
  {
    var buffer := new Byte[bufferSize];
    assert mq.Valid() && mq.State() == old(mq.State());
    SectionsAnswer(Circular, mq.Bounds(), mq.State(), [], 0, bufferSize);
    var recvdSize, priority;
    o, recvdSize, priority := mq.ReceiveEnter(NonBlocking, buffer);
  }

  method CallCircular(mq: CircularQueue, c: Call) returns (r: Reply)
    requires mq.Valid()
    modifies mq, mq.index, mq.slots
    ensures mq.Valid()
    ensures (mq.Queue(), r.result) == Answer(mq.Bounds(), old(mq.Queue()), c)
    ensures r.full == (|mq.Queue()| == mq.maxNum) && r.empty == (mq.Queue() == [])
  {
    var o: Outcome;
    match c {
      case TrySend(payload, priority) => o := SendCircular(mq, payload, priority);
      case TryReceive(bufferSize) => o := ReceiveCircular(mq, bufferSize);
    }
    r := Reply(ResultOf(o), mq.IsFull(), mq.IsEmpty());
  }

  method SendLinear(mq: LinearQueue, payload: seq<Byte>, priority: nat) returns (o: Outcome)
    requires mq.Valid()
    modifies mq, mq.index, mq.slots
    ensures mq.Valid()
    ensures (mq.Queue(), ResultOf(o)) == Answer(mq.Bounds(), old(mq.Queue()), TrySend(payload, priority))
  {
    SectionsAnswer(Linear, mq.Bounds(), mq.State(), payload, priority, 0);
    o := mq.SendEnter(NonBlocking, payload, priority);
  }

  method ReceiveLinear(mq: LinearQueue, bufferSize: nat) returns (o: Outcome)
    requires mq.Valid()
    modifies mq, mq.index, mq.slots
    ensures mq.Valid()
    ensures (mq.Queue(), ResultOf(o)) == Answer(mq.Bounds(), old(mq.Queue()), TryReceive(bufferSize))
  {
    var buffer := new Byte[bufferSize];
    assert mq.Valid() && mq.State() == old(mq.State());
    SectionsAnswer(Linear, mq.Bounds(), mq.State(), [], 0, bufferSize);
    var recvdSize, priority;
    o, recvdSize, priority := mq.ReceiveEnter(NonBlocking, buffer);
  }

  method CallLinear(mq: LinearQueue, c: Call) returns (r: Reply)
    requires mq.Valid()
    modifies mq, mq.index, mq.slots
    ensures mq.Valid()
    ensures (mq.Queue(), r.result) == Answer(mq.Bounds(), old(mq.Queue()), c)
    ensures r.full == (|mq.Queue()| == mq.maxNum) && r.empty == (mq.Queue() == [])
  {
    var o: Outcome;
    match c {
      case TrySend(payload, priority) => o := SendLinear(mq, payload, priority);
      case TryReceive(bufferSize) => o := ReceiveLinear(mq, bufferSize);
    }
    r := Reply(ResultOf(o), mq.IsFull(), mq.IsEmpty());
  }

  method RunCircular(l: Limits, calls: seq<Call>) returns (replies: seq<Reply>)
    ensures replies == Replies(l, calls)
  {
    var mq := new CircularQueue(l.cap, l.maxSize);
    replies := [];
    for i := 0 to |calls|
      invariant fresh(mq) && fresh(mq.index) && fresh(mq.slots)
      invariant mq.Valid() && mq.Bounds() == l && mq.Queue() == After(l, calls[..i])
      invariant replies == Replies(l, calls[..i])
    {
      RunStep(l, calls, i);
      var r := CallCircular(mq, calls[i]);
      replies := replies + [r];
    }
    assert calls[..|calls|] == calls;
  }

  method RunLinear(l: Limits, calls: seq<Call>) returns (replies: seq<Reply>)
    ensures replies == Replies(l, calls)
  {
    var mq := new LinearQueue(l.cap, l.maxSize);
    replies := [];
    for i := 0 to |calls|
      invariant fresh(mq) && fresh(mq.index) && fresh(mq.slots)
      invariant mq.Valid() && mq.Bounds() == l && mq.Queue() == After(l, calls[..i])
      invariant replies == Replies(l, calls[..i])
    {
      RunStep(l, calls, i);
      var r := CallLinear(mq, calls[i]);
      replies := replies + [r];
    }
    assert calls[..|calls|] == calls;
  }

  /** Any sequence of sends and receives on a new queue gives the same replies from both builds. */
  method RunBoth(l: Limits, calls: seq<Call>) returns (circular: seq<Reply>, linear: seq<Reply>)
    ensures circular == linear == Replies(l, calls)
  {
    circular := RunCircular(l, calls);
    linear := RunLinear(l, calls);
  }
}
