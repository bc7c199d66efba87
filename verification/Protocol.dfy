/** The locked sections of do_send and do_receive as functions of the shared state: from taking the lock
    to the next wait or return.  Both queue classes implement them and the monitor model
    interleaves them. */
module Protocol {
  import opened PriorityQueue

  datatype Mode = Blocking | Timed | NonBlocking

  /** The two builds differ only in when they notify: the circular one when its counter says somebody is
      blocked, the linear one always. */
  datatype Build = Circular | Linear

  datatype Limits = Limits(cap: nat, maxSize: nat)

  /** The shared state under the lock.  The counters are integers here so that a decrement below zero would
      be seen. */
  datatype Core = Core(queue: seq<Message>, blockedSenders: int, blockedReceivers: int)

  datatype Outcome =
    | SizeError
    | Refused
    | MustWait
    | Accepted(notify: bool)
    | Delivered(message: Message, notify: bool)

  predicate Full(l: Limits, c: Core) {
    |c.queue| == l.cap
  }

  function Store(b: Build, c: Core, m: Message): (Core, Outcome) {
    (c.(queue := Enqueue(c.queue, m)), Accepted(b.Linear? || c.blockedReceivers != 0))
  }

  function Take(b: Build, c: Core): (Core, Outcome)
    requires c.queue != []
  {
    (c.(queue := Dequeue(c.queue)), Delivered(Top(c.queue), b.Linear? || c.blockedSenders != 0))
  }

  function SendEnter(b: Build, l: Limits, c: Core, mode: Mode, m: Message): (Core, Outcome) {
    if |m.payload| > l.maxSize then (c, SizeError)
    else if !Full(l, c) then Store(b, c, m)
    else if mode.NonBlocking? then (c, Refused)
    else (c.(blockedSenders := c.blockedSenders + 1), MustWait)
  }

  /** After a wait: expired says that a timed wait reported a timeout. */
  function SendResume(b: Build, l: Limits, c: Core, expired: bool, m: Message): (Core, Outcome) {
    var left := c.(blockedSenders := c.blockedSenders - 1);
    if !Full(l, c) then Store(b, left, m)
    else if expired then (left, Refused)
    else (c, MustWait)
  }

  function ReceiveEnter(b: Build, l: Limits, c: Core, mode: Mode, bufferSize: nat): (Core, Outcome) {
    if bufferSize < l.maxSize then (c, SizeError)
    else if c.queue != [] then Take(b, c)
    else if mode.NonBlocking? then (c, Refused)
    else (c.(blockedReceivers := c.blockedReceivers + 1), MustWait)
  }

  function ReceiveResume(b: Build, c: Core, expired: bool): (Core, Outcome) {
    var left := c.(blockedReceivers := c.blockedReceivers - 1);
    if c.queue != [] then Take(b, left)
    else if expired then (left, Refused)
    else (c, MustWait)
  }
}
