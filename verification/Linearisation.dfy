/** Concurrent runs of the monitor are sequential histories of the abstract queue: the log of successful
    calls in lock order replays to the stored queue, and every call appears in it exactly as it ended. */
module Linearisation {
  import opened Basics
  import opened PriorityQueue
  import opened Protocol
  import opened Monitor

  function Events(log: seq<Entry>): (es: seq<Event>)
    ensures |es| == |log|
    ensures forall i :: 0 <= i < |log| ==> es[i] == log[i].event
  {
    seq(|log|, i requires 0 <= i < |log| => log[i].event)
  }

  /** What one call did to the queue, according to the log. */
  function EventsOf(log: seq<Entry>, c: nat): seq<Event> {
    if log == [] then []
    else
      EventsOf(log[..|log| - 1], c) +
      if log[|log| - 1].call == c then [log[|log| - 1].event] else []
  }

  /** What its caller was told it did. */
  function Reported(calls: map<nat, Call>, c: nat): seq<Event> {
    if c !in calls then []
    else
      match calls[c].pc
      case Finished(Stored) => if calls[c].op.SendOp? then [Sent(calls[c].op.message)] else []
      case Finished(Got(m)) => if calls[c].op.ReceiveOp? then [Received(m)] else []
      case _ => []
  }

  lemma EventsOfAppend(log: seq<Entry>, e: Entry, c: nat)
    ensures EventsOf(log + [e], c) == EventsOf(log, c) + if e.call == c then [e.event] else []
  {
  }

  /** A successful send is reported to a sender and a delivered message to a receiver. */
  ghost predicate EndingsMatch(calls: map<nat, Call>) {
    forall c :: c in calls && calls[c].pc.Finished? ==>
      (calls[c].pc.ending.Stored? ==> calls[c].op.SendOp?) && (calls[c].pc.ending.Got? ==> calls[c].op.ReceiveOp?)
  }

  ghost predicate Linear(cfg: Config, s: State) {
    && Replay(cfg.limits.cap, Events(s.log)) == Some(s.core.queue)
    && EndingsMatch(s.calls)
    && forall c :: EventsOf(s.log, c) == Reported(s.calls, c)
  }

  lemma NotifyReports(calls: map<nat, Call>, side: Side, w: nat, c: nat)
    ensures Reported(NotifyOne(calls, side, w), c) == Reported(calls, c)
  {
  }

  lemma OutcomeFits(cfg: Config, s: State, step: Step)
    requires MayRun(s, step)
    ensures var (_, o) := Section(cfg, s, step);
            (o.Accepted? ==> s.calls[step.call].op.SendOp?) && (o.Delivered? ==> s.calls[step.call].op.ReceiveOp?)
  {
  }

  lemma PcReports(calls: map<nat, Call>, c0: nat, o: Outcome, c: nat)
    requires c0 in calls && !calls[c0].pc.Finished?
    requires (o.Accepted? ==> calls[c0].op.SendOp?) && (o.Delivered? ==> calls[c0].op.ReceiveOp?)
    ensures Reported(SetPc(calls, c0, PcAfter(o)), c) ==
            Reported(calls, c) + if c == c0 then Events(EventsAfter(c0, calls[c0].op, o)) else []
  {
  }

  /** A section logs nothing, or one entry of its own call. */
  lemma LogsAtMostOne(c: nat, op: Op, o: Outcome)
    ensures var added := EventsAfter(c, op, o);
            added == [] || (added == [added[0]] && added[0].call == c && Events(added) == [added[0].event])
  {
  }

  lemma LogReports(log: seq<Entry>, c0: nat, op: Op, o: Outcome, c: nat)
    ensures EventsOf(log + EventsAfter(c0, op, o), c) ==
            EventsOf(log, c) + if c == c0 then Events(EventsAfter(c0, op, o)) else []
  {
    var added := EventsAfter(c0, op, o);
    LogsAtMostOne(c0, op, o);
    if added == [] {
      assert log + added == log;
    } else {
      var e := added[0];
      EventsOfAppend(log, e, c);
    }
  }

  /** What a section reports is what it appends to the log. */
  lemma SectionReports(cfg: Config, s: State, step: Step, c: nat)
    requires MayRun(s, step) && EventsOf(s.log, c) == Reported(s.calls, c)
    ensures var s' := RunSection(cfg, s, step);
            EventsOf(s'.log, c) == Reported(s'.calls, c)
  {
    var (core, o) := Section(cfg, s, step);
    var op := s.calls[step.call].op;
    OutcomeFits(cfg, s, step);
    PcReports(s.calls, step.call, o, c);
    LogReports(s.log, step.call, op, o, c);
    NotifyReports(SetPc(s.calls, step.call, PcAfter(o)), OtherSide(op), step.wakes, c);
  }

  /** A section acts on the abstract queue only when it succeeds, and then as the queue allows: it inserts
      only below capacity and removes only the top of a non-empty queue. */
  lemma SectionActs(cfg: Config, s: State, step: Step)
    requires MayRun(s, step) && |s.core.queue| <= cfg.limits.cap
    ensures var (core, o) := Section(cfg, s, step);
            var op, q := s.calls[step.call].op, s.core.queue;
            && (o.Accepted? ==> op.SendOp? && |q| < cfg.limits.cap && core.queue == Enqueue(q, op.message))
            && (o.Delivered? ==> q != [] && o.message == Top(q) && core.queue == Dequeue(q))
            && (!o.Accepted? && !o.Delivered? ==> core.queue == q)
  {
  }

  lemma SectionReplays(cfg: Config, s: State, step: Step)
    requires MayRun(s, step) && |s.core.queue| <= cfg.limits.cap
    requires Replay(cfg.limits.cap, Events(s.log)) == Some(s.core.queue)
    ensures var s' := RunSection(cfg, s, step);
            Replay(cfg.limits.cap, Events(s'.log)) == Some(s'.core.queue)
  {
    SectionActs(cfg, s, step);
    var (core, o) := Section(cfg, s, step);
    OutcomeReplays(cfg.limits.cap, s.log, s.core.queue, step.call, s.calls[step.call].op, o, core.queue);
  }

  lemma OutcomeReplays(cap: nat, log: seq<Entry>, q: seq<Message>, c: nat, op: Op, o: Outcome, q': seq<Message>)
    requires Replay(cap, Events(log)) == Some(q)
    requires o.Accepted? ==> op.SendOp? && |q| < cap && q' == Enqueue(q, op.message)
    requires o.Delivered? ==> q != [] && o.message == Top(q) && q' == Dequeue(q)
    requires !o.Accepted? && !o.Delivered? ==> q' == q
    ensures Replay(cap, Events(log + EventsAfter(c, op, o))) == Some(q')
  {
    var added := EventsAfter(c, op, o);
    if added == [] {
      assert log + added == log;
    } else {
      assert Events(log + added) == Events(log) + [added[0].event];
      ReplayAppend(cap, Events(log), added[0].event);
    }
  }

  lemma SectionEndings(cfg: Config, s: State, step: Step)
    requires MayRun(s, step) && EndingsMatch(s.calls)
    ensures EndingsMatch(RunSection(cfg, s, step).calls)
  {
  }

  lemma StepLinear(cfg: Config, s: State, step: Step)
    requires Linear(cfg, s) && |s.core.queue| <= cfg.limits.cap
    ensures Linear(cfg, Next(cfg, s, step))
  {
    if Enabled(s, step) && MayRun(s, step) {
      SectionReplays(cfg, s, step);
      SectionEndings(cfg, s, step);
      forall c ensures EventsOf(Next(cfg, s, step).log, c) == Reported(Next(cfg, s, step).calls, c) {
        SectionReports(cfg, s, step, c);
      }
    } else {
      forall c ensures Reported(Next(cfg, s, step).calls, c) == Reported(s.calls, c) {
      }
    }
  }

  /** Every run, in any interleaving and with every kind of ending, is a sequential history of the queue. */
  lemma {:induction false} RunsLinearise(cfg: Config, steps: seq<Step>)
    ensures Linear(cfg, Run(cfg, steps))
  {
    if steps != [] {
      var prefix := steps[..|steps| - 1];
      RunsLinearise(cfg, prefix);
      CountersAlwaysExact(cfg, prefix);
      StepLinear(cfg, Run(cfg, prefix), steps[|steps| - 1]);
    }
  }

  /** Read call by call: a call that succeeded acted exactly once, with its own message or the message it
      returned; a call that was denied, rejected, threw or has not finished did not act at all. */
  lemma CallsActAsTheyEnd(cfg: Config, steps: seq<Step>, c: nat)
    requires c in Run(cfg, steps).calls
    ensures var s := Run(cfg, steps);
            var did := EventsOf(s.log, c);
            match s.calls[c].pc
            case Finished(Stored) => s.calls[c].op.SendOp? && did == [Sent(s.calls[c].op.message)]
            case Finished(Got(m)) => s.calls[c].op.ReceiveOp? && did == [Received(m)]
            case _ => did == []
  {
    RunsLinearise(cfg, steps);
  }

  /** Conservation and order lifted to concurrent runs: what was sent is what was received plus what is
      stored, and messages of one priority are delivered in the order in which they were sent. */
  lemma ConcurrentDelivery(cfg: Config, steps: seq<Step>)
    ensures var s := Run(cfg, steps);
            var es := Events(s.log);
            && SentMessages(es) == ReceivedMessages(es) + multiset(s.core.queue)
            && Ascending(Priorities(s.core.queue))
            && BagReplay(cfg.limits.cap, es).Some?
            && var bag := BagReplay(cfg.limits.cap, es).value;
               EqualPriorityInOrder(bag.delivered) && EveryTicketOnce(bag)
  {
    RunsLinearise(cfg, steps);
    var es := Events(Run(cfg, steps).log);
    Conservation(cfg.limits.cap, es);
    var t := QueueIsBag(cfg.limits.cap, es);
    BagOrder(cfg.limits.cap, es);
  }

  // ----- The order respects real time -----

  lemma LogGrows(cfg: Config, s: State, step: Step)
    ensures s.log <= Next(cfg, s, step).log
    ensures s.calls.Keys <= Next(cfg, s, step).calls.Keys
    ensures forall c :: c in s.calls && s.calls[c].pc.Finished? ==> Next(cfg, s, step).calls[c] == s.calls[c]
  {
  }

  lemma {:induction false} LogIsPrefix(cfg: Config, before: seq<Step>, after: seq<Step>)
    ensures Run(cfg, before).log <= Run(cfg, before + after).log
    decreases |after|
  {
    if after == [] {
      assert before + after == before;
    } else {
      var rest := after[..|after| - 1];
      LogIsPrefix(cfg, before, rest);
      assert before + after == (before + rest) + [after[|after| - 1]];
      RunSnoc(cfg, before + rest, after[|after| - 1]);
      LogGrows(cfg, Run(cfg, before + rest), after[|after| - 1]);
    }
  }

  lemma {:induction false} EntryPresent(log: seq<Entry>, c: nat)
    requires EventsOf(log, c) != []
    ensures exists i :: 0 <= i < |log| && log[i].call == c
  {
    if log != [] && log[|log| - 1].call != c {
      EntryPresent(log[..|log| - 1], c);
    }
  }

  lemma {:induction false} EntryAbsent(log: seq<Entry>, c: nat)
    requires EventsOf(log, c) == []
    ensures forall i :: 0 <= i < |log| ==> log[i].call != c
  {
    if log != [] {
      EntryAbsent(log[..|log| - 1], c);
    }
  }

  /** If call a had already succeeded before call b was made, every act of b comes after the act of a. */
  lemma RealTimeOrder(cfg: Config, before: seq<Step>, after: seq<Step>, a: nat, b: nat, j: nat)
    requires var s := Run(cfg, before);
             a in s.calls && Reported(s.calls, a) != [] && b !in s.calls
    requires var log := Run(cfg, before + after).log;
             j < |log| && log[j].call == b
    ensures exists i :: 0 <= i < j && Run(cfg, before + after).log[i].call == a
  {
    var s, log := Run(cfg, before), Run(cfg, before + after).log;
    RunsLinearise(cfg, before);
    LogIsPrefix(cfg, before, after);
    EntryPresent(s.log, a);
    EntryAbsent(s.log, b);
    var i :| 0 <= i < |s.log| && s.log[i].call == a;
    assert log[i] == s.log[i];
    assert forall n :: 0 <= n < |s.log| ==> log[n] == s.log[n];
  }
}
