/** The queue objects of both builds under the monitor: any concurrent run, played on the real index, slots and
    counters, keeps the object in step with the monitor model and gives every call the ending the model
    gives it. */
module ConcreteMonitor {
  import opened Basics
  import opened PriorityQueue
  import opened Protocol
  import opened Monitor
  import opened CircularIndex
  import opened LinearIndex

  /** A call that waits passed the size check before it took the lock. */
  ghost predicate WaitersFit(cfg: Config, s: State) {
    forall c :: c in s.calls && s.calls[c].pc.Blocked? ==> Fits(cfg.limits, s.calls[c].op)
  }

  lemma StepKeepsFit(cfg: Config, s: State, step: Step)
    requires WaitersFit(cfg, s)
    ensures WaitersFit(cfg, Next(cfg, s, step))
  {
  }

  ghost predicate CountersPositive(s: State) {
    forall c :: c in s.calls && s.calls[c].pc.Blocked? ==> 0 < Counter(s.core, SideOf(s.calls[c].op))
  }

  lemma {:induction false} RunFits(cfg: Config, steps: seq<Step>)
    ensures WaitersFit(cfg, Run(cfg, steps)) && CountersPositive(Run(cfg, steps))
  {
    CountersAlwaysExact(cfg, steps);
    if steps != [] {
      var prefix := steps[..|steps| - 1];
      RunFits(cfg, prefix);
      StepKeepsFit(cfg, Run(cfg, prefix), steps[|steps| - 1]);
    }
  }

  lemma NextPrefix(cfg: Config, steps: seq<Step>, i: nat)
    requires i < |steps|
    ensures Run(cfg, steps[..i + 1]) == Next(cfg, Run(cfg, steps[..i]), steps[i])
  {
    assert steps[..i + 1] == steps[..i] + [steps[i]];
    RunSnoc(cfg, steps[..i], steps[i]);
  }

  // ----- What callers are told -----

  /** How the finished calls ended, in the model. */
  function Endings(calls: map<nat, Call>): map<nat, Ending> {
    map c | c in calls && calls[c].pc.Finished? :: calls[c].pc.ending
  }

  /** How calls have ended once the given section of call c had this outcome. */
  function WithOutcome(endings: map<nat, Ending>, c: nat, o: Outcome): map<nat, Ending> {
    if PcAfter(o).Finished? then endings[c := PcAfter(o).ending] else endings
  }

  lemma PcEndings(calls: map<nat, Call>, c: nat, pc: Pc)
    requires c in calls && !calls[c].pc.Finished?
    ensures Endings(SetPc(calls, c, pc)) == if pc.Finished? then Endings(calls)[c := pc.ending] else Endings(calls)
  {
  }

  lemma SectionEndings(cfg: Config, s: State, step: Step)
    requires MayRun(s, step)
    ensures Endings(RunSection(cfg, s, step).calls) ==
            WithOutcome(Endings(s.calls), step.call, Section(cfg, s, step).1)
  {
    var o := Section(cfg, s, step).1;
    var calls := SetPc(s.calls, step.call, PcAfter(o));
    PcEndings(s.calls, step.call, PcAfter(o));
    var side := OtherSide(s.calls[step.call].op);
    if step.wakes in Sleepers(calls, side) {
      PcEndings(calls, step.wakes, Blocked(Awake(true, false)));
    }
  }

  /** Steps without a section: only a throwing wait ends a call. */
  lemma OtherEndings(cfg: Config, s: State, step: Step)
    requires Enabled(s, step) && !MayRun(s, step)
    ensures Endings(Next(cfg, s, step).calls) ==
            if step.Throw? then Endings(s.calls)[step.call := Threw] else Endings(s.calls)
  {
    match step
    case Invoke(c, op) =>
      assert Endings(s.calls[c := Call(op, Ready)]) == Endings(s.calls);
    case Wake(c) => PcEndings(s.calls, c, Blocked(Awake(false, false)));
    case Expire(c) => PcEndings(s.calls, c, Blocked(Awake(IsNotified(s.calls[c].pc), true)));
    case Throw(c) => PcEndings(s.calls, c, Finished(Threw));
    case _ =>
  }

  // ----- The circular build -----

  /** Runs one locked section on the queue object; everything the monitor's section says about the shared
      state and the outcome holds of the object. */
  method PlaySection(mq: CircularQueue, ghost cfg: Config, s: State, step: Step) returns (o: Outcome)
    requires mq.Valid() && cfg == Config(Circular, mq.Bounds())
    requires MayRun(s, step) && s.core == mq.State() && WaitersFit(cfg, s) && CountersPositive(s)
    modifies mq, mq.index, mq.slots
    ensures mq.Valid()
    ensures (mq.State(), o) == Section(cfg, s, step)
  {
    match s.calls[step.call].op {
      case SendOp(mode, m) =>
        if step.Begin? {
          o := mq.SendEnter(mode, m.payload, m.priority);
        } else {
          o := mq.SendResume(s.calls[step.call].pc.wait.expired, m.payload, m.priority);
        }
      case ReceiveOp(mode, size) =>
        var buffer := new Byte[size];
        var recvdSize, priority;
        if step.Begin? {
          o, recvdSize, priority := mq.ReceiveEnter(mode, buffer);
        } else {
          o, recvdSize, priority := mq.ReceiveResume(s.calls[step.call].pc.wait.expired, buffer);
        }
    }
  }

  /** One step of a run on the queue object, and what its caller is told. */
  method PlayStep(mq: CircularQueue, ghost cfg: Config, s: State, step: Step, endings: map<nat, Ending>)
    returns (endings': map<nat, Ending>)
    requires mq.Valid() && cfg == Config(Circular, mq.Bounds())
    requires s.core == mq.State() && WaitersFit(cfg, s) && CountersPositive(s) && endings == Endings(s.calls)
    modifies mq, mq.index, mq.slots
    ensures mq.Valid()
    ensures mq.State() == Next(cfg, s, step).core
    ensures endings' == Endings(Next(cfg, s, step).calls)
  {
    endings' := endings;
    if Enabled(s, step) {
      if MayRun(s, step) {
        SectionEndings(cfg, s, step);
        var o := PlaySection(mq, cfg, s, step);
        endings' := WithOutcome(endings, step.call, o);
      } else {
        OtherEndings(cfg, s, step);
        if step.Throw? {
          if s.calls[step.call].op.SendOp? {
            mq.LeaveBlockedSenders();
          } else {
            mq.LeaveBlockedReceivers();
          }
          endings' := endings[step.call := Threw];
        }
      }
    }
  }

  /** Plays a whole run on a new circular queue: its shared state and the endings its callers get are the
      model's. */
  method Play(l: Limits, steps: seq<Step>) returns (mq: CircularQueue, endings: map<nat, Ending>)
    ensures mq.Valid() && mq.Bounds() == l
    ensures mq.State() == Run(Config(Circular, l), steps).core
    ensures endings == Endings(Run(Config(Circular, l), steps).calls)
  {
    ghost var cfg := Config(Circular, l);
    mq := new CircularQueue(l.cap, l.maxSize);
    var s := Initial();
    endings := map[];
    for i := 0 to |steps|
      invariant fresh(mq) && fresh(mq.index) && fresh(mq.slots)
      invariant mq.Valid() && mq.Bounds() == l && mq.State() == s.core
      invariant s == Run(cfg, steps[..i]) && endings == Endings(s.calls)
    {
      RunFits(cfg, steps[..i]);
      NextPrefix(cfg, steps, i);
      endings := PlayStep(mq, cfg, s, steps[i], endings);
      s := Next(Config(Circular, l), s, steps[i]);
    }
    assert steps[..|steps|] == steps;
  }

  // ----- The linear build -----

  method PlaySectionLinear(mq: LinearQueue, ghost cfg: Config, s: State, step: Step) returns (o: Outcome)
    requires mq.Valid() && cfg == Config(Linear, mq.Bounds())
    requires MayRun(s, step) && s.core == mq.State() && WaitersFit(cfg, s) && CountersPositive(s)
    modifies mq, mq.index, mq.slots
    ensures mq.Valid()
    ensures (mq.State(), o) == Section(cfg, s, step)
  {
    match s.calls[step.call].op {
      case SendOp(mode, m) =>
        if step.Begin? {
          o := mq.SendEnter(mode, m.payload, m.priority);
        } else {
          o := mq.SendResume(s.calls[step.call].pc.wait.expired, m.payload, m.priority);
        }
      case ReceiveOp(mode, size) =>
        var buffer := new Byte[size];
        var recvdSize, priority;
        if step.Begin? {
          o, recvdSize, priority := mq.ReceiveEnter(mode, buffer);
        } else {
          o, recvdSize, priority := mq.ReceiveResume(s.calls[step.call].pc.wait.expired, buffer);
        }
    }
  }

  method PlayStepLinear(mq: LinearQueue, ghost cfg: Config, s: State, step: Step, endings: map<nat, Ending>)
    returns (endings': map<nat, Ending>)
    requires mq.Valid() && cfg == Config(Linear, mq.Bounds())
    requires s.core == mq.State() && WaitersFit(cfg, s) && CountersPositive(s) && endings == Endings(s.calls)
    modifies mq, mq.index, mq.slots
    ensures mq.Valid()
    ensures mq.State() == Next(cfg, s, step).core
    ensures endings' == Endings(Next(cfg, s, step).calls)
  {
    endings' := endings;
    if Enabled(s, step) {
      if MayRun(s, step) {
        SectionEndings(cfg, s, step);
        var o := PlaySectionLinear(mq, cfg, s, step);
        endings' := WithOutcome(endings, step.call, o);
      } else {
        OtherEndings(cfg, s, step);
        if step.Throw? {
          if s.calls[step.call].op.SendOp? {
            mq.LeaveBlockedSenders();
          } else {
            mq.LeaveBlockedReceivers();
          }
          endings' := endings[step.call := Threw];
        }
      }
    }
  }

  /** The same on a new linear queue. */
  method PlayLinear(l: Limits, steps: seq<Step>) returns (mq: LinearQueue, endings: map<nat, Ending>)
    ensures mq.Valid() && mq.Bounds() == l
    ensures mq.State() == Run(Config(Linear, l), steps).core
    ensures endings == Endings(Run(Config(Linear, l), steps).calls)
  {
    ghost var cfg := Config(Linear, l);
    mq := new LinearQueue(l.cap, l.maxSize);
    var s := Initial();
    endings := map[];
    for i := 0 to |steps|
      invariant fresh(mq) && fresh(mq.index) && fresh(mq.slots)
      invariant mq.Valid() && mq.Bounds() == l && mq.State() == s.core
      invariant s == Run(cfg, steps[..i]) && endings == Endings(s.calls)
    {
      RunFits(cfg, steps[..i]);
      NextPrefix(cfg, steps, i);
      endings := PlayStepLinear(mq, cfg, s, steps[i], endings);
      s := Next(Config(Linear, l), s, steps[i]);
    }
    assert steps[..|steps|] == steps;
  }

  // ----- Both -----

  /** Any concurrent run, in every mode and with every kind of ending, leaves the two builds with the same
      stored queue, the same number of blocked callers and the same full and empty answers, and has told
      every caller the same. */
  method PlayBoth(l: Limits, steps: seq<Step>)
    returns (c: CircularQueue, f: LinearQueue, circular: map<nat, Ending>, linear: map<nat, Ending>)
    ensures c.Valid() && f.Valid() && c.State() == f.State()
    ensures c.IsFull() == f.IsFull() && c.IsEmpty() == f.IsEmpty()
    ensures circular == linear == Endings(Run(Config(Circular, l), steps).calls)
  {
    c, circular := Play(l, steps);
    f, linear := PlayLinear(l, steps);
    BuildsAgree(l, steps);
  }
}
