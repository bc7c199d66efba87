/** do_send and do_receive as a monitor: any number of concurrent calls, each advancing from one locked
    section to the next, in any interleaving.

    A run is any sequence of steps; a step that cannot happen in the current state leaves it as it is, so
    statements about all sequences of steps are statements about all runs.  Notification happens while
    the lock is still held. */
module Monitor {
  import opened PriorityQueue
  import opened Protocol

  datatype Side = Senders | Receivers

  datatype Op = SendOp(mode: Mode, message: Message) | ReceiveOp(mode: Mode, bufferSize: nat)

  /** Asleep: on the condition's queue.  Awake: off it (notified, woken for no reason, or expired) and
      waiting to get the lock back. */
  datatype Wait = Asleep | Awake(notified: bool, expired: bool)

  datatype Ending = Stored | Got(message: Message) | Denied | BadSize | Threw

  datatype Pc = Ready | Blocked(wait: Wait) | Finished(ending: Ending)

  datatype Call = Call(op: Op, pc: Pc) {
    predicate On(side: Side) {
      op.SendOp? <==> side == Senders
    }
  }

  /** One successful call, in lock order. */
  datatype Entry = Entry(call: nat, event: Event)

  datatype Config = Config(build: Build, limits: Limits)

  datatype State = State(core: Core, calls: map<nat, Call>, log: seq<Entry>)

  /** wakes is the sleeper a notification would reach, if the section notifies and anybody sleeps. */
  datatype Step =
    | Invoke(call: nat, op: Op)
    | Begin(call: nat, wakes: nat)
    | Resume(call: nat, wakes: nat)
    | Wake(call: nat)
    | Expire(call: nat)
    | Throw(call: nat)

  // ----- Who is where -----

  predicate IsNotified(pc: Pc) {
    pc.Blocked? && pc.wait.Awake? && pc.wait.notified
  }

  /** Inside the blocking section; on the condition's queue; notified and not yet resumed. */
  datatype Kind = InSection | Sleeping | Promised

  predicate Is(kind: Kind, pc: Pc) {
    match kind
    case InSection => pc.Blocked?
    case Sleeping => pc == Blocked(Asleep)
    case Promised => IsNotified(pc)
  }

  predicate Counts(calls: map<nat, Call>, side: Side, kind: Kind, c: nat) {
    c in calls && calls[c].On(side) && Is(kind, calls[c].pc)
  }

  function Members(calls: map<nat, Call>, side: Side, kind: Kind): (m: set<nat>)
    ensures forall c :: c in m <==> Counts(calls, side, kind, c)
  {
    set c | c in calls && Counts(calls, side, kind, c)
  }

  function BlockedOn(calls: map<nat, Call>, side: Side): set<nat> {
    Members(calls, side, InSection)
  }

  function Sleepers(calls: map<nat, Call>, side: Side): set<nat> {
    Members(calls, side, Sleeping)
  }

  function Notified(calls: map<nat, Call>, side: Side): set<nat> {
    Members(calls, side, Promised)
  }

  // ----- Steps -----

  function Initial(): State {
    State(Core([], 0, 0), map[], [])
  }

  function SetPc(calls: map<nat, Call>, c: nat, pc: Pc): map<nat, Call>
    requires c in calls
  {
    calls[c := calls[c].(pc := pc)]
  }

  predicate CanNotify(calls: map<nat, Call>, side: Side, w: nat) {
    Sleepers(calls, side) == {} || w in Sleepers(calls, side)
  }

  /** notify_one: wakes the given sleeper, or nobody when nobody sleeps. */
  function NotifyOne(calls: map<nat, Call>, side: Side, w: nat): map<nat, Call> {
    if w in Sleepers(calls, side) then SetPc(calls, w, Blocked(Awake(true, false))) else calls
  }

  predicate MayRun(s: State, step: Step) {
    match step
    case Begin(c, _) => c in s.calls && s.calls[c].pc.Ready?
    case Resume(c, _) => c in s.calls && s.calls[c].pc.Blocked? && s.calls[c].pc.wait.Awake?
    case _ => false
  }

  /** The locked section the step runs. */
  function Section(cfg: Config, s: State, step: Step): (Core, Outcome)
    requires MayRun(s, step)
  {
    var call := s.calls[step.call];
    match call.op
    case SendOp(mode, m) =>
      if step.Begin? then SendEnter(cfg.build, cfg.limits, s.core, mode, m)
      else SendResume(cfg.build, cfg.limits, s.core, call.pc.wait.expired, m)
    case ReceiveOp(mode, size) =>
      if step.Begin? then ReceiveEnter(cfg.build, cfg.limits, s.core, mode, size)
      else ReceiveResume(cfg.build, s.core, call.pc.wait.expired)
  }

  function PcAfter(o: Outcome): Pc {
    match o
    case SizeError => Finished(BadSize)
    case Refused => Finished(Denied)
    case MustWait => Blocked(Asleep)
    case Accepted(_) => Finished(Stored)
    case Delivered(m, _) => Finished(Got(m))
  }

  function EventsAfter(c: nat, op: Op, o: Outcome): seq<Entry> {
    match o
    case Accepted(_) => if op.SendOp? then [Entry(c, Sent(op.message))] else []
    case Delivered(m, _) => [Entry(c, Received(m))]
    case _ => []
  }

  predicate Notifies(o: Outcome) {
    (o.Accepted? || o.Delivered?) && o.notify
  }

  function OtherSide(op: Op): Side {
    if op.SendOp? then Receivers else Senders
  }

  function RunSection(cfg: Config, s: State, step: Step): State
    requires MayRun(s, step)
  {
    var (core, o) := Section(cfg, s, step);
    var op := s.calls[step.call].op;
    var calls := SetPc(s.calls, step.call, PcAfter(o));
    State(core,
          if Notifies(o) then NotifyOne(calls, OtherSide(op), step.wakes) else calls,
          s.log + EventsAfter(step.call, op, o))
  }

  function LeaveBlocked(core: Core, op: Op): Core {
    if op.SendOp? then core.(blockedSenders := core.blockedSenders - 1)
    else core.(blockedReceivers := core.blockedReceivers - 1)
  }

  predicate Enabled(s: State, step: Step) {
    match step
    case Invoke(c, _) => c !in s.calls
    case Begin(c, w) => MayRun(s, step) && CanNotify(s.calls, OtherSide(s.calls[c].op), w)
    case Resume(c, w) => MayRun(s, step) && CanNotify(s.calls, OtherSide(s.calls[c].op), w)
    case Wake(c) => c in s.calls && s.calls[c].pc == Blocked(Asleep)
    case Expire(c) =>
      c in s.calls && s.calls[c].op.mode == Timed && s.calls[c].pc.Blocked?
      && (s.calls[c].pc.wait.Awake? ==> !s.calls[c].pc.wait.expired)
    case Throw(c) => c in s.calls && s.calls[c].pc.Blocked?
  }

  /** A timed wait may expire while asleep or after it was notified. */
  function Next(cfg: Config, s: State, step: Step): State {
    if !Enabled(s, step) then s
    else
      match step
      case Invoke(c, op) => s.(calls := s.calls[c := Call(op, Ready)])
      case Begin(_, _) => RunSection(cfg, s, step)
      case Resume(_, _) => RunSection(cfg, s, step)
      case Wake(c) => s.(calls := SetPc(s.calls, c, Blocked(Awake(false, false))))
      case Expire(c) =>
        s.(calls := SetPc(s.calls, c, Blocked(Awake(IsNotified(s.calls[c].pc), true))))
      case Throw(c) =>
        s.(core := LeaveBlocked(s.core, s.calls[c].op), calls := SetPc(s.calls, c, Finished(Threw)))
  }

  function Run(cfg: Config, steps: seq<Step>): State {
    if steps == [] then Initial()
    else Next(cfg, Run(cfg, steps[..|steps| - 1]), steps[|steps| - 1])
  }

  // ----- Invariants -----

  /** The counters are exactly the calls inside the blocking sections. */
  ghost predicate CountersExact(s: State) {
    && s.core.blockedSenders == |BlockedOn(s.calls, Senders)|
    && s.core.blockedReceivers == |BlockedOn(s.calls, Receivers)|
  }

  /** What a caller on this side waits for: stored messages or free places. */
  function Supply(cfg: Config, s: State, side: Side): int {
    if side == Receivers then |s.core.queue| else cfg.limits.cap - |s.core.queue|
  }

  /** Whoever sleeps un-notified is outnumbered: all there is to take is already promised to notified calls. */
  ghost predicate NoLostWakeup(cfg: Config, s: State, side: Side) {
    Sleepers(s.calls, side) != {} ==> Supply(cfg, s, side) <= |Notified(s.calls, side)|
  }

  ghost predicate NoLostWakeups(cfg: Config, s: State) {
    NoLostWakeup(cfg, s, Senders) && NoLostWakeup(cfg, s, Receivers)
  }

  // ----- Effect of one program counter on the sets -----

  function One(b: bool): nat {
    if b then 1 else 0
  }

  lemma MembersAfter(calls: map<nat, Call>, c: nat, pc: Pc, side: Side, kind: Kind)
    requires c in calls
    ensures Members(SetPc(calls, c, pc), side, kind) ==
            if calls[c].On(side) && Is(kind, pc) then Members(calls, side, kind) + {c} else Members(calls, side, kind) - {c}
  {
  }

  lemma MembersChange(calls: map<nat, Call>, c: nat, pc: Pc, side: Side, kind: Kind)
    requires c in calls
    ensures var mine := calls[c].On(side);
            var m, m' := Members(calls, side, kind), Members(SetPc(calls, c, pc), side, kind);
            && m' == (if mine && Is(kind, pc) then m + {c} else m - {c})
            && |m'| == |m| - One(mine && Is(kind, calls[c].pc)) + One(mine && Is(kind, pc))
  {
    MembersAfter(calls, c, pc, side, kind);
    var m := Members(calls, side, kind);
    assert c in m <==> Counts(calls, side, kind, c);
    assert m + {c} == (m - {c}) + {c};
  }

  lemma PcChange(calls: map<nat, Call>, c: nat, pc: Pc, side: Side)
    requires c in calls
    ensures var calls' := SetPc(calls, c, pc);
            var mine := calls[c].On(side);
            && |BlockedOn(calls', side)| == |BlockedOn(calls, side)| - One(mine && calls[c].pc.Blocked?) + One(mine && pc.Blocked?)
            && |Notified(calls', side)| == |Notified(calls, side)| - One(mine && IsNotified(calls[c].pc)) + One(mine && IsNotified(pc))
            && Sleepers(calls', side) == if mine && pc == Blocked(Asleep) then Sleepers(calls, side) + {c} else Sleepers(calls, side) - {c}
  {
    MembersChange(calls, c, pc, side, InSection);
    MembersChange(calls, c, pc, side, Sleeping);
    MembersChange(calls, c, pc, side, Promised);
  }

  lemma NewCall(calls: map<nat, Call>, c: nat, op: Op, side: Side)
    requires c !in calls
    ensures var calls' := calls[c := Call(op, Ready)];
            && BlockedOn(calls', side) == BlockedOn(calls, side)
            && Notified(calls', side) == Notified(calls, side)
            && Sleepers(calls', side) == Sleepers(calls, side)
  {
  }

  lemma NotifyChange(calls: map<nat, Call>, at: Side, w: nat, side: Side)
    requires CanNotify(calls, at, w)
    ensures var calls' := NotifyOne(calls, at, w);
            && |BlockedOn(calls', side)| == |BlockedOn(calls, side)|
            && |Notified(calls', side)| == |Notified(calls, side)| + One(side == at && Sleepers(calls, at) != {})
            && Sleepers(calls', side) <= Sleepers(calls, side)
  {
    if w in Sleepers(calls, at) {
      PcChange(calls, w, Blocked(Awake(true, false)), side);
    }
  }

  // ----- One locked section -----

  function SideOf(op: Op): Side {
    if op.SendOp? then Senders else Receivers
  }

  function Counter(core: Core, side: Side): int {
    if side == Senders then core.blockedSenders else core.blockedReceivers
  }

  /** What a section does to the supplies and the counters. */
  lemma SectionEffect(cfg: Config, s: State, step: Step)
    requires MayRun(s, step) && |s.core.queue| <= cfg.limits.cap
    ensures var (core, o) := Section(cfg, s, step);
            var op := s.calls[step.call].op;
            var mine, other := SideOf(op), OtherSide(op);
            var s' := s.(core := core);
            && Counter(core, mine) == Counter(s.core, mine) - One(step.Resume?) + One(o.MustWait?)
            && Counter(core, other) == Counter(s.core, other)
            && (o.Accepted? || o.Delivered? ==>
                  && 0 < Supply(cfg, s, mine)
                  && Supply(cfg, s', mine) == Supply(cfg, s, mine) - 1
                  && Supply(cfg, s', other) == Supply(cfg, s, other) + 1
                  && (o.notify <==> cfg.build.Linear? || Counter(s.core, other) != 0))
            && (!o.Accepted? && !o.Delivered? ==> core.queue == s.core.queue)
            && (o.MustWait? || o.Refused? ==> Supply(cfg, s, mine) == 0)
            && (o.SizeError? ==> step.Begin?)
            && (o.Accepted? <==> op.SendOp? && Supply(cfg, s', mine) != Supply(cfg, s, mine))
            && (o.Delivered? <==> op.ReceiveOp? && Supply(cfg, s', mine) != Supply(cfg, s, mine))
  {
  }

  /** The payload or the buffer has the size the queue asks for. */
  predicate Fits(l: Limits, op: Op) {
    match op
    case SendOp(_, m) => |m.payload| <= l.maxSize
    case ReceiveOp(_, size) => l.maxSize <= size
  }

  /** With nothing to take the call returns instead of waiting: a non-blocking call at once, a timed one when
      its wait has expired. */
  predicate GivesUp(s: State, step: Step)
    requires MayRun(s, step)
  {
    if step.Begin? then s.calls[step.call].op.mode == NonBlocking else s.calls[step.call].pc.wait.expired
  }

  /** The outcome of a section, told from the sizes, the supply and whether the call gives up: exactly one of
      five answers, each under its own condition. */
  lemma SectionOutcome(cfg: Config, s: State, step: Step)
    requires MayRun(s, step) && |s.core.queue| <= cfg.limits.cap
    ensures var o := Section(cfg, s, step).1;
            var op := s.calls[step.call].op;
            var misfit, supply := step.Begin? && !Fits(cfg.limits, op), Supply(cfg, s, SideOf(op));
            && (o.SizeError? <==> misfit)
            && (o.Refused? <==> !misfit && supply == 0 && GivesUp(s, step))
            && (o.MustWait? <==> !misfit && supply == 0 && !GivesUp(s, step))
            && (o.Accepted? <==> !misfit && supply > 0 && op.SendOp?)
            && (o.Delivered? <==> !misfit && supply > 0 && op.ReceiveOp?)
  {
  }

  lemma SectionKeepsCounters(cfg: Config, s: State, step: Step)
    requires Enabled(s, step) && MayRun(s, step)
    requires |s.core.queue| <= cfg.limits.cap && CountersExact(s)
    ensures CountersExact(RunSection(cfg, s, step))
  {
    SectionEffect(cfg, s, step);
    var (core, o) := Section(cfg, s, step);
    var c := step.call;
    var op := s.calls[c].op;
    var calls := SetPc(s.calls, c, PcAfter(o));
    forall side ensures Counter(core, side) == |BlockedOn(RunSection(cfg, s, step).calls, side)| {
      PcChange(s.calls, c, PcAfter(o), side);
      if Notifies(o) {
        PcChange(s.calls, c, PcAfter(o), OtherSide(op));
        NotifyChange(calls, OtherSide(op), step.wakes, side);
      }
    }
  }

  /** The caller's own side: it takes at most what was promised to it. */
  lemma SectionKeepsOwnSide(cfg: Config, s: State, step: Step)
    requires Enabled(s, step) && MayRun(s, step)
    requires |s.core.queue| <= cfg.limits.cap && NoLostWakeups(cfg, s)
    ensures NoLostWakeup(cfg, RunSection(cfg, s, step), SideOf(s.calls[step.call].op))
  {
    SectionEffect(cfg, s, step);
    var (core, o) := Section(cfg, s, step);
    var c := step.call;
    var op := s.calls[c].op;
    var side := SideOf(op);
    var calls := SetPc(s.calls, c, PcAfter(o));
    PcChange(s.calls, c, PcAfter(o), side);
    if Notifies(o) {
      PcChange(s.calls, c, PcAfter(o), OtherSide(op));
      NotifyChange(calls, OtherSide(op), step.wakes, side);
    }
  }

  /** The other side: when the section adds to its supply and somebody there sleeps, the counter is not
      zero, so one sleeper is notified. */
  lemma SectionKeepsOtherSide(cfg: Config, s: State, step: Step)
    requires Enabled(s, step) && MayRun(s, step)
    requires |s.core.queue| <= cfg.limits.cap && CountersExact(s) && NoLostWakeups(cfg, s)
    ensures NoLostWakeup(cfg, RunSection(cfg, s, step), OtherSide(s.calls[step.call].op))
  {
    SectionEffect(cfg, s, step);
    var (core, o) := Section(cfg, s, step);
    var c := step.call;
    var side := OtherSide(s.calls[c].op);
    var calls := SetPc(s.calls, c, PcAfter(o));
    PcChange(s.calls, c, PcAfter(o), side);
    assert Sleepers(calls, side) == Sleepers(s.calls, side);
    if w :| w in Sleepers(s.calls, side) {
      assert w in BlockedOn(s.calls, side);
    }
    if Notifies(o) {
      NotifyChange(calls, side, step.wakes, side);
    }
  }

  // ----- Every step -----

  ghost predicate Inv(cfg: Config, s: State) {
    |s.core.queue| <= cfg.limits.cap && CountersExact(s)
  }

  /** The wait of a notified call throws while somebody else on its side sleeps un-notified and every
      notification is needed: the notification goes with it and a wakeup is lost. */
  ghost predicate LosesWakeup(cfg: Config, s: State, step: Step) {
    && step.Throw? && Enabled(s, step) && IsNotified(s.calls[step.call].pc)
    && var side := SideOf(s.calls[step.call].op);
       Sleepers(s.calls, side) != {} && Supply(cfg, s, side) == |Notified(s.calls, side)|
  }

  lemma StepKeepsCounters(cfg: Config, s: State, step: Step)
    requires Inv(cfg, s)
    ensures Inv(cfg, Next(cfg, s, step))
  {
    if Enabled(s, step) {
      match step
      case Invoke(c, op) =>
        NewCall(s.calls, c, op, Senders);
        NewCall(s.calls, c, op, Receivers);
      case Begin(_, _) =>
        SectionEffect(cfg, s, step);
        SectionKeepsCounters(cfg, s, step);
      case Resume(_, _) =>
        SectionEffect(cfg, s, step);
        SectionKeepsCounters(cfg, s, step);
      case Wake(c) =>
        PcChange(s.calls, c, Blocked(Awake(false, false)), Senders);
        PcChange(s.calls, c, Blocked(Awake(false, false)), Receivers);
      case Expire(c) =>
        PcChange(s.calls, c, Blocked(Awake(IsNotified(s.calls[c].pc), true)), Senders);
        PcChange(s.calls, c, Blocked(Awake(IsNotified(s.calls[c].pc), true)), Receivers);
      case Throw(c) =>
        PcChange(s.calls, c, Finished(Threw), Senders);
        PcChange(s.calls, c, Finished(Threw), Receivers);
    }
  }

  /** A throwing wait loses a wakeup exactly under that condition. */
  lemma ThrowLosesExactly(cfg: Config, s: State, c: nat)
    requires Inv(cfg, s) && NoLostWakeups(cfg, s) && Enabled(s, Throw(c))
    ensures NoLostWakeups(cfg, Next(cfg, s, Throw(c))) <==> !LosesWakeup(cfg, s, Throw(c))
  {
    PcChange(s.calls, c, Finished(Threw), Senders);
    PcChange(s.calls, c, Finished(Threw), Receivers);
  }

  /** Every step keeps the wakeup invariants, except exactly such a throw. */
  lemma StepKeepsWakeupsExactly(cfg: Config, s: State, step: Step)
    requires Inv(cfg, s) && NoLostWakeups(cfg, s)
    ensures NoLostWakeups(cfg, Next(cfg, s, step)) <==> !LosesWakeup(cfg, s, step)
  {
    if Enabled(s, step) {
      match step
      case Invoke(c, op) =>
        NewCall(s.calls, c, op, Senders);
        NewCall(s.calls, c, op, Receivers);
      case Begin(_, _) =>
        SectionKeepsOwnSide(cfg, s, step);
        SectionKeepsOtherSide(cfg, s, step);
      case Resume(_, _) =>
        SectionKeepsOwnSide(cfg, s, step);
        SectionKeepsOtherSide(cfg, s, step);
      case Wake(c) =>
        PcChange(s.calls, c, Blocked(Awake(false, false)), Senders);
        PcChange(s.calls, c, Blocked(Awake(false, false)), Receivers);
      case Expire(c) =>
        PcChange(s.calls, c, Blocked(Awake(IsNotified(s.calls[c].pc), true)), Senders);
        PcChange(s.calls, c, Blocked(Awake(IsNotified(s.calls[c].pc), true)), Receivers);
      case Throw(c) =>
        ThrowLosesExactly(cfg, s, c);
    }
  }

  // ----- Over every run -----

  /** No step of the run is a throw that loses a wakeup. */
  ghost predicate KeepsWakeups(cfg: Config, steps: seq<Step>) {
    steps == [] ||
    var prefix := steps[..|steps| - 1];
    KeepsWakeups(cfg, prefix) && !LosesWakeup(cfg, Run(cfg, prefix), steps[|steps| - 1])
  }

  /** In every run, also with throwing waits, the counters are exact, so they never go below zero and are
      positive whenever a blocked call is about to decrement one. */
  lemma {:induction false} CountersAlwaysExact(cfg: Config, steps: seq<Step>)
    ensures Inv(cfg, Run(cfg, steps))
    ensures var s := Run(cfg, steps);
            forall c :: c in s.calls && s.calls[c].pc.Blocked? ==> 0 < Counter(s.core, SideOf(s.calls[c].op))
  {
    if steps != [] {
      CountersAlwaysExact(cfg, steps[..|steps| - 1]);
      StepKeepsCounters(cfg, Run(cfg, steps[..|steps| - 1]), steps[|steps| - 1]);
    } else {
      assert forall side :: BlockedOn(map[], side) == {};
    }
    var s := Run(cfg, steps);
    forall c | c in s.calls && s.calls[c].pc.Blocked? ensures 0 < Counter(s.core, SideOf(s.calls[c].op)) {
      assert c in BlockedOn(s.calls, SideOf(s.calls[c].op));
    }
  }

  /** No wakeup is lost in any run without such a throw: a call sleeps un-notified only when everything it
      could take is promised to notified calls. */
  lemma {:induction false} WakeupsNeverLost(cfg: Config, steps: seq<Step>)
    requires KeepsWakeups(cfg, steps)
    ensures NoLostWakeups(cfg, Run(cfg, steps))
  {
    if steps != [] {
      var prefix := steps[..|steps| - 1];
      WakeupsNeverLost(cfg, prefix);
      CountersAlwaysExact(cfg, prefix);
      StepKeepsWakeupsExactly(cfg, Run(cfg, prefix), steps[|steps| - 1]);
    }
  }

  ghost predicate KeptAt(cfg: Config, steps: seq<Step>, k: nat)
    requires k <= |steps|
  {
    NoLostWakeups(cfg, Run(cfg, steps[..k]))
  }

  ghost predicate NeverLost(cfg: Config, steps: seq<Step>) {
    forall k: nat :: k <= |steps| ==> KeptAt(cfg, steps, k)
  }

  /** The exact boundary: no wakeup is lost at any point of a run if and only if no step of it is such a
      throw. */
  lemma {:induction false} WakeupsKeptExactly(cfg: Config, steps: seq<Step>)
    ensures KeepsWakeups(cfg, steps) <==> NeverLost(cfg, steps)
  {
    if steps == [] {
      assert NeverLost(cfg, steps);
    } else {
      var prefix, last := steps[..|steps| - 1], steps[|steps| - 1];
      WakeupsKeptExactly(cfg, prefix);
      PrefixesNeverLost(cfg, steps);
      if NeverLost(cfg, prefix) {
        assert KeptAt(cfg, prefix, |prefix|) && prefix[..|prefix|] == prefix;
        CountersAlwaysExact(cfg, prefix);
        StepKeepsWakeupsExactly(cfg, Run(cfg, prefix), last);
      }
    }
  }

  lemma PrefixesNeverLost(cfg: Config, steps: seq<Step>)
    requires steps != []
    ensures NeverLost(cfg, steps) <==> NeverLost(cfg, steps[..|steps| - 1]) && NoLostWakeups(cfg, Run(cfg, steps))
  {
    var prefix := steps[..|steps| - 1];
    forall k: nat | k <= |prefix| ensures KeptAt(cfg, steps, k) == KeptAt(cfg, prefix, k) {
      assert prefix[..k] == steps[..k];
    }
    assert KeptAt(cfg, steps, |steps|) == NoLostWakeups(cfg, Run(cfg, steps)) by {
      assert steps[..|steps|] == steps;
    }
  }

  /** No joint sleep: with room for at least one message, a sender and a receiver never both sleep
      un-notified while no notification is pending on either side. */
  lemma NoJointSleep(cfg: Config, steps: seq<Step>)
    requires 0 < cfg.limits.cap && KeepsWakeups(cfg, steps)
    ensures var calls := Run(cfg, steps).calls;
            !(Sleepers(calls, Senders) != {} && Sleepers(calls, Receivers) != {}
              && Notified(calls, Senders) == {} && Notified(calls, Receivers) == {})
  {
    WakeupsNeverLost(cfg, steps);
  }

  predicate Succeeded(pc: Pc) {
    pc.Finished? && (pc.ending.Stored? || pc.ending.Got?)
  }

  /** Call c can resume, and does so with success. */
  ghost predicate WillSucceed(cfg: Config, s: State, c: nat, w: nat) {
    c in s.calls && Enabled(s, Resume(c, w)) && Succeeded(Next(cfg, s, Resume(c, w)).calls[c].pc)
  }

  lemma NotifiedSucceeds(cfg: Config, s: State, side: Side, c: nat)
    requires Inv(cfg, s) && c in Notified(s.calls, side) && 0 < Supply(cfg, s, side)
    ensures exists w :: WillSucceed(cfg, s, c, w)
  {
    assert Counts(s.calls, side, Promised, c);
    var other := OtherSide(s.calls[c].op);
    var w: nat := 0;
    if v :| v in Sleepers(s.calls, other) {
      w := v;
    }
    assert Enabled(s, Resume(c, w));
    SectionEffect(cfg, s, Resume(c, w));
    assert WillSucceed(cfg, s, c, w);
  }

  /** A sleeper beside something to take is not forgotten: some notified call on its side can resume, and
      will succeed. */
  lemma SleeperIsNotForgotten(cfg: Config, steps: seq<Step>, side: Side)
    requires KeepsWakeups(cfg, steps)
    requires Sleepers(Run(cfg, steps).calls, side) != {} && 0 < Supply(cfg, Run(cfg, steps), side)
    ensures var s := Run(cfg, steps);
            exists c, w :: c in Notified(s.calls, side) && WillSucceed(cfg, s, c, w)
  {
    var s := Run(cfg, steps);
    WakeupsNeverLost(cfg, steps);
    CountersAlwaysExact(cfg, steps);
    assert Notified(s.calls, side) != {};
    var c :| c in Notified(s.calls, side);
    NotifiedSucceeds(cfg, s, side, c);
  }

  ghost predicate Quiescent(calls: map<nat, Call>) {
    forall c :: c in calls ==> calls[c].pc.Finished? || calls[c].pc == Blocked(Asleep)
  }

  /** When nothing can run any more (every call sleeps or has finished), whoever sleeps has a reason:
      receivers only sleep on an empty queue, senders only on a full one, and never both. */
  lemma QuiescentSleepersAreJustified(cfg: Config, steps: seq<Step>)
    requires KeepsWakeups(cfg, steps)
    requires Quiescent(Run(cfg, steps).calls)
    ensures var s := Run(cfg, steps);
            && (Sleepers(s.calls, Receivers) != {} ==> s.core.queue == [])
            && (Sleepers(s.calls, Senders) != {} ==> |s.core.queue| == cfg.limits.cap)
            && (0 < cfg.limits.cap ==> Sleepers(s.calls, Receivers) == {} || Sleepers(s.calls, Senders) == {})
  {
    var s := Run(cfg, steps);
    WakeupsNeverLost(cfg, steps);
    CountersAlwaysExact(cfg, steps);
    forall side ensures Notified(s.calls, side) == {} {
      assert forall c :: !Counts(s.calls, side, Promised, c);
    }
  }

  // ----- Refusals -----

  /** The step runs a section of the call that ends in a refusal, with nothing to take on its side. */
  ghost predicate RefusedAt(cfg: Config, s: State, step: Step, c: nat) {
    && MayRun(s, step) && Enabled(s, step) && step.call == c
    && Section(cfg, s, step).1 == Refused
    && Supply(cfg, s, SideOf(s.calls[c].op)) == 0
  }

  lemma NewlyRefused(cfg: Config, s: State, step: Step, c: nat)
    requires |s.core.queue| <= cfg.limits.cap
    requires !(c in s.calls && s.calls[c].pc == Finished(Denied))
    requires c in Next(cfg, s, step).calls && Next(cfg, s, step).calls[c].pc == Finished(Denied)
    ensures RefusedAt(cfg, s, step, c)
  {
    assert MayRun(s, step) && step.call == c;
    SectionEffect(cfg, s, step);
  }

  ghost predicate RefusedAtStep(cfg: Config, steps: seq<Step>, k: nat, c: nat)
    requires k < |steps|
  {
    RefusedAt(cfg, Run(cfg, steps[..k]), steps[k], c)
  }

  /** Every refused call saw a full queue (a sender) or an empty one (a receiver) at the lock point at which
      it was refused, in every mode. */
  lemma {:induction false} RefusalsAreJustified(cfg: Config, steps: seq<Step>, c: nat)
    requires c in Run(cfg, steps).calls && Run(cfg, steps).calls[c].pc == Finished(Denied)
    ensures exists k: nat :: k < |steps| && RefusedAtStep(cfg, steps, k, c)
  {
    var prefix := steps[..|steps| - 1];
    var s := Run(cfg, prefix);
    if c in s.calls && s.calls[c].pc == Finished(Denied) {
      RefusalsAreJustified(cfg, prefix, c);
      var k: nat :| k < |prefix| && RefusedAtStep(cfg, prefix, k, c);
      assert prefix[..k] == steps[..k];
      assert RefusedAtStep(cfg, steps, k, c);
    } else {
      CountersAlwaysExact(cfg, prefix);
      NewlyRefused(cfg, s, steps[|steps| - 1], c);
      assert RefusedAtStep(cfg, steps, |steps| - 1, c);
    }
  }

  // ----- The two builds -----

  /** The sections of the two builds do the same and differ at most in whether they notify. */
  lemma SectionBuildsAgree(l: Limits, s: State, step: Step)
    requires MayRun(s, step)
    ensures var (core, o) := Section(Config(Circular, l), s, step);
            var (core', o') := Section(Config(Linear, l), s, step);
            var c, op := step.call, s.calls[step.call].op;
            && core == core' && PcAfter(o) == PcAfter(o') && EventsAfter(c, op, o) == EventsAfter(c, op, o')
            && (Notifies(o) ==> Notifies(o'))
            && (Notifies(o') && Counter(s.core, OtherSide(op)) != 0 ==> Notifies(o))
  {
  }

  /** When the circular build's counter is zero nobody on that side can be asleep, so the notification that
      only the linear build makes reaches nobody. */
  lemma NobodyToNotify(s: State, c: nat, pc: Pc, w: nat)
    requires CountersExact(s) && c in s.calls && Counter(s.core, OtherSide(s.calls[c].op)) == 0
    ensures var calls := SetPc(s.calls, c, pc);
            NotifyOne(calls, OtherSide(s.calls[c].op), w) == calls
  {
    var side := OtherSide(s.calls[c].op);
    MembersAfter(s.calls, c, pc, side, Sleeping);
    assert forall v :: Counts(s.calls, side, Sleeping, v) ==> v in BlockedOn(s.calls, side);
  }

  lemma StepBuildsAgree(l: Limits, s: State, step: Step)
    requires Inv(Config(Circular, l), s)
    ensures Next(Config(Circular, l), s, step) == Next(Config(Linear, l), s, step)
  {
    if Enabled(s, step) && MayRun(s, step) {
      SectionBuildsAgree(l, s, step);
      if Counter(s.core, OtherSide(s.calls[step.call].op)) == 0 {
        NobodyToNotify(s, step.call, PcAfter(Section(Config(Linear, l), s, step).1), step.wakes);
      }
    }
  }

  /** Under any schedule, with blocking, timed and non-blocking calls, the circular and the linear build
      go through the same states: the same stored queue, the same calls asleep and notified, the same
      results and the same history. */
  lemma {:induction false} BuildsAgree(l: Limits, steps: seq<Step>)
    ensures Run(Config(Circular, l), steps) == Run(Config(Linear, l), steps)
  {
    if steps != [] {
      var prefix := steps[..|steps| - 1];
      BuildsAgree(l, prefix);
      CountersAlwaysExact(Config(Circular, l), prefix);
      StepBuildsAgree(l, Run(Config(Circular, l), prefix), steps[|steps| - 1]);
    }
  }

  // ----- The boundary is reached: a run that loses a wakeup -----

  const LOSING_CONFIG := Config(Circular, Limits(1, 0))
  const RECEIVE := ReceiveOp(Blocking, 0)
  const SEND := SendOp(Blocking, Message([], 0))

  lemma RunSnoc(cfg: Config, steps: seq<Step>, step: Step)
    ensures Run(cfg, steps + [step]) == Next(cfg, Run(cfg, steps), step)
  {
  }

  lemma OneReceiverSleeps() returns (steps: seq<Step>)
    ensures Run(LOSING_CONFIG, steps) == State(Core([], 0, 1), map[0 := Call(RECEIVE, Blocked(Asleep))], [])
  {
    RunSnoc(LOSING_CONFIG, [], Invoke(0, RECEIVE));
    steps := [] + [Invoke(0, RECEIVE)];
    var s := Run(LOSING_CONFIG, steps);
    assert s.calls == map[0 := Call(RECEIVE, Ready)];
    assert forall c :: !Counts(s.calls, Senders, Sleeping, c);
    RunSnoc(LOSING_CONFIG, steps, Begin(0, 0));
    steps := steps + [Begin(0, 0)];
    assert Run(LOSING_CONFIG, steps).calls == map[0 := Call(RECEIVE, Blocked(Asleep))];
  }

  lemma TwoReceiversSleep() returns (steps: seq<Step>)
    ensures Run(LOSING_CONFIG, steps) ==
            State(Core([], 0, 2), map[0 := Call(RECEIVE, Blocked(Asleep)), 1 := Call(RECEIVE, Blocked(Asleep))], [])
  {
    steps := OneReceiverSleeps();
    RunSnoc(LOSING_CONFIG, steps, Invoke(1, RECEIVE));
    steps := steps + [Invoke(1, RECEIVE)];
    var s := Run(LOSING_CONFIG, steps);
    assert s.calls == map[0 := Call(RECEIVE, Blocked(Asleep)), 1 := Call(RECEIVE, Ready)];
    assert forall c :: !Counts(s.calls, Senders, Sleeping, c);
    RunSnoc(LOSING_CONFIG, steps, Begin(1, 0));
    steps := steps + [Begin(1, 0)];
  }

  lemma SendWakesOne() returns (steps: seq<Step>)
    ensures var s := Run(LOSING_CONFIG, steps);
            && s.core == Core([SEND.message], 0, 2)
            && s.calls == map[0 := Call(RECEIVE, Blocked(Awake(true, false))), 1 := Call(RECEIVE, Blocked(Asleep)),
                              2 := Call(SEND, Finished(Stored))]
  {
    steps := TwoReceiversSleep();
    RunSnoc(LOSING_CONFIG, steps, Invoke(2, SEND));
    steps := steps + [Invoke(2, SEND)];
    var s := Run(LOSING_CONFIG, steps);
    assert Counts(s.calls, Receivers, Sleeping, 0);
    assert Enqueue([], SEND.message) == [SEND.message];
    assert Counts(SetPc(s.calls, 2, Finished(Stored)), Receivers, Sleeping, 0);
    RunSnoc(LOSING_CONFIG, steps, Begin(2, 0));
    steps := steps + [Begin(2, 0)];
  }

  /** A run that reaches such a state: two receivers sleep, a message is sent, and the wait of the one
      that was notified throws.  The other receiver sleeps on a queue that holds a message. */
  lemma ThrowCanLoseWakeup() returns (steps: seq<Step>)
    ensures var s := Run(LOSING_CONFIG, steps);
            Sleepers(s.calls, Receivers) == {1} && |s.core.queue| == 1 && Notified(s.calls, Receivers) == {}
  {
    steps := SendWakesOne();
    RunSnoc(LOSING_CONFIG, steps, Throw(0));
    steps := steps + [Throw(0)];
    var s := Run(LOSING_CONFIG, steps);
    assert forall c :: Counts(s.calls, Receivers, Sleeping, c) <==> c == 1;
    assert forall c :: !Counts(s.calls, Receivers, Promised, c);
  }
}
