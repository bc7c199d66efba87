/** The auto-reset event, in its thread and interprocess forms, which run the same protocol: set raises
    the flag and notifies one waiter; wait sleeps until the flag is up and lowers it. */
module AutoResetEvent {
  /** Entering: has not taken the lock yet.  Asleep: on the condition's queue.  Woken: off it, notified or
      for no reason, waiting to get the lock back.  Passed: wait returned. */
  datatype Pc = Entering | Asleep | Woken(notified: bool) | Passed

  /** The number of sets that found the flag down is history, not part of the object. */
  datatype State = State(flag: bool, waiters: map<nat, Pc>, raises: nat)

  /** wakes is the sleeper that notify_one reaches, if anybody sleeps. */
  datatype Step =
    | Set(wakes: nat)
    | Call(waiter: nat)
    | Enter(waiter: nat)
    | Resume(waiter: nat)
    | SpuriousWake(waiter: nat)

  /** The object itself: both operations run under the lock. */
  class Event {
    var flag: bool

    constructor ()
      ensures !flag
    {
      flag := false;
    }

    /** Returns whether the flag was down. */
    method Set() returns (raised: bool)
      modifies this
      ensures flag && raised == !old(flag)
    {
      raised := !flag;
      flag := true;
    }

    /** The predicate test of a wait with the lock held: passes and lowers the flag, or must sleep. */
    method TryPass() returns (passed: bool)
      modifies this
      ensures passed == old(flag) && !flag
    {
      passed := flag;
      if passed {
        flag := false;
      }
    }
  }

  function In(s: State, pc: Pc): set<nat> {
    set w | w in s.waiters && s.waiters[w] == pc
  }

  function Initial(): State {
    State(false, map[], 0)
  }

  function Move(s: State, w: nat, pc: Pc): State {
    s.(waiters := s.waiters[w := pc])
  }

  predicate Enabled(s: State, step: Step) {
    match step
    case Set(w) => In(s, Asleep) == {} || w in In(s, Asleep)
    case Call(w) => w !in s.waiters
    case Enter(w) => w in In(s, Entering)
    case Resume(w) => w in s.waiters && s.waiters[w].Woken?
    case SpuriousWake(w) => w in In(s, Asleep)
  }

  /** wait's loop: re-test the flag, pass and lower it, or sleep. */
  function Test(s: State, w: nat): State {
    if s.flag then Move(s, w, Passed).(flag := false) else Move(s, w, Asleep)
  }

  function Next(s: State, step: Step): State {
    if !Enabled(s, step) then s
    else
      match step
      case Set(w) =>
        var raised := s.(flag := true, raises := if s.flag then s.raises else s.raises + 1);
        if In(s, Asleep) == {} then raised else Move(raised, w, Woken(true))
      case Call(w) => Move(s, w, Entering)
      case Enter(w) => Test(s, w)
      case Resume(w) => Test(s, w)
      case SpuriousWake(w) => Move(s, w, Woken(false))
  }

  function Run(steps: seq<Step>): State {
    if steps == [] then Initial() else Next(Run(steps[..|steps| - 1]), steps[|steps| - 1])
  }

  /** Each raise of the flag lets exactly one wait through: completed waits plus the pending raise are the
      sets that found the flag down. */
  ghost predicate RaisesAccounted(s: State) {
    |In(s, Passed)| + (if s.flag then 1 else 0) == s.raises
  }

  /** Whenever the flag is up and somebody sleeps un-notified, a notified waiter is on its way. */
  ghost predicate NoLostWakeup(s: State) {
    s.flag && In(s, Asleep) != {} ==> In(s, Woken(true)) != {}
  }

  lemma MoveChanges(s: State, w: nat, pc: Pc, at: Pc)
    ensures In(Move(s, w, pc), at) == if pc == at then In(s, at) + {w} else In(s, at) - {w}
  {
  }

  lemma TestKeeps(s: State, w: nat)
    requires w in s.waiters && s.waiters[w] != Passed && s.waiters[w] != Asleep
    requires RaisesAccounted(s) && NoLostWakeup(s)
    ensures RaisesAccounted(Test(s, w)) && NoLostWakeup(Test(s, w))
  {
    var pc := if s.flag then Passed else Asleep;
    MoveChanges(s, w, pc, Passed);
    MoveChanges(s, w, pc, Asleep);
    assert In(Test(s, w), Passed) == In(Move(s, w, pc), Passed);
    assert w !in In(s, Passed);
  }

  lemma SetKeeps(s: State, w: nat)
    requires RaisesAccounted(s) && Enabled(s, Set(w))
    ensures RaisesAccounted(Next(s, Set(w))) && NoLostWakeup(Next(s, Set(w)))
  {
    var raised := s.(flag := true, raises := if s.flag then s.raises else s.raises + 1);
    assert In(raised, Passed) == In(s, Passed) && In(raised, Asleep) == In(s, Asleep);
    if In(s, Asleep) != {} {
      MoveChanges(raised, w, Woken(true), Passed);
      assert w in In(Next(s, Set(w)), Woken(true));
    }
  }

  /** A set moves exactly one sleeper from the condition's queue to the notified waiters, also when the flag was
      up already; when nobody sleeps, and for all other places, nobody moves. */
  lemma SetWakesOne(s: State, w: nat, pc: Pc)
    requires Enabled(s, Set(w))
    ensures Next(s, Set(w)).flag
    ensures In(Next(s, Set(w)), pc) ==
            if In(s, Asleep) == {} then In(s, pc)
            else if pc == Woken(true) then In(s, pc) + {w}
            else if pc == Asleep then In(s, pc) - {w}
            else In(s, pc)
  {
    var raised := s.(flag := true, raises := if s.flag then s.raises else s.raises + 1);
    assert In(raised, pc) == In(s, pc);
    if In(s, Asleep) != {} {
      MoveChanges(raised, w, Woken(true), pc);
    }
  }

  lemma StepKeeps(s: State, step: Step)
    requires RaisesAccounted(s) && NoLostWakeup(s)
    ensures RaisesAccounted(Next(s, step)) && NoLostWakeup(Next(s, step))
  {
    if Enabled(s, step) {
      match step
      case Set(w) => SetKeeps(s, w);
      case Call(w) =>
        MoveChanges(s, w, Entering, Passed);
        MoveChanges(s, w, Entering, Asleep);
        MoveChanges(s, w, Entering, Woken(true));
        assert w !in In(s, Passed) && w !in In(s, Woken(true));
      case Enter(w) => TestKeeps(s, w);
      case Resume(w) => TestKeeps(s, w);
      case SpuriousWake(w) =>
        MoveChanges(s, w, Woken(false), Passed);
        MoveChanges(s, w, Woken(false), Asleep);
        MoveChanges(s, w, Woken(false), Woken(true));
        assert w !in In(s, Passed) && w !in In(s, Woken(true));
    }
  }

  /** Over every run, in any interleaving and with spurious wakeups. */
  lemma {:induction false} EventIsSound(steps: seq<Step>)
    ensures RaisesAccounted(Run(steps)) && NoLostWakeup(Run(steps))
  {
    if steps != [] {
      EventIsSound(steps[..|steps| - 1]);
      StepKeeps(Run(steps[..|steps| - 1]), steps[|steps| - 1]);
    }
  }

  /** When every waiter sleeps or has passed, nobody sleeps beside a raised flag. */
  lemma QuiescentEventIsDown(steps: seq<Step>)
    requires forall w :: w in Run(steps).waiters ==> Run(steps).waiters[w] == Asleep || Run(steps).waiters[w] == Passed
    ensures In(Run(steps), Asleep) != {} ==> !Run(steps).flag
  {
    EventIsSound(steps);
  }

  // ----- The object under the protocol -----

  /** One step of a run on the event object: whether it was a set that found the flag down, and the wait that
      passed by it, if one did. */
  method PlayStep(e: Event, s: State, step: Step) returns (raised: bool, passed: set<nat>)
    requires e.flag == s.flag
    modifies e
    ensures e.flag == Next(s, step).flag
    ensures Next(s, step).raises == s.raises + if raised then 1 else 0
    ensures In(Next(s, step), Passed) == In(s, Passed) + passed
  {
    raised, passed := false, {};
    if Enabled(s, step) {
      match step {
        case Set(w) => raised := e.Set();
        case Enter(w) => passed := PlayTest(e, s, w);
        case Resume(w) => passed := PlayTest(e, s, w);
        case _ =>
      }
    }
  }

  method PlayTest(e: Event, s: State, w: nat) returns (passed: set<nat>)
    requires e.flag == s.flag && w in s.waiters && s.waiters[w] != Passed
    modifies e
    ensures e.flag == Test(s, w).flag
    ensures In(Test(s, w), Passed) == In(s, Passed) + passed
  {
    var ok := e.TryPass();
    passed := if ok then {w} else {};
  }

  /** Plays a whole run on a new event: the sets that returned having found the flag down and the waits that
      passed are the model's, so the waits let through and the flag account for every raise. */
  method Play(steps: seq<Step>) returns (e: Event, raises: nat, passed: set<nat>)
    ensures e.flag == Run(steps).flag && raises == Run(steps).raises && passed == In(Run(steps), Passed)
    ensures |passed| + (if e.flag then 1 else 0) == raises
  {
    e := new Event();
    raises, passed := 0, {};
    var s := Initial();
    for i := 0 to |steps|
      invariant fresh(e) && s == Run(steps[..i])
      invariant e.flag == s.flag && raises == s.raises && passed == In(s, Passed)
    {
      var raised, more := PlayStep(e, s, steps[i]);
      raises, passed := if raised then raises + 1 else raises, passed + more;
      assert steps[..i + 1][..i] == steps[..i];
      s := Next(s, steps[i]);
    }
    assert steps[..|steps|] == steps;
    EventIsSound(steps);
  }
}
