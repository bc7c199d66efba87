/** What a call can end in, by its mode: which calls may wait, which may be refused and when, over every
    concurrent run. */
module CallModes {
  import opened Protocol
  import opened Monitor

  // ----- One step -----

  /** A call's first section ends it or puts it to sleep. */
  lemma BeginEnds(cfg: Config, s: State, c: nat, w: nat)
    requires Enabled(s, Begin(c, w)) && |s.core.queue| <= cfg.limits.cap
    ensures var op, pc := s.calls[c].op, Next(cfg, s, Begin(c, w)).calls[c].pc;
            var fits, supply := Fits(cfg.limits, op), Supply(cfg, s, SideOf(op));
            && (pc == Finished(BadSize) <==> !fits)
            && (Succeeded(pc) <==> fits && supply > 0)
            && (pc == Finished(Denied) <==> fits && supply == 0 && op.mode == NonBlocking)
            && (pc == Blocked(Asleep) <==> fits && supply == 0 && op.mode != NonBlocking)
  {
    SectionOutcome(cfg, s, Begin(c, w));
    AfterSection(cfg, s, Begin(c, w));
  }

  /** A resumed call succeeds whenever there is something to take, whether or not its wait expired; otherwise
      it gives up exactly when the wait expired, and sleeps again when not. */
  lemma ResumeEnds(cfg: Config, s: State, c: nat, w: nat)
    requires Enabled(s, Resume(c, w)) && |s.core.queue| <= cfg.limits.cap
    ensures var call, pc := s.calls[c], Next(cfg, s, Resume(c, w)).calls[c].pc;
            var supply := Supply(cfg, s, SideOf(call.op));
            && (Succeeded(pc) <==> supply > 0)
            && (pc == Finished(Denied) <==> supply == 0 && call.pc.wait.expired)
            && (pc == Blocked(Asleep) <==> supply == 0 && !call.pc.wait.expired)
  {
    SectionOutcome(cfg, s, Resume(c, w));
    AfterSection(cfg, s, Resume(c, w));
  }

  /** Notifying the other side does not touch the call itself. */
  lemma AfterSection(cfg: Config, s: State, step: Step)
    requires MayRun(s, step)
    ensures RunSection(cfg, s, step).calls[step.call] ==
            s.calls[step.call].(pc := PcAfter(Section(cfg, s, step).1))
  {
  }

  // ----- Every run -----

  /** How a call of this mode and size may stand. */
  ghost predicate Behaves(l: Limits, call: Call) {
    && (call.pc == Finished(BadSize) <==> !call.pc.Ready? && !Fits(l, call.op))
    && (call.op.mode == NonBlocking ==> !call.pc.Blocked? && call.pc != Finished(Threw))
    && (call.op.mode == Blocking ==> call.pc != Finished(Denied))
    && (HasExpired(call.pc) ==> call.op.mode == Timed)
  }

  predicate HasExpired(pc: Pc) {
    pc.Blocked? && pc.wait.Awake? && pc.wait.expired
  }

  ghost predicate AllBehave(cfg: Config, s: State) {
    forall c :: c in s.calls ==> Behaves(cfg.limits, s.calls[c])
  }

  /** The other calls keep their place, except that a sleeper may be notified. */
  lemma OthersKept(cfg: Config, s: State, step: Step, c: nat)
    requires MayRun(s, step) && c in s.calls && c != step.call
    ensures var call := RunSection(cfg, s, step).calls[c];
            call == s.calls[c] || (s.calls[c].pc == Blocked(Asleep) && call == s.calls[c].(pc := Blocked(Awake(true, false))))
  {
  }

  lemma SectionBehaves(cfg: Config, s: State, step: Step)
    requires AllBehave(cfg, s) && Enabled(s, step) && MayRun(s, step) && |s.core.queue| <= cfg.limits.cap
    ensures AllBehave(cfg, RunSection(cfg, s, step))
  {
    var s' := RunSection(cfg, s, step);
    forall c | c in s'.calls ensures Behaves(cfg.limits, s'.calls[c]) {
      if c == step.call {
        SectionOutcome(cfg, s, step);
        AfterSection(cfg, s, step);
      } else {
        OthersKept(cfg, s, step, c);
      }
    }
  }

  /** In every run: a call ends with a size error exactly when it has begun and its size does not fit; a
      non-blocking call never waits; a blocking call is never refused; and only a timed wait expires. */
  lemma {:induction false} CallsKeepTheirMode(cfg: Config, steps: seq<Step>)
    ensures AllBehave(cfg, Run(cfg, steps))
  {
    if steps != [] {
      var prefix, last := steps[..|steps| - 1], steps[|steps| - 1];
      CallsKeepTheirMode(cfg, prefix);
      CountersAlwaysExact(cfg, prefix);
      var s := Run(cfg, prefix);
      if Enabled(s, last) && MayRun(s, last) {
        SectionBehaves(cfg, s, last);
      }
    }
  }

  /** Step k happens, and it is this one. */
  ghost predicate Happens(cfg: Config, steps: seq<Step>, k: nat, step: Step) {
    k < |steps| && steps[k] == step && Enabled(Run(cfg, steps[..k]), step)
  }

  ghost predicate Happened(cfg: Config, steps: seq<Step>, step: Step) {
    exists k :: Happens(cfg, steps, k, step)
  }

  lemma HappenedNext(cfg: Config, steps: seq<Step>, step: Step)
    requires steps != []
    ensures var prefix, last := steps[..|steps| - 1], steps[|steps| - 1];
            Happened(cfg, steps, step) <==> Happened(cfg, prefix, step) || (last == step && Enabled(Run(cfg, prefix), step))
  {
    var prefix := steps[..|steps| - 1];
    forall k: nat | k < |prefix| ensures Happens(cfg, steps, k, step) <==> Happens(cfg, prefix, k, step) {
      assert steps[..k] == prefix[..k];
    }
    if k :| Happens(cfg, prefix, k, step) {
      assert Happens(cfg, steps, k, step);
    }
    assert Happens(cfg, steps, |prefix|, step) <==> steps[|prefix|] == step && Enabled(Run(cfg, prefix), step);
  }

  /** A call is timed out only if its wait did expire. */
  lemma {:induction false} DeniedAfterExpiry(cfg: Config, steps: seq<Step>, c: nat)
    requires c in Run(cfg, steps).calls && Run(cfg, steps).calls[c].op.mode != NonBlocking
    requires var pc := Run(cfg, steps).calls[c].pc; pc == Finished(Denied) || HasExpired(pc)
    ensures Run(cfg, steps).calls[c].op.mode == Timed && Happened(cfg, steps, Expire(c))
  {
    CallsKeepTheirMode(cfg, steps);
    var prefix, last := steps[..|steps| - 1], steps[|steps| - 1];
    var s := Run(cfg, prefix);
    HappenedNext(cfg, steps, Expire(c));
    if !(last == Expire(c) && Enabled(s, last)) {
      CountersAlwaysExact(cfg, prefix);
      StillExpired(cfg, s, last, c);
      DeniedAfterExpiry(cfg, prefix, c);
    }
  }

  /** Without an expiry a step refuses only a call that does not wait or whose wait has expired before. */
  lemma StillExpired(cfg: Config, s: State, step: Step, c: nat)
    requires |s.core.queue| <= cfg.limits.cap && !(step == Expire(c) && Enabled(s, step))
    requires c in Next(cfg, s, step).calls && Next(cfg, s, step).calls[c].op.mode != NonBlocking
    requires var pc := Next(cfg, s, step).calls[c].pc; pc == Finished(Denied) || HasExpired(pc)
    ensures c in s.calls && s.calls[c].op == Next(cfg, s, step).calls[c].op
    ensures s.calls[c].pc == Finished(Denied) || HasExpired(s.calls[c].pc)
  {
    if Enabled(s, step) && MayRun(s, step) {
      if step.call == c {
        SectionOutcome(cfg, s, step);
        AfterSection(cfg, s, step);
      } else {
        OthersKept(cfg, s, step, c);
      }
    }
  }

  predicate HasThrown(s: State, c: nat) {
    c in s.calls && s.calls[c].pc == Finished(Threw)
  }

  /** A call ends by an exception from its wait exactly when its wait threw. */
  lemma {:induction false} ThrewExactly(cfg: Config, steps: seq<Step>, c: nat)
    ensures HasThrown(Run(cfg, steps), c) <==> Happened(cfg, steps, Throw(c))
  {
    if steps != [] {
      var prefix, last := steps[..|steps| - 1], steps[|steps| - 1];
      ThrewExactly(cfg, prefix, c);
      HappenedNext(cfg, steps, Throw(c));
      ThrowsNow(cfg, Run(cfg, prefix), last, c);
    }
  }

  lemma ThrowsNow(cfg: Config, s: State, step: Step, c: nat)
    ensures HasThrown(Next(cfg, s, step), c) <==> HasThrown(s, c) || (step == Throw(c) && Enabled(s, step))
  {
    if Enabled(s, step) && MayRun(s, step) && c in s.calls {
      if step.call == c {
        AfterSection(cfg, s, step);
      } else {
        OthersKept(cfg, s, step, c);
      }
    }
  }
}
