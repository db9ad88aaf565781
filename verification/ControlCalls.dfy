/** Accounting of the control calls over every run: what the epoch counts, what a refused or
    failed call leaves behind, and how far apart profiles complete. */
module ControlCalls {
  import opened Control
  import opened ControlGate

  // --------------------------------------------------------------------------- the decisions

  predicate Succeeded(e: Event) { e.result == Ok || e.result == Accepted }

  /** A successful call that was not a request for the state already in force. */
  predicate Changed(e: Event) {
    Succeeded(e) && !(e.call.SetState? && e.call.target == e.before)
  }

  function CountChanges(log: seq<Event>): nat {
    if log == [] then 0 else CountChanges(log[..|log| - 1]) + if Changed(log[|log| - 1]) then 1 else 0
  }

  function CountProfiles(log: seq<Event>): nat {
    if log == [] then 0
    else CountProfiles(log[..|log| - 1]) +
         if Succeeded(log[|log| - 1]) && log[|log| - 1].call.Profile? then 1 else 0
  }

  lemma CountAppend(log: seq<Event>, e: Event)
    ensures CountChanges(log + [e]) == CountChanges(log) + if Changed(e) then 1 else 0
    ensures CountProfiles(log + [e]) == CountProfiles(log) + if Succeeded(e) && e.call.Profile? then 1 else 0
  {
    assert (log + [e])[..|log|] == log;
  }

  /** The same parameters for every algorithm, stored or not. */
  ghost predicate SameTable(a: map<Algo, AlgoParams>, b: map<Algo, AlgoParams>) {
    forall algo :: StoredFor(a, algo) == StoredFor(b, algo)
  }

  ghost predicate SameTableBut(a: map<Algo, AlgoParams>, b: map<Algo, AlgoParams>, except: Algo) {
    forall algo | algo != except :: StoredFor(a, algo) == StoredFor(b, algo)
  }

  /** Successive completions are at least `gap` apart. */
  ghost predicate Spaced(times: seq<int>, gap: int) {
    forall i, j | 0 <= i < j < |times| :: gap <= times[j] - times[i]
  }

  /** The completion times of the successful profiles, and the time the throttle compares with. */
  ghost predicate TimesInv(times: seq<int>, last: int, gap: int, clock: int) {
    && (forall i, j | 0 <= i <= j < |times| :: 0 < times[i] <= times[j] <= clock)
    && last == (if times == [] then 0 else times[|times| - 1])
    && (forall j | 0 < j < |times| :: gap <= times[j] - times[j - 1])
    && 0 < clock
  }

  ghost predicate LogInv(cfg: Config, ctl: Ctl, clock: int) {
    && ctl.epoch == CountChanges(ctl.log)
    && ctl.switches == CountProfiles(ctl.log) == |ctl.switchTimes|
    && TimesInv(ctl.switchTimes, ctl.lastSwitch, cfg.minInterval, clock)
  }

  lemma TimesAppend(times: seq<int>, last: int, gap: int, clock: int)
    requires TimesInv(times, last, gap, clock) && (last == 0 || gap <= clock - last)
    ensures TimesInv(times + [clock], clock, gap, clock)
  {}

  // ------------------------------------------------------- a mutation against its snapshot

  /** Everything a client can see, as it was when the call took the lock. */
  ghost predicate AsBefore(ctl: Ctl, snap: Snapshot) {
    && ctl.state == snap.state && ctl.epoch == snap.epoch && ctl.switches == snap.switches
    && ctl.lastSwitch == snap.lastSwitch && SameTable(ctl.stored, snap.stored)
  }

  /** Between params_store and the rollback of the stored parameters. */
  predicate MayHaveStored(c: Caller) {
    && c.job.call.Profile?
    && (|| c.pc.Finish? || c.pc.Committing? || c.pc.Undoing?
        || ((InsideSwitch(c.pc) || c.pc.BumpFree?) && !HoldsLock(c.pc)))
  }

  ghost predicate SnapInv(cfg: Config, ctl: Ctl, clock: int, c: Caller) {
    var job, snap := c.job, c.job.snap;
    && snap.time <= clock
    && (job.call.Profile? ==> snap.lastSwitch == 0 || cfg.minInterval <= snap.time - snap.lastSwitch)
    && match c.pc
       case ClearPark(ok) => !ok ==> AsBefore(ctl, snap)
       case pc =>
         && ctl.saved == snap.state && ctl.epoch == snap.epoch && ctl.switches == snap.switches
         && ctl.lastSwitch == snap.lastSwitch
         && (job.call.SetState? ==> job.call.target != ctl.saved)
         && if MayHaveStored(c) then
              && SameTableBut(ctl.stored, snap.stored, job.paramAlgo)
              && job.prevParams == StoredFor(snap.stored, job.paramAlgo)
            else SameTable(ctl.stored, snap.stored)
  }

  ghost predicate CallInv(cfg: Config, s: State) {
    && CtlInv(cfg, s)
    && LogInv(cfg, s.ctl, s.clock)
    && (s.ctl.owner.Some? ==> SnapInv(cfg, s.ctl, s.clock, s.callers[s.ctl.owner.value]))
  }

  /** What a commit writes. */
  lemma CommitEvent(ctl: Ctl, clock: int, call: Call, ctl': Ctl) returns (e: Event)
    requires CommitStep(ctl, clock, call, ctl')
    ensures ctl'.log == ctl.log + [e] && Succeeded(e) && e.call == call && e.before == ctl.saved
    ensures ctl'.epoch == ctl.epoch + 1
    ensures ctl'.switches == ctl.switches + if call.Profile? then 1 else 0
    ensures ctl'.lastSwitch == if call.Profile? then clock else ctl.lastSwitch
    ensures ctl'.switchTimes == ctl.switchTimes + if call.Profile? then [clock] else []
  {
    if call.SetState? {
      e := Event(call, Ok, ctl.saved);
    } else {
      var to := CommitState(call, ctl.saved);
      var result :| (result == Ok || (result == Accepted && HasSlowParam(call)))
                    && ctl' == Decide(ctl, call, result, ctl.saved).(
                                 state := to, epoch := ctl.epoch + 1, switches := ctl.switches + 1,
                                 lastSwitch := clock, switchTimes := ctl.switchTimes + [clock]);
      e := Event(call, result, ctl.saved);
    }
  }

  lemma LogInvCommit(cfg: Config, ctl: Ctl, clock: int, c: Caller, ctl': Ctl)
    requires LogInv(cfg, ctl, clock) && SnapInv(cfg, ctl, clock, c) && c.pc.Committing?
    requires CommitStep(ctl, clock, c.job.call, ctl')
    ensures LogInv(cfg, ctl', clock)
  {
    var e := CommitEvent(ctl, clock, c.job.call, ctl');
    CountAppend(ctl.log, e);
    if c.job.call.Profile? {
      TimesAppend(ctl.switchTimes, ctl.lastSwitch, cfg.minInterval, clock);
    }
  }

  lemma LogInvDecide(cfg: Config, ctl: Ctl, clock: int, e: Event)
    requires LogInv(cfg, ctl, clock) && !Changed(e) && !(Succeeded(e) && e.call.Profile?)
    ensures LogInv(cfg, ctl.(log := ctl.log + [e]), clock)
  {
    CountAppend(ctl.log, e);
  }

  lemma SnapPark(cfg: Config, s: State, c: Caller, ctl': Ctl, c': Caller)
    requires c.pc.Parked? && SnapInv(cfg, s.ctl, s.clock, c) && ParkedStep(s.ctl, s.gate, c, ctl', c')
    requires LogInv(cfg, s.ctl, s.clock)
    ensures SnapInv(cfg, ctl', s.clock, c') && LogInv(cfg, ctl', s.clock)
  {}

  lemma SnapUndo(cfg: Config, s: State, k: nat, c: Caller, ctl': Ctl, g': Gate, pc': CallerPc)
    requires SnapInv(cfg, s.ctl, s.clock, c) && c.pc.Undoing? && EndStep(s, k, c, ctl', g', pc')
    ensures SnapInv(cfg, ctl', s.clock, c.(pc := pc'))
  {}

  /** LogInv does not look at the state, the saved state, the table, the lock or the owner. */
  lemma LogInvSame(cfg: Config, ctl: Ctl, ctl': Ctl, clock: int)
    requires LogInv(cfg, ctl, clock)
    requires ctl'.log == ctl.log && ctl'.switchTimes == ctl.switchTimes && ctl'.lastSwitch == ctl.lastSwitch
    requires ctl'.epoch == ctl.epoch && ctl'.switches == ctl.switches
    ensures LogInv(cfg, ctl', clock)
  {}

  lemma LogEnd(cfg: Config, s: State, k: nat, c: Caller, ctl': Ctl, g': Gate, pc': CallerPc)
    requires SnapInv(cfg, s.ctl, s.clock, c) && LogInv(cfg, s.ctl, s.clock) && EndStep(s, k, c, ctl', g', pc')
    ensures LogInv(cfg, ctl', s.clock)
  {
    if c.pc.Committing? {
      LogInvCommit(cfg, s.ctl, s.clock, c, ctl');
    } else if c.pc.RestoreState? {
      var e := Event(c.job.call, Failed, s.ctl.saved);
      LogInvDecide(cfg, s.ctl, s.clock, e);
      LogInvSame(cfg, s.ctl.(log := s.ctl.log + [e]), ctl', s.clock);
    } else {
      LogInvSame(cfg, s.ctl, ctl', s.clock);
    }
  }

  lemma SnapRestore(cfg: Config, s: State, k: nat, c: Caller, ctl': Ctl, g': Gate, pc': CallerPc)
    requires SnapInv(cfg, s.ctl, s.clock, c) && c.pc.RestoreState? && EndStep(s, k, c, ctl', g', pc')
    ensures SnapInv(cfg, ctl', s.clock, c.(pc := pc'))
  {}

  lemma SnapEnd(cfg: Config, s: State, k: nat, c: Caller, ctl': Ctl, g': Gate, pc': CallerPc)
    requires SnapInv(cfg, s.ctl, s.clock, c) && LogInv(cfg, s.ctl, s.clock) && EndStep(s, k, c, ctl', g', pc')
    ensures InMutation(pc') ==> SnapInv(cfg, ctl', s.clock, c.(pc := pc'))
    ensures LogInv(cfg, ctl', s.clock)
  {
    LogEnd(cfg, s, k, c, ctl', g', pc');
    if c.pc.Undoing? {
      SnapUndo(cfg, s, k, c, ctl', g', pc');
    } else if c.pc.RestoreState? {
      SnapRestore(cfg, s, k, c, ctl', g', pc');
    }
  }

  lemma SnapSwitch(threads: seq<Thread>, g: Gate, c: Caller, g': Gate, pc': CallerPc)
    requires SwitchStep(threads, g, c.pc, g', pc')
    ensures !c.pc.ClearPark? && !pc'.ClearPark? && MayHaveStored(c.(pc := pc')) == MayHaveStored(c)
  {
    OwnerSwitchStep(threads, g, c.pc, g', pc');
  }

  /** The control values are untouched, so only the position relative to params_store matters. */
  lemma SnapMove(cfg: Config, ctl: Ctl, clock: int, c: Caller, pc': CallerPc)
    requires SnapInv(cfg, ctl, clock, c)
    requires !c.pc.ClearPark? && !pc'.ClearPark? && MayHaveStored(c.(pc := pc')) == MayHaveStored(c)
    ensures SnapInv(cfg, ctl, clock, c.(pc := pc'))
  {}

  lemma SnapEndStep(cfg: Config, s: State, k: nat, ctl': Ctl, g': Gate, c': Caller)
    requires k < |s.callers| && CallerStep(cfg, s, k, ctl', g', c') && InMutation(s.callers[k].pc)
    requires s.callers[k].pc.Parked? || EndStep(s, k, s.callers[k], ctl', g', c'.pc)
    requires SnapInv(cfg, s.ctl, s.clock, s.callers[k]) && LogInv(cfg, s.ctl, s.clock)
    ensures InMutation(c'.pc) ==> SnapInv(cfg, ctl', s.clock, c')
    ensures LogInv(cfg, ctl', s.clock)
  {
    var c := s.callers[k];
    if c.pc.Parked? {
      SnapPark(cfg, s, c, ctl', c');
    } else {
      assert c' == c.(pc := c'.pc);
      SnapEnd(cfg, s, k, c, ctl', g', c'.pc);
    }
  }

  lemma SnapWaitStep(cfg: Config, s: State, k: nat, ctl': Ctl, g': Gate, c': Caller)
    requires k < |s.callers| && CallerStep(cfg, s, k, ctl', g', c')
    requires var pc := s.callers[k].pc; pc.Parking? || pc.ParkScan? || pc.BumpFree? || InsideSwitch(pc)
    requires SnapInv(cfg, s.ctl, s.clock, s.callers[k])
    ensures SnapInv(cfg, ctl', s.clock, c') && ctl' == s.ctl
  {
    var c := s.callers[k];
    assert c' == c.(pc := c'.pc) && ctl' == s.ctl;
    if InsideSwitch(c.pc) || c.pc.BumpFree? {
      SnapSwitch(s.threads, s.gate, c, g', c'.pc);
    }
    SnapMove(cfg, s.ctl, s.clock, c, c'.pc);
  }

  lemma CallInvOwner(cfg: Config, s: State, k: nat, ctl': Ctl, g': Gate, c': Caller)
    requires k < |s.callers| && InMutation(s.callers[k].pc) && CallerStep(cfg, s, k, ctl', g', c')
    requires SnapInv(cfg, s.ctl, s.clock, s.callers[k]) && LogInv(cfg, s.ctl, s.clock)
    ensures InMutation(c'.pc) ==> SnapInv(cfg, ctl', s.clock, c')
    ensures LogInv(cfg, ctl', s.clock)
  {
    var pc := s.callers[k].pc;
    if pc.Parking? || pc.ParkScan? || pc.BumpFree? || InsideSwitch(pc) {
      SnapWaitStep(cfg, s, k, ctl', g', c');
    } else {
      SnapEndStep(cfg, s, k, ctl', g', c');
    }
  }

  lemma SnapBegin(cfg: Config, ctl: Ctl, clock: int, k: nat, c: Caller, ctl': Ctl, c': Caller)
    requires LogInv(cfg, ctl, clock) && BeginStep(cfg, ctl, clock, k, c, ctl', c') && InMutation(c'.pc)
    ensures SnapInv(cfg, ctl', clock, c') && LogInv(cfg, ctl', clock)
  {}

  /** A call decided without a mutation: not one the epoch counts. */
  lemma RefusalEvent(cfg: Config, s: State, k: nat, ctl': Ctl, g': Gate, c': Caller)
    requires k < |s.callers| && !InMutation(s.callers[k].pc) && CallerStep(cfg, s, k, ctl', g', c')
    requires !InMutation(c'.pc)
    ensures ctl' == s.ctl || (exists e :: ctl' == s.ctl.(log := s.ctl.log + [e]) && e.before == s.ctl.state
                                          && (Succeeded(e) ==> e.call == SetState(s.ctl.state)))
  {
    if s.callers[k].pc.Idle? {
      var call :| EnterWith(cfg, s.ctl, s.gate.algo, s.callers[k], call, ctl', c');
    }
  }

  lemma CallInvOutside(cfg: Config, s: State, k: nat, ctl': Ctl, g': Gate, c': Caller)
    requires k < |s.callers| && !InMutation(s.callers[k].pc) && CallerStep(cfg, s, k, ctl', g', c')
    requires LogInv(cfg, s.ctl, s.clock)
    ensures InMutation(c'.pc) ==> SnapInv(cfg, ctl', s.clock, c')
    ensures LogInv(cfg, ctl', s.clock)
  {
    if InMutation(c'.pc) {
      OutsideStep(cfg, s, k, ctl', g', c');
      SnapBegin(cfg, s.ctl, s.clock, k, s.callers[k], ctl', c');
    } else {
      RefusalEvent(cfg, s, k, ctl', g', c');
      if ctl' != s.ctl {
        var e :| ctl' == s.ctl.(log := s.ctl.log + [e]) && e.before == s.ctl.state
                 && (Succeeded(e) ==> e.call == SetState(s.ctl.state));
        LogInvDecide(cfg, s.ctl, s.clock, e);
      }
    }
  }

  lemma CallInvInside(cfg: Config, s: State, step: Step, s': State)
    requires CallInv(cfg, s) && NextBy(cfg, s, step, s') && CtlInv(cfg, s') && step.ByCaller?
    requires InMutation(s.callers[step.k].pc)
    ensures CallInv(cfg, s')
  {
    OwnerPcAfter(cfg, s, step, s');
    CallInvOwner(cfg, s, step.k, step.ctl', step.g', step.c');
  }

  lemma CallInvEntering(cfg: Config, s: State, step: Step, s': State)
    requires CallInv(cfg, s) && NextBy(cfg, s, step, s') && CtlInv(cfg, s') && step.ByCaller?
    requires !InMutation(s.callers[step.k].pc)
    ensures CallInv(cfg, s')
  {
    CallInvOutside(cfg, s, step.k, step.ctl', step.g', step.c');
    OutsideStep(cfg, s, step.k, step.ctl', step.g', step.c');
  }

  lemma CallInvCaller(cfg: Config, s: State, step: Step, s': State)
    requires CallInv(cfg, s) && NextBy(cfg, s, step, s') && CtlInv(cfg, s') && step.ByCaller?
    ensures CallInv(cfg, s')
  {
    if InMutation(s.callers[step.k].pc) {
      CallInvInside(cfg, s, step, s');
    } else {
      CallInvEntering(cfg, s, step, s');
    }
  }

  /** Every step keeps the accounting. */
  lemma CallInvStep(cfg: Config, s: State, s': State)
    requires CallInv(cfg, s) && Next(cfg, s, s')
    ensures CallInv(cfg, s')
  {
    var step :| NextBy(cfg, s, step, s');
    CtlInvStep(cfg, s, step, s');
    if step.ByCaller? {
      CallInvCaller(cfg, s, step, s');
    }
  }

  lemma {:induction false} CallInvRun(cfg: Config, run: seq<State>, n: nat)
    requires IsRun(cfg, run) && n < |run|
    ensures CallInv(cfg, run[n])
  {
    if n > 0 {
      CallInvRun(cfg, run, n - 1);
      CallInvStep(cfg, run[n - 1], run[n - 1 + 1]);
    }
  }

  // ------------------------------------------------------------------------------ theorems

  /** The epoch counts exactly the decided calls that changed something, the switch counter exactly
      the successful profiles. */
  lemma EpochCountsChanges(cfg: Config, run: seq<State>, n: nat)
    requires IsRun(cfg, run) && n < |run|
    ensures run[n].ctl.epoch == CountChanges(run[n].ctl.log)
    ensures run[n].ctl.switches == CountProfiles(run[n].ctl.log)
  {
    CallInvRun(cfg, run, n);
  }

  /** A call that fails after it took the lock leaves the control state, the epoch, the switch
      counter, the time of the last switch and the stored parameters as it found them. */
  lemma FailedCallRestores(cfg: Config, run: seq<State>, n: nat, k: nat)
    requires IsRun(cfg, run) && n < |run| && k < |run[n].callers|
    requires run[n].callers[k].pc == ClearPark(false)
    ensures AsBefore(run[n].ctl, run[n].callers[k].job.snap)
  {
    CallInvRun(cfg, run, n);
  }

  /** The snapshot in that theorem is the control state at the step that took the lock. */
  lemma SnapshotIsTheStart(cfg: Config, s: State, k: nat, ctl': Ctl, g': Gate, c': Caller)
    requires k < |s.callers| && !InMutation(s.callers[k].pc) && CallerStep(cfg, s, k, ctl', g', c')
    requires InMutation(c'.pc)
    ensures AsBefore(s.ctl, c'.job.snap) && c'.job.snap.time == s.clock
    ensures g' == s.gate
  {
    OutsideStep(cfg, s, k, ctl', g', c');
  }

  /** A call answered without a mutation (disabled, malformed, busy, throttled, or already in the
      requested state) changes nothing but the log. */
  lemma RefusedCallChangesNothing(cfg: Config, s: State, k: nat, ctl': Ctl, g': Gate, c': Caller)
    requires k < |s.callers| && !InMutation(s.callers[k].pc) && CallerStep(cfg, s, k, ctl', g', c')
    requires !InMutation(c'.pc)
    ensures g' == s.gate && ctl' == s.ctl.(log := ctl'.log)
    ensures |ctl'.log| > |s.ctl.log| ==>
              var e := ctl'.log[|ctl'.log| - 1]; Succeeded(e) ==> e.call == SetState(s.ctl.state)
  {
    OutsideStep(cfg, s, k, ctl', g', c');
    RefusalEvent(cfg, s, k, ctl', g', c');
  }

  /** Any two successful profiles complete at least the minimum interval apart. */
  lemma ProfilesAreSpaced(cfg: Config, run: seq<State>, n: nat)
    requires IsRun(cfg, run) && n < |run|
    ensures |run[n].ctl.switchTimes| == run[n].ctl.switches
    ensures Spaced(run[n].ctl.switchTimes, cfg.minInterval)
  {
    CallInvRun(cfg, run, n);
    var times := run[n].ctl.switchTimes;
    forall i, j | 0 <= i < j < |times| ensures cfg.minInterval <= times[j] - times[i] {
      assert times[i] <= times[j - 1];
    }
  }
}
