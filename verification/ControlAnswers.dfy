/** What the answer to a control call says: what a success has brought about, and what a refusal
    was for, over every run. */
module ControlAnswers {
  import opened Wrappers
  import opened Control
  import opened ControlGate
  import opened ControlCalls

  // ------------------------------------------------------------------- the parameters stored

  /** One sticky parameter. */
  datatype Value = Default | Number(i: int) | Text(s: string)

  function NumberOf(v: Option<int>): Value { if v.Some? then Number(v.value) else Default }

  function TextOf(v: Option<string>): Value { if v.Some? then Text(v.value) else Default }

  function ParamOf(st: AlgoParams, name: ParamName): Value {
    match name
    case ParamN => NumberOf(st.n)
    case ParamR => NumberOf(st.r)
    case ParamKey => TextOf(st.key)
    case ParamDataFile => TextOf(st.file)
  }

  /** What one entry stores. */
  function Asked(p: ParamSet): Value
    requires p.name.Some?
  {
    if p.reset then Default
    else
      match p.name.value
      case ParamN => Number(ToInt(p.ival))
      case ParamR => Number(ToInt(p.ival))
      case ParamKey => TextOf(Fitted(p.sval, KEY_SIZE))
      case ParamDataFile => TextOf(Fitted(p.sval, FILE_SIZE))
  }

  lemma StoreOne(st: AlgoParams, p: ParamSet, name: ParamName)
    ensures ParamOf(StoreParam(st, p), name) == if p.name == Some(name) then Asked(p) else ParamOf(st, name)
  {}

  lemma StoreLast(st: AlgoParams, ps: seq<ParamSet>, name: ParamName)
    requires ps != []
    ensures ParamOf(StoreParams(st, ps), name) ==
            if ps[|ps| - 1].name == Some(name) then Asked(ps[|ps| - 1])
            else ParamOf(StoreParams(st, ps[..|ps| - 1]), name)
  {
    StoreOne(StoreParams(st, ps[..|ps| - 1]), ps[|ps| - 1], name);
  }

  /** The last entry of each name decides. */
  lemma {:induction false} LastEntryDecides(st: AlgoParams, ps: seq<ParamSet>, name: ParamName, i: nat)
    requires i < |ps| && ps[i].name == Some(name) && forall j | i < j < |ps| :: ps[j].name != Some(name)
    ensures ParamOf(StoreParams(st, ps), name) == Asked(ps[i])
    decreases |ps|
  {
    StoreLast(st, ps, name);
    if i < |ps| - 1 {
      LastEntryDecides(st, ps[..|ps| - 1], name, i);
    }
  }

  /** What no entry names stays. */
  lemma {:induction false} UnnamedStays(st: AlgoParams, ps: seq<ParamSet>, name: ParamName)
    requires forall i | 0 <= i < |ps| :: ps[i].name != Some(name)
    ensures ParamOf(StoreParams(st, ps), name) == ParamOf(st, name)
    decreases |ps|
  {
    if ps != [] {
      StoreLast(st, ps, name);
      UnnamedStays(st, ps[..|ps| - 1], name);
    }
  }

  /** A valid entry is stored as it was sent, except that an `r` that is no 32-bit integer is stored as
      another number, and text too long for its field loses its end. */
  lemma StoredAsSent(cfg: Config, algo: Algo, p: ParamSet)
    requires ParamValid(cfg, algo, p)
    ensures p.reset ==> Asked(p) == Default
    ensures !p.reset && p.name == Some(ParamN) ==> Asked(p) == Number(p.ival) && 1 <= p.ival <= 4194304
    ensures !p.reset && p.name == Some(ParamR) ==>
              p.ival >= 1 && (Asked(p) == Number(p.ival) <==> p.ival <= 2147483647)
    ensures !p.reset && p.name == Some(ParamKey) ==>
              p.sval.Some? && (Asked(p) == Text(p.sval.value) <==> |p.sval.value| <= 127)
    ensures !p.reset && p.name == Some(ParamDataFile) ==>
              p.sval.Some? && (Asked(p) == Text(p.sval.value) <==> |p.sval.value| <= 511)
  {
    if !p.reset && p.name == Some(ParamKey) && |p.sval.value| > 127 {
      assert |p.sval.value[..127]| != |p.sval.value|;
    }
    if !p.reset && p.name == Some(ParamDataFile) && |p.sval.value| > 511 {
      assert |p.sval.value[..511]| != |p.sval.value|;
    }
  }

  /** So "a stored `r` is positive" is false: 2^32 passes the check and is stored as 0. */
  lemma LargeRIsStoredAsZero(cfg: Config, algo: Algo, p: ParamSet)
    requires cfg.takes(algo, ParamR) && p == ParamSet(Some(ParamR), false, 0x1_0000_0000, None)
    ensures ParamValid(cfg, algo, p) && StoreParams(NO_PARAMS, [p]).r == Some(0)
  {
    assert [p][..0] == [];
  }

  // --------------------------------------------------------------------------- on the way there

  /** A call under way passed the checks; its parameters are for the algorithm it names, if any. */
  predicate JobOk(cfg: Config, c: Caller) {
    !c.pc.Idle? ==>
      && cfg.enabled && WellFormed(cfg, c.job.paramAlgo, c.job.call)
      && (c.job.call.Profile? && c.job.call.newAlgo.Some? ==> c.job.paramAlgo == c.job.call.newAlgo.value)
  }

  /** The table holds what the call asked to store, on top of what it met. */
  ghost predicate Stored(ctl: Ctl, job: Job) {
    && job.call.Profile?
    && forall a :: StoredFor(ctl.stored, a) ==
                   if a == job.paramAlgo then StoreParams(StoredFor(job.snap.stored, a), job.call.params)
                   else StoredFor(job.snap.stored, a)
  }

  /** Algorithm and parameters are as asked. */
  ghost predicate Reached(g: Gate, ctl: Ctl, job: Job) {
    job.call.Profile? ==>
      Stored(ctl, job) && g.algo == if Switches(job.call) then job.paramAlgo else job.prevAlgo
  }

  /** And so are the state and the counters. */
  ghost predicate Answered(ctl: Ctl, job: Job) {
    var call, snap := job.call, job.snap;
    && ctl.epoch == snap.epoch + 1
    && match call
       case SetState(target) =>
         && ctl.state == target && SameTable(ctl.stored, snap.stored)
         && ctl.switches == snap.switches && ctl.lastSwitch == snap.lastSwitch
       case Profile(_, _, _, run) =>
         && (run == Some(true) ==> ctl.state == Running)
         && (run == Some(false) ==> ctl.state == Paused)
         && (run == None ==> ctl.state == snap.state)
         && ctl.switches == snap.switches + 1 && snap.time <= ctl.lastSwitch
  }

  ghost predicate GoalInv(g: Gate, ctl: Ctl, c: Caller) {
    var job := c.job;
    match c.pc
    case BumpFree(a, undo) => !undo ==> a == job.paramAlgo && Switches(job.call) && Stored(ctl, job)
    case WaitFree(a, undo, _, _) => !undo ==> a == job.paramAlgo && Switches(job.call) && Stored(ctl, job)
    case SetAlgo(a, undo) => !undo ==> a == job.paramAlgo && Switches(job.call) && Stored(ctl, job)
    case Registering(a, undo, _) => !undo ==> g.algo == job.paramAlgo && Switches(job.call) && Stored(ctl, job)
    case BumpInit(undo) => !undo ==> g.algo == job.paramAlgo && Switches(job.call) && Stored(ctl, job)
    case WaitInit(undo, _, _) => !undo ==> g.algo == job.paramAlgo && Switches(job.call) && Stored(ctl, job)
    case Finish(ok) => ok ==> Reached(g, ctl, job)
    case Committing => Reached(g, ctl, job)
    case ClearPark(ok) => ok ==> Reached(g, ctl, job) && Answered(ctl, job)
    case _ => true
  }

  lemma GoalSwitch(threads: seq<Thread>, g: Gate, ctl: Ctl, c: Caller, g': Gate, pc': CallerPc)
    requires GoalInv(g, ctl, c) && SwitchStep(threads, g, c.pc, g', pc')
    ensures GoalInv(g', ctl, c.(pc := pc'))
  {}

  lemma GoalParked(cfg: Config, s: State, c: Caller, ctl': Ctl, c': Caller)
    requires c.pc.Parked? && SnapInv(cfg, s.ctl, s.clock, c) && JobOk(cfg, c) && ParkedStep(s.ctl, s.gate, c, ctl', c')
    ensures GoalInv(s.gate, ctl', c')
  {}

  lemma GoalCommit(cfg: Config, ctl: Ctl, clock: int, g: Gate, c: Caller, ctl': Ctl)
    requires c.pc.Committing? && SnapInv(cfg, ctl, clock, c) && GoalInv(g, ctl, c)
    requires CommitStep(ctl, clock, c.job.call, ctl')
    ensures GoalInv(g, ctl', c.(pc := ClearPark(true)))
  {
    var e := CommitEvent(ctl, clock, c.job.call, ctl');
    assert ctl'.stored == ctl.stored && ctl'.state == CommitState(c.job.call, ctl.saved);
  }

  lemma GoalEnd(cfg: Config, s: State, k: nat, c: Caller, ctl': Ctl, g': Gate, pc': CallerPc)
    requires SnapInv(cfg, s.ctl, s.clock, c) && GoalInv(s.gate, s.ctl, c) && EndStep(s, k, c, ctl', g', pc')
    ensures InMutation(pc') ==> GoalInv(g', ctl', c.(pc := pc'))
  {
    if c.pc.Committing? {
      GoalCommit(cfg, s.ctl, s.clock, s.gate, c, ctl');
    }
  }

  lemma GoalCaller(cfg: Config, s: State, k: nat, ctl': Ctl, g': Gate, c': Caller)
    requires k < |s.callers| && InMutation(s.callers[k].pc) && CallerStep(cfg, s, k, ctl', g', c')
    requires SnapInv(cfg, s.ctl, s.clock, s.callers[k]) && JobOk(cfg, s.callers[k])
    requires GoalInv(s.gate, s.ctl, s.callers[k])
    ensures InMutation(c'.pc) ==> GoalInv(g', ctl', c')
  {
    var c := s.callers[k];
    if c.pc.Parked? {
      GoalParked(cfg, s, c, ctl', c');
    } else if InsideSwitch(c.pc) || c.pc.BumpFree? {
      GoalSwitch(s.threads, s.gate, s.ctl, c, g', c'.pc);
    } else if !c.pc.Parking? && !c.pc.ParkScan? {
      GoalEnd(cfg, s, k, c, ctl', g', c'.pc);
    }
  }

  lemma JobStep(cfg: Config, s: State, k: nat, ctl': Ctl, g': Gate, c': Caller)
    requires k < |s.callers| && JobOk(cfg, s.callers[k]) && CallerStep(cfg, s, k, ctl', g', c')
    ensures JobOk(cfg, c')
  {
    if s.callers[k].pc.Idle? {
      var call :| EnterWith(cfg, s.ctl, s.gate.algo, s.callers[k], call, ctl', c');
    }
  }

  ghost predicate AnswerInv(cfg: Config, s: State) {
    && (forall k | 0 <= k < |s.callers| :: JobOk(cfg, s.callers[k]))
    && (forall k | 0 <= k < |s.callers| && s.ctl.owner == Some(k) :: GoalInv(s.gate, s.ctl, s.callers[k]))
  }

  lemma AnswerInvOwner(cfg: Config, s: State, step: Step, s': State)
    requires CallInv(cfg, s) && AnswerInv(cfg, s) && NextBy(cfg, s, step, s') && step.ByCaller?
    requires InMutation(s.callers[step.k].pc) && JobOk(cfg, step.c')
    ensures AnswerInv(cfg, s')
  {
    OwnerPcAfter(cfg, s, step, s');
    GoalCaller(cfg, s, step.k, step.ctl', step.g', step.c');
    OwnerStep(cfg, s, step.k, step.ctl', step.g', step.c');
  }

  lemma AnswerInvEntering(cfg: Config, s: State, step: Step, s': State)
    requires CallInv(cfg, s) && AnswerInv(cfg, s) && NextBy(cfg, s, step, s') && step.ByCaller?
    requires !InMutation(s.callers[step.k].pc) && JobOk(cfg, step.c')
    ensures AnswerInv(cfg, s')
  {
    OutsideStep(cfg, s, step.k, step.ctl', step.g', step.c');
  }

  lemma AnswerInvCaller(cfg: Config, s: State, step: Step, s': State)
    requires CallInv(cfg, s) && AnswerInv(cfg, s) && NextBy(cfg, s, step, s') && step.ByCaller?
    ensures AnswerInv(cfg, s')
  {
    JobStep(cfg, s, step.k, step.ctl', step.g', step.c');
    if InMutation(s.callers[step.k].pc) {
      AnswerInvOwner(cfg, s, step, s');
    } else {
      AnswerInvEntering(cfg, s, step, s');
    }
  }

  lemma AnswerInvStep(cfg: Config, s: State, s': State)
    requires CallInv(cfg, s) && AnswerInv(cfg, s) && Next(cfg, s, s')
    ensures AnswerInv(cfg, s')
  {
    var step :| NextBy(cfg, s, step, s');
    if step.ByCaller? {
      AnswerInvCaller(cfg, s, step, s');
    }
  }

  lemma {:induction false} AnswerInvRun(cfg: Config, run: seq<State>, n: nat)
    requires IsRun(cfg, run) && n < |run|
    ensures AnswerInv(cfg, run[n])
  {
    if n > 0 {
      AnswerInvRun(cfg, run, n - 1);
      CallInvRun(cfg, run, n - 1);
      AnswerInvStep(cfg, run[n - 1], run[n - 1 + 1]);
    }
  }

  // ------------------------------------------------------------------------------ theorems

  /** What a call that succeeded has brought about, when it is about to answer.  A profile that names no
      algorithm but sends parameters leaves in force the algorithm that was so when it was sent. */
  lemma SuccessfulCall(cfg: Config, run: seq<State>, n: nat, k: nat)
    requires IsRun(cfg, run) && n < |run| && k < |run[n].callers| && run[n].callers[k].pc == ClearPark(true)
    ensures var ctl, job := run[n].ctl, run[n].callers[k].job;
            ctl.epoch == job.snap.epoch + 1 &&
            match job.call
            case SetState(target) =>
              && ctl.state == target && SameTable(ctl.stored, job.snap.stored)
              && ctl.switches == job.snap.switches && ctl.lastSwitch == job.snap.lastSwitch
            case Profile(newAlgo, _, params, go) =>
              && (go == Some(true) ==> ctl.state == Running)
              && (go == Some(false) ==> ctl.state == Paused)
              && (go == None ==> ctl.state == job.snap.state)
              && ctl.switches == job.snap.switches + 1 && job.snap.time <= ctl.lastSwitch
              && (newAlgo.Some? ==> job.paramAlgo == newAlgo.value)
              && run[n].gate.algo == (if newAlgo == None && params == [] then job.prevAlgo else job.paramAlgo)
              && Stored(ctl, job)
  {
    AnswerInvRun(cfg, run, n);
    CallInvRun(cfg, run, n);
    assert run[n].ctl.owner == Some(k);
  }

  /** A profile completed less than the minimum interval ago. */
  predicate TooSoon(cfg: Config, times: seq<int>, clock: int) {
    times != [] && clock - times[|times| - 1] < cfg.minInterval
  }

  lemma ThrottleIsTooSoon(cfg: Config, ctl: Ctl, clock: int)
    requires LogInv(cfg, ctl, clock)
    ensures IsThrottled(cfg, ctl, clock) <==> TooSoon(cfg, ctl.switchTimes, clock)
  {}

  /** What each refusal was for. */
  ghost predicate Just(cfg: Config, s: State, e: Event) {
    match e.result
    case Disabled => !cfg.enabled
    case BadRequest => cfg.enabled && !WellFormed(cfg, ParamAlgo(e.call, s.gate.algo), e.call)
    case Busy => exists k :: 0 <= k < |s.callers| && InMutation(s.callers[k].pc)
    case Throttled => e.call.Profile? && TooSoon(cfg, s.ctl.switchTimes, s.clock)
    case Failed => exists k :: 0 <= k < |s.callers| && s.callers[k].pc.RestoreState?
    case Ok => e.call == SetState(s.ctl.state) || exists k :: 0 <= k < |s.callers| && s.callers[k].pc.Committing?
    case Accepted =>
      && (exists k :: 0 <= k < |s.callers| && s.callers[k].pc.Committing?)
      && e.call.Profile? && exists i :: 0 <= i < |e.call.params| && e.call.params[i].name == Some(ParamDataFile)
  }

  lemma RefusedJustly(cfg: Config, s: State, k: nat, ctl': Ctl, g': Gate, c': Caller, e: Event)
    requires CallInv(cfg, s) && k < |s.callers| && !InMutation(s.callers[k].pc)
    requires CallerStep(cfg, s, k, ctl', g', c') && ctl'.log == s.ctl.log + [e]
    ensures Just(cfg, s, e)
  {
    var c := s.callers[k];
    ThrottleIsTooSoon(cfg, s.ctl, s.clock);
    if s.ctl.state.Switching? {
      assert InMutation(s.callers[s.ctl.owner.value].pc);
    }
    if c.pc.Idle? {
      var call :| EnterWith(cfg, s.ctl, s.gate.algo, c, call, ctl', c');
      assert e == ctl'.log[|s.ctl.log|];
    } else {
      assert e == ctl'.log[|s.ctl.log|];
    }
  }

  lemma DecidedJustly(cfg: Config, s: State, k: nat, ctl': Ctl, g': Gate, c': Caller, e: Event)
    requires k < |s.callers| && InMutation(s.callers[k].pc)
    requires CallerStep(cfg, s, k, ctl', g', c') && ctl'.log == s.ctl.log + [e]
    ensures Just(cfg, s, e)
  {
    var c := s.callers[k];
    if c.pc.Committing? {
      var f := CommitEvent(s.ctl, s.clock, c.job.call, ctl');
      assert e == ctl'.log[|s.ctl.log|] == f;
      AcceptedIsSlow(s.ctl, s.clock, c.job.call, ctl', e);
    } else {
      assert c.pc.RestoreState?;
      assert e == ctl'.log[|s.ctl.log|];
    }
  }

  lemma AcceptedIsSlow(ctl: Ctl, clock: int, call: Call, ctl': Ctl, e: Event)
    requires CommitStep(ctl, clock, call, ctl') && ctl'.log == ctl.log + [e]
    ensures e.call == call && (e.result == Ok || (e.result == Accepted && HasSlowParam(call)))
  {
    assert e == ctl'.log[|ctl.log|];
  }

  /** Over every run: a call is refused only for the reason its answer gives. */
  lemma RefusalsAreJust(cfg: Config, run: seq<State>, n: nat, e: Event)
    requires IsRun(cfg, run) && n + 1 < |run| && run[n + 1].ctl.log == run[n].ctl.log + [e]
    ensures Just(cfg, run[n], e)
  {
    CallInvRun(cfg, run, n);
    var step :| NextBy(cfg, run[n], step, run[n + 1]);
    if step.ByCaller? && InMutation(run[n].callers[step.k].pc) {
      DecidedJustly(cfg, run[n], step.k, step.ctl', step.g', step.c', e);
    } else if step.ByCaller? {
      RefusedJustly(cfg, run[n], step.k, step.ctl', step.g', step.c', e);
    }
  }

  /** And a call is let in only if none of those reasons is there. */
  lemma LetInRightly(cfg: Config, run: seq<State>, n: nat, k: nat)
    requires IsRun(cfg, run) && n + 1 < |run| && k < |run[n].callers| && k < |run[n + 1].callers|
    requires !InMutation(run[n].callers[k].pc) && InMutation(run[n + 1].callers[k].pc)
    ensures var s, job := run[n], run[n].callers[k].job;
            && cfg.enabled && WellFormed(cfg, job.paramAlgo, job.call)
            && (forall j | 0 <= j < |s.callers| :: !InMutation(s.callers[j].pc))
            && job.call != SetState(s.ctl.state)
            && (job.call.Profile? ==> !TooSoon(cfg, s.ctl.switchTimes, s.clock))
  {
    CallInvRun(cfg, run, n);
    AnswerInvRun(cfg, run, n);
    var step :| NextBy(cfg, run[n], step, run[n + 1]);
    assert step.ByCaller? && step.k == k;
    OutsideStep(cfg, run[n], k, step.ctl', step.g', step.c');
    ThrottleIsTooSoon(cfg, run[n].ctl, run[n].clock);
  }

  /** The parameters of a call that names no algorithm are for the one in force when it is sent. */
  lemma SentForTheCurrent(cfg: Config, s: State, k: nat, ctl': Ctl, g': Gate, c': Caller)
    requires k < |s.callers| && s.callers[k].pc.Idle? && CallerStep(cfg, s, k, ctl', g', c') && c'.pc.Entered?
    requires c'.job.call.Profile? && c'.job.call.newAlgo.None?
    ensures c'.job.paramAlgo == s.gate.algo
  {
    var call :| EnterWith(cfg, s.ctl, s.gate.algo, s.callers[k], call, ctl', c');
  }

  // ------------------------------------------------------------------- what may ever be stored

  /** Parameters the algorithm takes, in their ranges and within their fields. */
  predicate ParamsFit(cfg: Config, algo: Algo, st: AlgoParams) {
    && (st.n.Some? ==> cfg.takes(algo, ParamN) && 1 <= st.n.value <= 4194304)
    && (st.r.Some? ==> cfg.takes(algo, ParamR) && -2147483648 <= st.r.value <= 2147483647)
    && (st.key.Some? ==> cfg.takes(algo, ParamKey) && |st.key.value| <= 127)
    && (st.file.Some? ==> cfg.takes(algo, ParamDataFile) && |st.file.value| <= 511)
  }

  ghost predicate TableFits(cfg: Config, stored: map<Algo, AlgoParams>) {
    forall a :: ParamsFit(cfg, a, StoredFor(stored, a))
  }

  lemma {:induction false} StoreFits(cfg: Config, algo: Algo, st: AlgoParams, ps: seq<ParamSet>)
    requires ParamsFit(cfg, algo, st) && forall i | 0 <= i < |ps| :: ParamValid(cfg, algo, ps[i])
    ensures ParamsFit(cfg, algo, StoreParams(st, ps))
    decreases |ps|
  {
    if ps != [] {
      StoreFits(cfg, algo, st, ps[..|ps| - 1]);
      StoreOneFits(cfg, algo, StoreParams(st, ps[..|ps| - 1]), ps[|ps| - 1]);
    }
  }

  lemma StoreOneFits(cfg: Config, algo: Algo, st: AlgoParams, p: ParamSet)
    requires ParamsFit(cfg, algo, st) && ParamValid(cfg, algo, p)
    ensures ParamsFit(cfg, algo, StoreParam(st, p))
  {}

  lemma UpdatedTableFits(cfg: Config, stored: map<Algo, AlgoParams>, algo: Algo, st: AlgoParams)
    requires TableFits(cfg, stored) && ParamsFit(cfg, algo, st)
    ensures TableFits(cfg, stored[algo := st])
  {
    var updated := stored[algo := st];
    forall a ensures ParamsFit(cfg, a, StoredFor(updated, a)) {
      assert ParamsFit(cfg, a, StoredFor(stored, a));
    }
  }

  ghost predicate FitInv(cfg: Config, s: State) {
    && TableFits(cfg, s.ctl.stored)
    && forall k | 0 <= k < |s.callers| && s.ctl.owner == Some(k) :: TableFits(cfg, s.callers[k].job.snap.stored)
  }

  lemma FitOwner(cfg: Config, s: State, k: nat, ctl': Ctl, g': Gate, c': Caller)
    requires k < |s.callers| && InMutation(s.callers[k].pc) && CallerStep(cfg, s, k, ctl', g', c')
    requires SnapInv(cfg, s.ctl, s.clock, s.callers[k]) && JobOk(cfg, s.callers[k])
    requires TableFits(cfg, s.ctl.stored) && TableFits(cfg, s.callers[k].job.snap.stored)
    ensures TableFits(cfg, ctl'.stored) && c'.job.snap == s.callers[k].job.snap
  {
    var c := s.callers[k];
    var algo := c.job.paramAlgo;
    if c.pc.Parked? && c.job.call.Profile? {
      StoreFits(cfg, algo, StoredFor(s.ctl.stored, algo), c.job.call.params);
      UpdatedTableFits(cfg, s.ctl.stored, algo, StoreParams(StoredFor(s.ctl.stored, algo), c.job.call.params));
    } else if c.pc.Undoing? && c.job.call.Profile? {
      assert c.job.prevParams == StoredFor(c.job.snap.stored, algo);
      UpdatedTableFits(cfg, s.ctl.stored, algo, c.job.prevParams);
    } else {
      TableStays(cfg, s, k, ctl', g', c');
    }
  }

  lemma TableStays(cfg: Config, s: State, k: nat, ctl': Ctl, g': Gate, c': Caller)
    requires k < |s.callers| && InMutation(s.callers[k].pc) && CallerStep(cfg, s, k, ctl', g', c')
    requires var c := s.callers[k]; (c.pc.Parked? || c.pc.Undoing?) ==> c.job.call.SetState?
    ensures ctl'.stored == s.ctl.stored && c'.job.snap == s.callers[k].job.snap
  {
    if s.callers[k].pc.Committing? {
      var e := CommitEvent(s.ctl, s.clock, s.callers[k].job.call, ctl');
    }
  }

  lemma FitInvCaller(cfg: Config, s: State, step: Step, s': State)
    requires CallInv(cfg, s) && AnswerInv(cfg, s) && FitInv(cfg, s) && NextBy(cfg, s, step, s') && step.ByCaller?
    ensures FitInv(cfg, s')
  {
    var k := step.k;
    if InMutation(s.callers[k].pc) {
      OwnerPcAfter(cfg, s, step, s');
      FitOwner(cfg, s, k, step.ctl', step.g', step.c');
    } else {
      OutsideStep(cfg, s, k, step.ctl', step.g', step.c');
    }
  }

  lemma FitInvStep(cfg: Config, s: State, s': State)
    requires CallInv(cfg, s) && AnswerInv(cfg, s) && FitInv(cfg, s) && Next(cfg, s, s')
    ensures FitInv(cfg, s')
  {
    var step :| NextBy(cfg, s, step, s');
    if step.ByCaller? {
      FitInvCaller(cfg, s, step, s');
    }
  }

  lemma {:induction false} FitInvRun(cfg: Config, run: seq<State>, n: nat)
    requires IsRun(cfg, run) && n < |run|
    ensures FitInv(cfg, run[n])
  {
    if n > 0 {
      FitInvRun(cfg, run, n - 1);
      CallInvRun(cfg, run, n - 1);
      AnswerInvRun(cfg, run, n - 1);
      FitInvStep(cfg, run[n - 1], run[n - 1 + 1]);
    }
  }

  /** Over every run: whatever is stored for an algorithm is a parameter it takes, in range and within
      its field. */
  lemma StoredParametersFit(cfg: Config, run: seq<State>, n: nat, algo: Algo)
    requires IsRun(cfg, run) && n < |run| && algo in run[n].ctl.stored
    ensures ParamsFit(cfg, algo, run[n].ctl.stored[algo])
  {
    FitInvRun(cfg, run, n);
    assert ParamsFit(cfg, algo, StoredFor(run[n].ctl.stored, algo));
  }
}
