/** Parking: what keeps the threads of a paused miner out of scanhash, and exactly when a pause that
    was answered with success has not stopped a thread. */
module ControlPark {
  import opened Wrappers
  import opened Control
  import opened ControlGate

  predicate Halted(state: CtlState) { state.Paused? || state.Stopped? }

  /** The thread has read the control words and goes on to hash without reading a word that would
      stop it. */
  predicate Cleared(state: CtlState, pc: ThreadPc) {
    match pc
    case PreScan | Scanning => true
    case SetParked(park) => !park
    case ReadStopped => !state.Stopped?
    case _ => false
  }

  // ------------------------------------------------------------- while the state stays halted

  ghost predicate SameState(run: seq<State>, m: nat, n: nat) {
    m <= n < |run| && forall j | m <= j <= n :: run[j].ctl.state == run[m].ctl.state
  }

  lemma HaltedThread(cfg: Config, state: CtlState, g: Gate, t: Thread, t': Thread)
    requires cfg.enabled && Halted(state) && !Cleared(state, t.pc) && ThreadStep(cfg, state, g, t, t')
    ensures !Cleared(state, t'.pc)
  {}

  lemma HaltedStep(cfg: Config, s: State, s': State, i: nat)
    requires cfg.enabled && Next(cfg, s, s') && Halted(s.ctl.state) && i < |s.threads|
    requires !Cleared(s.ctl.state, s.threads[i].pc)
    ensures |s'.threads| == |s.threads| && !Cleared(s.ctl.state, s'.threads[i].pc)
  {
    var step :| NextBy(cfg, s, step, s');
    if step.ByThread? && step.i == i {
      HaltedThread(cfg, s.ctl.state, s.gate, s.threads[i], step.t');
    }
  }

  /** A finite sequence of states, each a step from the one before. */
  ghost predicate Steps(cfg: Config, run: seq<State>) {
    0 < |run| && forall i | 0 <= i < |run| - 1 :: Next(cfg, run[i], run[i + 1])
  }

  lemma StepAt(cfg: Config, run: seq<State>, n: nat)
    requires Steps(cfg, run) && 0 < n < |run|
    ensures Next(cfg, run[n - 1], run[n])
  {
    assert Next(cfg, run[n - 1], run[n - 1 + 1]);
  }

  /** One step never clears a thread of a halted miner. */
  predicate StaysOut(s: State, s': State, i: nat) {
    i < |s.threads| && Halted(s.ctl.state) && !Cleared(s.ctl.state, s.threads[i].pc) ==>
      i < |s'.threads| && !Cleared(s.ctl.state, s'.threads[i].pc)
  }

  lemma StaysOutAt(cfg: Config, run: seq<State>, n: nat, i: nat)
    requires cfg.enabled && Steps(cfg, run) && 0 < n < |run|
    ensures StaysOut(run[n - 1], run[n], i)
  {
    StepAt(cfg, run, n);
    var s := run[n - 1];
    if i < |s.threads| && Halted(s.ctl.state) && !Cleared(s.ctl.state, s.threads[i].pc) {
      HaltedStep(cfg, s, run[n], i);
    }
  }

  lemma {:induction false} StaysOutFrom(run: seq<State>, m: nat, n: nat, i: nat)
    requires SameState(run, m, n) && Halted(run[m].ctl.state)
    requires forall j | m < j <= n :: StaysOut(run[j - 1], run[j], i)
    requires i < |run[m].threads| && !Cleared(run[m].ctl.state, run[m].threads[i].pc)
    ensures i < |run[n].threads| && !Cleared(run[m].ctl.state, run[n].threads[i].pc)
    decreases n
  {
    if m < n {
      StaysOutFrom(run, m, n - 1, i);
      assert StaysOut(run[n - 1], run[n], i);
    }
  }

  /** While the miner is paused, or stopped, a thread that has not already read its way past the
      control words is not found in scanhash, nor about to enter it, until the state changes. */
  lemma HaltedMinerDoesNotHash(cfg: Config, run: seq<State>, m: nat, n: nat, i: nat)
    requires cfg.enabled && Steps(cfg, run) && SameState(run, m, n) && Halted(run[m].ctl.state)
    requires i < |run[m].threads| && !Cleared(run[m].ctl.state, run[m].threads[i].pc)
    ensures i < |run[n].threads| && !Cleared(run[m].ctl.state, run[n].threads[i].pc)
    ensures !run[n].threads[i].pc.PreScan? && !run[n].threads[i].pc.Scanning?
  {
    forall j | m < j <= n ensures StaysOut(run[j - 1], run[j], i) {
      StaysOutAt(cfg, run, j, i);
    }
    StaysOutFrom(run, m, n, i);
  }

  /** A way from s, without the state changing, to thread i being in scanhash. */
  ghost predicate HashesOn(cfg: Config, s: State, run: seq<State>, i: nat) {
    && Steps(cfg, run) && run[0] == s && SameState(run, 0, |run| - 1)
    && i < |run[|run| - 1].threads| && run[|run| - 1].threads[i].pc.Scanning?
  }

  /** That is exact: the others may go on to hash although the state never changes. */
  lemma HaltedMinerHashesIff(cfg: Config, s: State, i: nat)
    requires cfg.enabled && Halted(s.ctl.state) && i < |s.threads|
    ensures Cleared(s.ctl.state, s.threads[i].pc) <==> exists run :: HashesOn(cfg, s, run, i)
  {
    if Cleared(s.ctl.state, s.threads[i].pc) {
      var run := WayToScan(cfg, s, i);
    } else if run :| HashesOn(cfg, s, run, i) {
      HaltedMinerDoesNotHash(cfg, run, 0, |run| - 1, i);
      assert false;
    }
  }

  /** What a cleared thread does next. */
  function GoesOnTo(pc: ThreadPc): ThreadPc {
    match pc
    case ReadStopped => SetParked(false)
    case SetParked(_) => PreScan
    case _ => Scanning
  }

  function StepsToScan(pc: ThreadPc): nat {
    match pc
    case ReadStopped => 3
    case SetParked(_) => 2
    case PreScan => 1
    case _ => 0
  }

  lemma {:induction false} WayToScan(cfg: Config, s: State, i: nat) returns (run: seq<State>)
    requires i < |s.threads| && Halted(s.ctl.state) && Cleared(s.ctl.state, s.threads[i].pc)
    ensures HashesOn(cfg, s, run, i)
    decreases StepsToScan(s.threads[i].pc)
  {
    var t := s.threads[i];
    if t.pc.Scanning? {
      return [s];
    }
    var t' := t.(pc := GoesOnTo(t.pc), parked := t.parked && !t.pc.SetParked?);
    var s' := s.(threads := s.threads[i := t']);
    assert NextBy(cfg, s, ByThread(i, t'), s');
    var rest := WayToScan(cfg, s', i);
    run := [s] + rest;
    forall j | 0 <= j < |run| - 1 ensures Next(cfg, run[j], run[j + 1]) {
      if j > 0 {
        assert Next(cfg, rest[j - 1], rest[j - 1 + 1]);
      }
    }
    forall j | 0 <= j < |run| ensures run[j].ctl.state == s.ctl.state {
      assert j > 0 ==> run[j] == rest[j - 1];
    }
  }

  // ------------------------------------------------------------ while the miner is let run

  /** Serving the two phases of a switch, or about to. */
  predicate Held(pc: ThreadPc) {
    match pc
    case SetParked(park) => park
    case FreeCheck | Freeing | FreeAckRead | FreeAckWrite(_) => true
    case InitCheck | InitAckRead | InitAckWrite(_) | InitCall | Initing(_) => true
    case _ => false
  }

  lemma LetRunThread(cfg: Config, g: Gate, t: Thread, t': Thread)
    requires !g.park && !Held(t.pc) && ThreadStep(cfg, Running, g, t, t')
    ensures !Held(t'.pc)
  {}

  lemma LetRunStep(cfg: Config, s: State, s': State, i: nat)
    requires Next(cfg, s, s') && s.ctl.state.Running? && !s.gate.park && i < |s.threads| && !Held(s.threads[i].pc)
    ensures |s'.threads| == |s.threads| && !Held(s'.threads[i].pc)
  {
    var step :| NextBy(cfg, s, step, s');
    if step.ByThread? && step.i == i {
      LetRunThread(cfg, s.gate, s.threads[i], step.t');
    }
  }

  predicate StaysFree(s: State, s': State, i: nat) {
    s.ctl.state.Running? && !s.gate.park && i < |s.threads| && !Held(s.threads[i].pc) ==>
      i < |s'.threads| && !Held(s'.threads[i].pc)
  }

  lemma StaysFreeAt(cfg: Config, run: seq<State>, n: nat, i: nat)
    requires Steps(cfg, run) && 0 < n < |run|
    ensures StaysFree(run[n - 1], run[n], i)
  {
    StepAt(cfg, run, n);
    var s := run[n - 1];
    if s.ctl.state.Running? && !s.gate.park && i < |s.threads| && !Held(s.threads[i].pc) {
      LetRunStep(cfg, s, run[n], i);
    }
  }

  lemma {:induction false} StaysFreeFrom(run: seq<State>, m: nat, n: nat, i: nat)
    requires m <= n < |run| && forall j | m <= j <= n :: run[j].ctl.state.Running? && !run[j].gate.park
    requires forall j | m < j <= n :: StaysFree(run[j - 1], run[j], i)
    requires i < |run[m].threads| && !Held(run[m].threads[i].pc)
    ensures i < |run[n].threads| && !Held(run[n].threads[i].pc)
    decreases n
  {
    if m < n {
      StaysFreeFrom(run, m, n - 1, i);
      assert StaysFree(run[n - 1], run[n], i);
    }
  }

  /** While the state is Running and no park request is up, no thread is held that was not. */
  lemma RunningMinerIsNotHeld(cfg: Config, run: seq<State>, m: nat, n: nat, i: nat)
    requires Steps(cfg, run) && m <= n < |run|
    requires forall j | m <= j <= n :: run[j].ctl.state.Running? && !run[j].gate.park
    requires i < |run[m].threads| && !Held(run[m].threads[i].pc)
    ensures i < |run[n].threads| && !Held(run[n].threads[i].pc)
  {
    forall j | m < j <= n ensures StaysFree(run[j - 1], run[j], i) {
      StaysFreeAt(cfg, run, j, i);
    }
    StaysFreeFrom(run, m, n, i);
  }

  // -------------------------------------------------------------------- what the flag says

  /** A thread inside scanhash, or not yet in its loop, has its flag down; one in service has it up. */
  predicate FlagOk(t: Thread) {
    && (t.pc.PreScan? || t.pc.Scanning? || t.pc.Starting? || t.pc.StartInit? ==> !t.parked)
    && (Held(t.pc) && !t.pc.SetParked? ==> t.parked)
  }

  lemma FlagThread(cfg: Config, state: CtlState, g: Gate, t: Thread, t': Thread)
    requires cfg.enabled && FlagOk(t) && ThreadStep(cfg, state, g, t, t')
    ensures FlagOk(t')
  {}

  lemma FlagStep(cfg: Config, s: State, s': State, i: nat)
    requires cfg.enabled && Next(cfg, s, s') && i < |s.threads| && FlagOk(s.threads[i])
    ensures |s'.threads| == |s.threads| && FlagOk(s'.threads[i])
  {
    var step :| NextBy(cfg, s, step, s');
    if step.ByThread? && step.i == i {
      FlagThread(cfg, s.ctl.state, s.gate, s.threads[i], step.t');
    }
  }

  lemma ThreadsStay(cfg: Config, s: State, s': State)
    requires Next(cfg, s, s')
    ensures |s'.threads| == |s.threads|
  {
    var step :| NextBy(cfg, s, step, s');
  }

  predicate FlagKept(s: State, s': State, i: nat) {
    |s'.threads| == |s.threads| && (i < |s.threads| && FlagOk(s.threads[i]) ==> FlagOk(s'.threads[i]))
  }

  lemma FlagKeptAt(cfg: Config, run: seq<State>, n: nat, i: nat)
    requires cfg.enabled && Steps(cfg, run) && 0 < n < |run|
    ensures FlagKept(run[n - 1], run[n], i)
  {
    StepAt(cfg, run, n);
    ThreadsStay(cfg, run[n - 1], run[n]);
    if i < |run[n - 1].threads| && FlagOk(run[n - 1].threads[i]) {
      FlagStep(cfg, run[n - 1], run[n], i);
    }
  }

  lemma {:induction false} FlagKeptFrom(run: seq<State>, n: nat, i: nat)
    requires n < |run| && forall j | 0 < j <= n :: FlagKept(run[j - 1], run[j], i)
    requires i < |run[0].threads| && FlagOk(run[0].threads[i])
    ensures |run[n].threads| == |run[0].threads| && FlagOk(run[n].threads[i])
  {
    if n > 0 {
      FlagKeptFrom(run, n - 1, i);
      assert FlagKept(run[n - 1], run[n], i);
    }
  }

  lemma {:induction false} ThreadCount(run: seq<State>, n: nat, i: nat)
    requires n < |run| && forall j | 0 < j <= n :: FlagKept(run[j - 1], run[j], i)
    ensures |run[n].threads| == |run[0].threads|
  {
    if n > 0 {
      ThreadCount(run, n - 1, i);
      assert FlagKept(run[n - 1], run[n], i);
    }
  }

  lemma FlagTellsWhereItWas(cfg: Config, run: seq<State>, n: nat, i: nat)
    requires cfg.enabled && IsRun(cfg, run) && n < |run| && i < |run[n].threads|
    ensures FlagOk(run[n].threads[i])
  {
    forall j | 0 < j <= n ensures FlagKept(run[j - 1], run[j], i) {
      FlagKeptAt(cfg, run, j, i);
    }
    ThreadCount(run, n, i);
    FlagKeptFrom(run, n, i);
  }

  // --------------------------------------------------------- when a successful pause has paused

  /** The flag is still up from an earlier pause, and the thread is on its way out of it. */
  predicate Stale(t: Thread) { t.parked && !Quiet(t.pc) }

  predicate Settled(t: Thread) { t.parked && Quiet(t.pc) }

  /** park_all has succeeded, and the call has not failed since. */
  predicate Passed(pc: CallerPc) {
    match pc
    case Parked(ok) => ok
    case Finish(ok) => ok
    case ClearPark(ok) => ok
    case Committing => true
    case BumpFree(_, undo) => !undo
    case WaitFree(_, undo, _, _) => !undo
    case SetAlgo(_, undo) => !undo
    case Registering(_, undo, _) => !undo
    case Restoring(undo) => !undo
    case BumpInit(undo) => !undo
    case WaitInit(undo, _, _) => !undo
    case _ => false
  }

  /** A thread that was counted is settled. */
  predicate CountInv(pc: CallerPc, threads: seq<Thread>, i: nat)
    requires i < |threads|
  {
    match pc
    case ParkScan(j, count) => count <= j <= |threads| && (i < j && count == j ==> Settled(threads[i]))
    case _ => Passed(pc) ==> Settled(threads[i])
  }

  lemma RequestedThread(cfg: Config, state: CtlState, g: Gate, t: Thread, t': Thread)
    requires cfg.enabled && g.park && ThreadStep(cfg, state, g, t, t')
    ensures !Stale(t) ==> !Stale(t')
    ensures Settled(t) ==> Settled(t')
  {}

  /** Caller k is inside the mutation in which it has raised the park request. */
  ghost predicate PauseInv(cfg: Config, s: State, k: nat, i: nat) {
    && cfg.enabled && SafeInv(cfg, s) && k < |s.callers| && i < |s.threads|
    && InMutation(s.callers[k].pc) && !s.callers[k].pc.Parking?
    && s.gate.park && !Stale(s.threads[i]) && CountInv(s.callers[k].pc, s.threads, i)
  }

  lemma CountThread(cfg: Config, s: State, step: Step, s': State, k: nat, i: nat)
    requires PauseInv(cfg, s, k, i) && NextBy(cfg, s, step, s') && step.ByThread?
    ensures !Stale(s'.threads[i]) && CountInv(s'.callers[k].pc, s'.threads, i)
  {
    if step.i == i {
      RequestedThread(cfg, s.ctl.state, s.gate, s.threads[i], step.t');
    }
  }

  lemma CountScan(threads: seq<Thread>, g: Gate, pc: CallerPc, g': Gate, pc': CallerPc, i: nat)
    requires i < |threads| && !Stale(threads[i]) && CountInv(pc, threads, i) && pc.ParkScan?
    requires ParkStep(threads, g, pc, g', pc')
    ensures CountInv(pc', threads, i)
  {}

  lemma CountSwitch(threads: seq<Thread>, g: Gate, pc: CallerPc, g': Gate, pc': CallerPc, i: nat)
    requires i < |threads| && CountInv(pc, threads, i) && SwitchStep(threads, g, pc, g', pc')
    ensures CountInv(pc', threads, i) && g'.park == g.park && !pc'.Parking?
  {}

  lemma CountOwner(cfg: Config, s: State, k: nat, ctl': Ctl, g': Gate, c': Caller, i: nat)
    requires k < |s.callers| && i < |s.threads| && CallerStep(cfg, s, k, ctl', g', c') && s.gate.park
    requires InMutation(s.callers[k].pc) && InMutation(c'.pc) && !s.callers[k].pc.Parking?
    requires !Stale(s.threads[i]) && CountInv(s.callers[k].pc, s.threads, i)
    ensures CountInv(c'.pc, s.threads, i) && g'.park && !c'.pc.Parking?
  {
    var pc := s.callers[k].pc;
    if pc.ParkScan? {
      CountScan(s.threads, s.gate, pc, g', c'.pc, i);
    } else if InsideSwitch(pc) || pc.BumpFree? {
      CountSwitch(s.threads, s.gate, pc, g', c'.pc, i);
    }
  }

  lemma PauseInvStep(cfg: Config, s: State, s': State, k: nat, i: nat)
    requires PauseInv(cfg, s, k, i) && Next(cfg, s, s')
    requires k < |s'.callers| && InMutation(s'.callers[k].pc)
    ensures PauseInv(cfg, s', k, i)
  {
    SafeInvStep(cfg, s, s');
    var step :| NextBy(cfg, s, step, s');
    PauseKept(cfg, s, step, s', k, i);
  }

  lemma PauseKept(cfg: Config, s: State, step: Step, s': State, k: nat, i: nat)
    requires PauseInv(cfg, s, k, i) && NextBy(cfg, s, step, s')
    requires k < |s'.callers| && InMutation(s'.callers[k].pc)
    ensures !s'.callers[k].pc.Parking? && i < |s'.threads|
    ensures s'.gate.park && !Stale(s'.threads[i]) && CountInv(s'.callers[k].pc, s'.threads, i)
  {
    match step
    case ByThread(_, _) => CountThread(cfg, s, step, s', k, i);
    case ByCaller(j, ctl', g', c') =>
      if j == k {
        CountOwner(cfg, s, k, ctl', g', c', i);
      } else {
        assert s.ctl.owner == Some(k);
        OutsideStep(cfg, s, j, ctl', g', c');
      }
    case Tick(_) =>
  }

  /** From m to n caller k is inside one mutation. */
  ghost predicate Within(run: seq<State>, m: nat, n: nat, k: nat) {
    m <= n < |run| && forall j | m <= j <= n :: k < |run[j].callers| && InMutation(run[j].callers[k].pc)
  }

  lemma PauseInvStepAt(cfg: Config, run: seq<State>, n: nat, k: nat, i: nat)
    requires Steps(cfg, run) && 0 < n < |run| && PauseInv(cfg, run[n - 1], k, i)
    requires k < |run[n].callers| && InMutation(run[n].callers[k].pc)
    ensures PauseInv(cfg, run[n], k, i)
  {
    StepAt(cfg, run, n);
    PauseInvStep(cfg, run[n - 1], run[n], k, i);
  }

  lemma {:induction false} PauseInvRun(cfg: Config, run: seq<State>, m: nat, n: nat, k: nat, i: nat)
    requires IsRun(cfg, run) && Within(run, m, n, k) && PauseInv(cfg, run[m], k, i)
    ensures PauseInv(cfg, run[n], k, i)
    decreases n
  {
    if m < n {
      PauseInvRun(cfg, run, m, n - 1, k, i);
      PauseInvStepAt(cfg, run, n, k, i);
    }
  }

  lemma QuietIsNotCleared(state: CtlState, pc: ThreadPc)
    requires Quiet(pc)
    ensures !Cleared(state, pc)
  {}

  /** The call that has just raised the request at m succeeds at n, and thread i is in scanhash at the
      end of the run although the state has not changed since. */
  ghost predicate PauseFails(cfg: Config, run: seq<State>, m: nat, n: nat, k: nat, i: nat) {
    && IsRun(cfg, run) && Within(run, m, n, k) && run[n].callers[k].pc == ClearPark(true)
    && Halted(run[n].ctl.state) && SameState(run, n, |run| - 1)
    && i < |run[|run| - 1].threads| && run[|run| - 1].threads[i].pc.Scanning?
  }

  /** A pause, stop, or profile that leaves the miner paused, answered with success, has stopped every
      thread whose flag was not stale when the request went up: the thread is in scanhash neither then
      nor at any time before the state changes. */
  lemma PauseStopsHashing(cfg: Config, run: seq<State>, m: nat, n: nat, l: nat, k: nat, i: nat)
    requires cfg.enabled && IsRun(cfg, run) && Within(run, m, n, k)
    requires run[m].callers[k].pc == ParkScan(0, 0) && run[n].callers[k].pc == ClearPark(true)
    requires i < |run[m].threads| && !Stale(run[m].threads[i])
    requires Halted(run[n].ctl.state) && SameState(run, n, l)
    ensures i < |run[l].threads| && !run[l].threads[i].pc.PreScan? && !run[l].threads[i].pc.Scanning?
  {
    SafeInvRun(cfg, run, m);
    assert run[m].ctl.owner == Some(k);
    PauseInvRun(cfg, run, m, n, k, i);
    QuietIsNotCleared(run[n].ctl.state, run[n].threads[i].pc);
    HaltedMinerDoesNotHash(cfg, run, n, l, i);
  }

  // -------------------------------------------------------------- and when it has not: exactly

  lemma Grow(cfg: Config, run: seq<State>, step: Step, s': State) returns (run': seq<State>)
    requires IsRun(cfg, run) && NextBy(cfg, run[|run| - 1], step, s')
    ensures IsRun(cfg, run') && run' == run + [s']
  {
    run' := run + [s'];
    forall j | 0 <= j < |run'| - 1 ensures Next(cfg, run'[j], run'[j + 1]) {
      if j < |run| - 1 {
        assert Next(cfg, run[j], run[j + 1]);
      }
    }
  }

  /** Caller k at pc, and nothing else changed. */
  function AtPc(s: State, k: nat, pc: CallerPc): State
    requires k < |s.callers|
  {
    s.(callers := s.callers[k := s.callers[k].(pc := pc)])
  }

  /** One step of caller k in a mutation. */
  lemma GrowCaller(cfg: Config, run: seq<State>, m: nat, k: nat, ctl': Ctl, pc': CallerPc) returns (run': seq<State>)
    requires IsRun(cfg, run) && Within(run, m, |run| - 1, k) && InMutation(pc')
    requires var s := run[|run| - 1]; CallerStep(cfg, s, k, ctl', s.gate, s.callers[k].(pc := pc'))
    ensures IsRun(cfg, run') && Within(run', m, |run'| - 1, k) && run <= run'
    ensures run'[|run'| - 1] == AtPc(run[|run| - 1], k, pc').(ctl := ctl')
  {
    var s := run[|run| - 1];
    var s' := AtPc(s, k, pc').(ctl := ctl');
    run' := Grow(cfg, run, ByCaller(k, ctl', s.gate, s.callers[k].(pc := pc')), s');
  }

  ghost predicate AllParked(s: State) { forall j | 0 <= j < |s.threads| :: s.threads[j].parked }

  /** With every flag up the count succeeds at once. */
  lemma {:induction false} CountAll(cfg: Config, run: seq<State>, m: nat, k: nat, j: nat) returns (run': seq<State>)
    requires IsRun(cfg, run) && Within(run, m, |run| - 1, k) && AllParked(run[|run| - 1])
    requires j <= |run[|run| - 1].threads| && run[|run| - 1].callers[k].pc == ParkScan(j, j)
    ensures IsRun(cfg, run') && Within(run', m, |run'| - 1, k) && run <= run'
    ensures run'[|run'| - 1] == AtPc(run[|run| - 1], k, Parked(true))
    decreases |run[|run| - 1].threads| - j
  {
    var s := run[|run| - 1];
    if j < |s.threads| {
      var run1 := GrowCaller(cfg, run, m, k, s.ctl, ParkScan(j + 1, j + 1));
      run' := CountAll(cfg, run1, m, k, j + 1);
    } else {
      run' := GrowCaller(cfg, run, m, k, s.ctl, Parked(true));
    }
  }

  /** A stale thread reads its way past the control words while the state is Switching. */
  lemma {:induction false} Slip(cfg: Config, run: seq<State>, m: nat, k: nat, i: nat) returns (run': seq<State>)
    requires IsRun(cfg, run) && Within(run, m, |run| - 1, k)
    requires i < |run[|run| - 1].threads| && run[|run| - 1].ctl.state.Switching?
    requires var pc := run[|run| - 1].threads[i].pc; pc.ReadPaused? || pc.ReadStopped? || pc == SetParked(false)
    ensures IsRun(cfg, run') && Within(run', m, |run'| - 1, k) && run <= run'
    ensures var s := run[|run| - 1];
            run'[|run'| - 1] == s.(threads := s.threads[i := s.threads[i].(pc := SetParked(false))])
    decreases var pc := run[|run| - 1].threads[i].pc; if pc.ReadPaused? then 2 else if pc.ReadStopped? then 1 else 0
  {
    var s := run[|run| - 1];
    var t := s.threads[i];
    if t.pc == SetParked(false) {
      assert s.threads[i := t] == s.threads;
      return run;
    }
    var t' := t.(pc := if t.pc.ReadPaused? then ReadStopped else SetParked(false));
    var s' := s.(threads := s.threads[i := t']);
    var run1 := Grow(cfg, run, ByThread(i, t'), s');
    run' := Slip(cfg, run1, m, k, i);
    assert s'.threads[i := t.(pc := SetParked(false))] == s.threads[i := t.(pc := SetParked(false))];
  }

  /** From the count on the call runs through to its answer. */
  lemma Succeed(cfg: Config, run: seq<State>, m: nat, k: nat, target: CtlState) returns (run': seq<State>)
    requires IsRun(cfg, run) && Within(run, m, |run| - 1, k) && run[|run| - 1].callers[k].pc == Parked(true)
    requires run[|run| - 1].callers[k].job.call == SetState(target) && run[|run| - 1].ctl.lock.None?
    ensures IsRun(cfg, run') && Within(run', m, |run'| - 1, k) && run <= run'
    ensures var s, s' := run[|run| - 1], run'[|run'| - 1];
            s'.ctl.state == target && s'.threads == s.threads && |s'.callers| == |s.callers|
            && s'.callers[k].pc == ClearPark(true)
  {
    var ctl := run[|run| - 1].ctl;
    run' := GrowCaller(cfg, run, m, k, ctl, Finish(true));
    ctl := ctl.(lock := Some(k));
    run' := GrowCaller(cfg, run', m, k, ctl, Committing);
    ctl := Decide(ctl, SetState(target), Ok, ctl.saved).(state := target, epoch := ctl.epoch + 1);
    run' := GrowCaller(cfg, run', m, k, ctl, ClearPark(true));
  }

  /** Two runs, the second from the end of the first. */
  lemma Joined(cfg: Config, run: seq<State>, tail: seq<State>) returns (run': seq<State>)
    requires IsRun(cfg, run) && Steps(cfg, tail) && tail[0] == run[|run| - 1]
    ensures IsRun(cfg, run') && run' == run + tail[1..]
  {
    run' := run + tail[1..];
    forall j | 0 <= j < |run'| - 1 ensures Next(cfg, run'[j], run'[j + 1]) {
      if j < |run| - 1 {
        assert Next(cfg, run[j], run[j + 1]);
      } else {
        var l := j - (|run| - 1);
        assert Next(cfg, tail[l], tail[l + 1]);
      }
    }
  }

  /** Caller k has just raised the request for a pause or stop. */
  ghost predicate Asking(cfg: Config, run: seq<State>, m: nat, k: nat, i: nat, target: CtlState) {
    && cfg.enabled && IsRun(cfg, run) && m == |run| - 1 && k < |run[m].callers| && i < |run[m].threads|
    && run[m].callers[k].pc == ParkScan(0, 0) && run[m].callers[k].job.call == SetState(target) && Halted(target)
  }

  lemma AskingOwns(cfg: Config, run: seq<State>, m: nat, k: nat, i: nat, target: CtlState)
    requires Asking(cfg, run, m, k, i, target)
    ensures run[m].ctl.state.Switching? && run[m].ctl.lock.None? && Within(run, m, m, k)
    ensures Stale(run[m].threads[i]) ==>
              var pc := run[m].threads[i].pc; pc.ReadPaused? || pc.ReadStopped? || pc == SetParked(false)
  {
    SafeInvRun(cfg, run, m);
    FlagTellsWhereItWas(cfg, run, m, i);
    assert run[m].ctl.owner == Some(k);
  }

  lemma StaleThreadSlips(cfg: Config, run: seq<State>, m: nat, k: nat, i: nat, target: CtlState)
    returns (run': seq<State>)
    requires Asking(cfg, run, m, k, i, target) && AllParked(run[m]) && Stale(run[m].threads[i])
    ensures IsRun(cfg, run') && run <= run' && Within(run', m, |run'| - 1, k)
    ensures var s := run'[|run'| - 1];
            && s.callers[k].pc == ClearPark(true) && s.ctl.state == target
            && i < |s.threads| && s.threads[i].pc == SetParked(false)
  {
    AskingOwns(cfg, run, m, k, i, target);
    run' := CountAll(cfg, run, m, k, 0);
    run' := Slip(cfg, run', m, k, i);
    run' := Succeed(cfg, run', m, k, target);
  }

  lemma StaleThreadHashes(cfg: Config, run: seq<State>, m: nat, k: nat, i: nat, target: CtlState)
    returns (run': seq<State>, n: nat)
    requires Asking(cfg, run, m, k, i, target) && AllParked(run[m]) && Stale(run[m].threads[i])
    ensures run <= run' && PauseFails(cfg, run', m, n, k, i)
  {
    var run1 := StaleThreadSlips(cfg, run, m, k, i, target);
    n := |run1| - 1;
    var tail := WayToScan(cfg, run1[n], i);
    run' := Joined(cfg, run1, tail);
    forall j | n <= j < |run'| ensures run'[j].ctl.state == target {
      assert run'[j] == tail[j - n];
    }
  }

  /** Exactly the stale threads get past it: with every flag up when the request is raised, a pause or
      stop can succeed with thread i going on to hash if and only if i's flag was stale. */
  lemma PauseFailsIff(cfg: Config, run: seq<State>, m: nat, k: nat, i: nat, target: CtlState)
    requires Asking(cfg, run, m, k, i, target) && AllParked(run[m])
    ensures Stale(run[m].threads[i]) <==> exists run', n :: run <= run' && PauseFails(cfg, run', m, n, k, i)
  {
    if Stale(run[m].threads[i]) {
      var run', n := StaleThreadHashes(cfg, run, m, k, i, target);
    } else if run', n :| run <= run' && PauseFails(cfg, run', m, n, k, i) {
      PauseStopsHashing(cfg, run', m, n, |run'| - 1, k, i);
      assert false;
    }
  }

  // ---------------------------------------------------------------- a run in which it happens

  /** One thread, and one caller with no call under way. */
  ghost predicate Resting(cfg: Config, s: State, state: CtlState) {
    && cfg.enabled && Reachable(cfg, s) && |s.threads| == 1 && |s.callers| == 1 && s.callers[0].pc.Idle?
    && s.ctl.state == state && s.ctl.lock.None? && s.ctl.owner.None? && !s.gate.park
  }

  predicate SameGens(s: State, s': State) {
    s'.gate.freeGen == s.gate.freeGen && s'.gate.initGen == s.gate.initGen
  }

  /** The caller asks for a pause and raises the request. */
  lemma DemoAsk(cfg: Config, s: State) returns (s': State)
    requires Resting(cfg, s, Running)
    ensures Reachable(cfg, s') && s'.threads == s.threads && s'.gate == s.gate.(park := true)
    ensures |s'.callers| == 1 && s'.callers[0].pc == ParkScan(0, 0) && s'.callers[0].job.call == SetState(Paused)
    ensures s'.ctl.state.Switching? && s'.ctl.lock.None?
  {
    var call := SetState(Paused);
    var c := Caller(Entered, s.callers[0].job.(call := call, paramAlgo := s.gate.algo));
    assert EnterWith(cfg, s.ctl, s.gate.algo, s.callers[0], call, s.ctl, c);
    s' := CallerMove(cfg, s, s.ctl, s.gate, c);
    var ctl := s.ctl.(saved := Running, state := Switching, owner := Some(0));
    c := Caller(Parking,
                c.job.(snap := Snapshot(Running, ctl.epoch, ctl.switches, ctl.lastSwitch, ctl.stored, s.clock)));
    s' := CallerMove(cfg, s', ctl, s.gate, c);
    s' := CallerMove(cfg, s', ctl, s.gate.(park := true), c.(pc := ParkScan(0, 0)));
  }

  /** The thread's flag is up, so the call counts it and succeeds. */
  lemma DemoAnswer(cfg: Config, s: State) returns (s': State)
    requires cfg.enabled && Reachable(cfg, s) && |s.threads| == 1 && s.threads[0].parked && |s.callers| == 1
    requires s.callers[0].pc == ParkScan(0, 0) && s.callers[0].job.call == SetState(Paused) && s.ctl.lock.None?
    ensures Resting(cfg, s', Paused) && s'.threads == s.threads && SameGens(s, s')
  {
    var c := s.callers[0];
    s' := CallerMove(cfg, s, s.ctl, s.gate, c.(pc := ParkScan(1, 1)));
    s' := CallerMove(cfg, s', s.ctl, s.gate, c.(pc := Parked(true)));
    s' := CallerMove(cfg, s', s.ctl, s.gate, c.(pc := Finish(true)));
    s' := DemoCommit(cfg, s', Paused);
  }

  lemma DemoCommit(cfg: Config, s: State, target: CtlState) returns (s': State)
    requires cfg.enabled && Reachable(cfg, s) && |s.threads| == 1 && |s.callers| == 1 && s.ctl.lock.None?
    requires s.callers[0].pc == Finish(true) && s.callers[0].job.call == SetState(target)
    ensures Resting(cfg, s', target) && s'.threads == s.threads && SameGens(s, s')
  {
    s' := EndMove(cfg, s, s.ctl.(lock := Some(0)), s.gate, Committing);
    var ctl := Decide(s'.ctl, SetState(target), Ok, s'.ctl.saved).(state := target, epoch := s'.ctl.epoch + 1);
    assert CommitStep(s'.ctl, s'.clock, SetState(target), ctl);
    s' := EndMove(cfg, s', ctl, s.gate, ClearPark(true));
    s' := DemoLeave(cfg, s', target);
  }

  lemma DemoLeave(cfg: Config, s: State, target: CtlState) returns (s': State)
    requires cfg.enabled && Reachable(cfg, s) && |s.threads| == 1 && |s.callers| == 1
    requires s.callers[0].pc == ClearPark(true) && s.ctl.state == target
    ensures Resting(cfg, s', target) && s'.threads == s.threads && SameGens(s, s')
  {
    s' := EndMove(cfg, s, s.ctl.(lock := None, owner := None), s.gate.(park := false, rewriting := false), Idle);
  }

  /** The caller lets the miner run again. */
  lemma DemoResume(cfg: Config, s: State) returns (s': State)
    requires Resting(cfg, s, Paused)
    ensures Resting(cfg, s', Running) && s'.threads == s.threads && SameGens(s, s')
  {
    var call := SetState(Running);
    var c := Caller(Entered, s.callers[0].job.(call := call, paramAlgo := s.gate.algo));
    assert EnterWith(cfg, s.ctl, s.gate.algo, s.callers[0], call, s.ctl, c);
    s' := CallerMove(cfg, s, s.ctl, s.gate, c);
    var ctl := s.ctl.(saved := Paused, state := Switching, owner := Some(0));
    c := Caller(Finish(true),
                c.job.(snap := Snapshot(Paused, ctl.epoch, ctl.switches, ctl.lastSwitch, ctl.stored, s.clock)));
    s' := CallerMove(cfg, s', ctl, s.gate, c);
    s' := DemoCommit(cfg, s', Running);
  }

  lemma DemoStartUp(cfg: Config) returns (s: State)
    requires cfg.enabled
    ensures Resting(cfg, s, Running) && s.threads[0].pc.Top?
    ensures s.threads[0].freeAck == s.gate.freeGen && s.threads[0].initAck == s.gate.initGen
  {
    var t := Thread(Starting, false, 0, 0, None, None, false);
    s := State(DEMO_CTL, DEMO_GATE, 1, [t], [Caller(Idle, DEMO_JOB)]);
    assert IsRun(cfg, [s]) && [s][|[s]| - 1] == s;
    s := ThreadMove(cfg, s, t.(pc := StartInit(0)));
    s := ThreadMove(cfg, s, t.(pc := Top, buffer := Some(0), initGate := Some(0), initOk := true));
  }

  /** "After a pause that was answered with success no thread is in scanhash" is false: paused, resumed
      and paused again, the thread has read that it may run but not yet lowered its flag when the second
      pause counts it. */
  lemma PausedMinerHashes(cfg: Config) returns (s: State)
    requires cfg.enabled
    ensures Resting(cfg, s, Paused) && s.threads[0].pc.Scanning?
  {
    s := DemoStartUp(cfg);
    s := DemoAsk(cfg, s);
    s := ThreadMove(cfg, s, s.threads[0].(pc := SetParked(true)));
    s := ThreadMove(cfg, s, s.threads[0].(pc := FreeCheck, parked := true));
    s := DemoAnswer(cfg, s);
    s := DemoResume(cfg, s);
    s := DemoSlip(cfg, s);
    s := DemoAsk(cfg, s);
    s := DemoAnswer(cfg, s);
    s := ThreadMove(cfg, s, s.threads[0].(pc := PreScan, parked := false));
    s := ThreadMove(cfg, s, s.threads[0].(pc := Scanning));
  }

  /** The thread comes out of service and reads that it may run. */
  lemma DemoSlip(cfg: Config, s: State) returns (s': State)
    requires Resting(cfg, s, Running) && s.threads[0].pc.FreeCheck? && s.threads[0].parked
    requires s.threads[0].freeAck == s.gate.freeGen && s.threads[0].initAck == s.gate.initGen
    ensures Resting(cfg, s', Running) && s'.threads[0] == s.threads[0].(pc := SetParked(false))
  {
    s' := ThreadMove(cfg, s, s.threads[0].(pc := InitCheck));
    s' := ThreadMove(cfg, s', s.threads[0].(pc := Top));
    s' := ThreadMove(cfg, s', s.threads[0].(pc := ReadPaused));
    s' := ThreadMove(cfg, s', s.threads[0].(pc := ReadStopped));
    s' := ThreadMove(cfg, s', s.threads[0].(pc := SetParked(false)));
  }
}
