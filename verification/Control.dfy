/** Runtime control of the miner: the control calls of api_control.c and the part of the
    miner_thread loop that cooperates with them, as one labelled transition system.

    Any number of mining threads and any number of callers of the control API interleave,
    one shared-memory access at a time.  Timeouts, registration failures, memory refusals and
    failed initialisations are nondeterministic.  Reads and writes of shared words are taken to
    be sequentially consistent, and the generation counters not to wrap. */
module Control {

  import opened Wrappers

  // ------------------------------------------------------------------ static configuration

  type Algo = nat

  datatype ParamName = ParamN | ParamR | ParamKey | ParamDataFile

  /** What does not change at run time: --api-control, its minimum interval in seconds, and which
      parameters each algorithm accepts (a flat table in the source). */
  datatype Config = Config(enabled: bool, minInterval: int, takes: (Algo, ParamName) -> bool)

  // ------------------------------------------------------------------------ control calls

  datatype CtlState = Running | Paused | Stopped | Switching

  datatype CtlResult = Ok | Accepted | Disabled | Busy | Throttled | BadRequest | Failed

  /** One entry of the parameter array; an unknown name is None. */
  datatype ParamSet = ParamSet(name: Option<ParamName>, reset: bool, ival: int, sval: Option<string>)

  /** The sticky parameters of one algorithm; None is "use the algorithm's default". */
  datatype AlgoParams = AlgoParams(n: Option<int>, r: Option<int>, key: Option<string>, file: Option<string>)

  const NO_PARAMS := AlgoParams(None, None, None, None)

  datatype Call =
    | SetState(target: CtlState)
    | Profile(newAlgo: Option<Algo>, known: bool, params: seq<ParamSet>, run: Option<bool>)

  predicate ParamValid(cfg: Config, algo: Algo, p: ParamSet) {
    && p.name.Some?
    && cfg.takes(algo, p.name.value)
    && (p.reset
        || (match p.name.value
            case ParamN => 0 < p.ival <= 0x400000
            case ParamR => 0 < p.ival
            case _ => p.sval.Some?))
  }

  /** params_validate, and the unknown-algorithm and SWITCHING-target checks before the lock. */
  predicate WellFormed(cfg: Config, algo: Algo, call: Call) {
    match call
    case SetState(target) => target != Switching
    case Profile(_, known, params, _) =>
      known && forall i | 0 <= i < |params| :: ParamValid(cfg, algo, params[i])
  }

  /** The cast of a long to an int. */
  function ToInt(n: int): int {
    var w := n % 0x1_0000_0000;
    if w < 0x8000_0000 then w else w - 0x1_0000_0000
  }

  /** snprintf into a field of the given size. */
  function Fitted(s: Option<string>, size: nat): Option<string>
    requires size > 0
  {
    if s.Some? && |s.value| >= size then Some(s.value[..size - 1]) else s
  }

  const KEY_SIZE := 128
  const FILE_SIZE := 512

  function StoreParam(st: AlgoParams, p: ParamSet): AlgoParams {
    match p.name
    case Some(ParamN) => st.(n := if p.reset then None else Some(ToInt(p.ival)))
    case Some(ParamR) => st.(r := if p.reset then None else Some(ToInt(p.ival)))
    case Some(ParamKey) => st.(key := if p.reset then None else Fitted(p.sval, KEY_SIZE))
    case Some(ParamDataFile) => st.(file := if p.reset then None else Fitted(p.sval, FILE_SIZE))
    case None => st
  }

  /** params_store: later entries win. */
  function StoreParams(st: AlgoParams, ps: seq<ParamSet>): AlgoParams {
    if ps == [] then st else StoreParam(StoreParams(st, ps[..|ps| - 1]), ps[|ps| - 1])
  }

  function StoredFor(stored: map<Algo, AlgoParams>, algo: Algo): AlgoParams {
    if algo in stored then stored[algo] else NO_PARAMS
  }

  // ------------------------------------------------------------------------- mining threads

  /** Where a mining thread is in its loop.  Freeing, StartInit and Initing are intervals: the
      thread is inside miner_thread_free or miner_thread_init, and the latter two remember the
      registration of the gate they were entered under. */
  datatype ThreadPc =
    | Starting | StartInit(gate: nat)
    | Top
    | ReadPaused | ReadStopped
    | SetParked(park: bool)
    | FreeCheck | Freeing | FreeAckRead | FreeAckWrite(v: nat)
    | InitCheck | InitAckRead | InitAckWrite(v: nat) | InitCall | Initing(gate: nat)
    | PreScan | Scanning
    | Exited

  /** buffer: the registration under which the thread's algorithm buffers were allocated, if it
      holds any.  initGate and initOk record the last completed miner_thread_init. */
  datatype Thread = Thread(pc: ThreadPc, parked: bool, freeAck: nat, initAck: nat,
                           buffer: Option<nat>, initGate: Option<nat>, initOk: bool)

  // ------------------------------------------------------------------------------- callers

  /** Where a caller is in api_ctl_set_state or api_ctl_profile.  `undo` marks the second
      switch_algo, the one made while rolling back with the lock held. */
  datatype CallerPc =
    | Idle
    | Entered
    | Parking | ParkScan(i: nat, count: nat) | Parked(ok: bool)
    | BumpFree(algo: Algo, undo: bool)
    | WaitFree(algo: Algo, undo: bool, i: nat, count: nat)
    | SetAlgo(algo: Algo, undo: bool)
    | Registering(algo: Algo, undo: bool, prev: Algo)
    | Restoring(undo: bool)
    | BumpInit(undo: bool)
    | WaitInit(undo: bool, i: nat, count: nat)
    | Finish(ok: bool)
    | Committing | Undoing | RestoreState
    | ClearPark(ok: bool)

  /** The client-visible control values, as they were when the caller won the lock. */
  datatype Snapshot = Snapshot(state: CtlState, epoch: nat, switches: nat, lastSwitch: int,
                               stored: map<Algo, AlgoParams>, time: int)

  /** The locals of a call: its arguments and what it remembers for a rollback.  `asked` and `held`
      are history variables: the free generation, and the one of the last completed handover, as the
      call found them once it had parked the threads. */
  datatype Job = Job(call: Call, paramAlgo: Algo, prevAlgo: Algo, prevParams: AlgoParams,
                     asked: nat, held: nat, snap: Snapshot)

  datatype Caller = Caller(pc: CallerPc, job: Job)

  // ---------------------------------------------------------------------------- shared state

  /** A decided call: what it was, what it answered, and the control state it met. */
  datatype Event = Event(call: Call, result: CtlResult, before: CtlState)

  /** The control values and the lock.  The last three fields are history variables: who is
      mutating, the decided calls, and the completion times of successful profiles. */
  datatype Ctl = Ctl(state: CtlState, saved: CtlState, epoch: nat, switches: nat, lastSwitch: int,
                     stored: map<Algo, AlgoParams>, lock: Option<nat>,
                     owner: Option<nat>, log: seq<Event>, switchTimes: seq<int>)

  /** The park request, the two generation counters and the gate; `regs` counts calls of
      register_algo_gate, so it names the gate in force.  The last four fields are history
      variables: whether this mutation has begun to rewrite the gate, the free generation of the last
      switch whose init wait completed, whether an init wait has timed out since then, and whether one
      ever has. */
  datatype Gate = Gate(park: bool, freeGen: nat, initGen: nat, algo: Algo, regs: nat,
                       rewriting: bool, handedGen: nat, initPending: bool, initTimedOut: bool)

  datatype State = State(ctl: Ctl, gate: Gate, clock: int, threads: seq<Thread>, callers: seq<Caller>)

  // ------------------------------------------------------------------- steps of a mining thread

  /** One step of the loop at cpu-miner.c:2780.  A mining thread writes only its own slots. */
  ghost predicate ThreadStep(cfg: Config, state: CtlState, g: Gate, t: Thread, t': Thread) {
    match t.pc
    case Starting => t' == t.(pc := StartInit(g.regs))
    case StartInit(at) => // a failure here ends the process
      t' == t.(pc := Top, buffer := Some(at), initGate := Some(at), initOk := true)
    case Top =>
      || t' == t.(pc := Exited)
      || (if !cfg.enabled then t' == t.(pc := PreScan)
          else t' == t.(pc := if g.park then SetParked(true) else ReadPaused))
    case ReadPaused => t' == t.(pc := if state == Paused then SetParked(true) else ReadStopped)
    case ReadStopped => t' == t.(pc := SetParked(state == Stopped))
    case SetParked(p) => t' == t.(parked := p, pc := if p then FreeCheck else PreScan)
    case FreeCheck => t' == t.(pc := if t.freeAck != g.freeGen then Freeing else InitCheck)
    case Freeing => t' == t.(buffer := None, pc := FreeAckRead)
    case FreeAckRead => t' == t.(pc := FreeAckWrite(g.freeGen))
    case FreeAckWrite(v) => t' == t.(freeAck := v, pc := InitCheck)
    case InitCheck => t' == t.(pc := if t.initAck != g.initGen then InitAckRead else Top)
    case InitAckRead => t' == t.(pc := InitAckWrite(g.initGen))
    case InitAckWrite(v) => t' == t.(initAck := v, pc := InitCall)
    case InitCall => t' == t.(pc := Initing(g.regs))
    case Initing(at) =>
      || t' == t.(pc := Top, buffer := Some(at), initGate := Some(at), initOk := true)
      || t' == t.(pc := Top, initGate := Some(at), initOk := false)
    case PreScan => t' == t.(pc := Scanning) || t' == t.(pc := Top)
    case Scanning => t' == t.(pc := Top) || t' == t.(pc := Exited)
    case Exited => false
  }

  // -------------------------------------------------------------------------- steps of a caller

  predicate IsThrottled(cfg: Config, ctl: Ctl, clock: int) {
    ctl.lastSwitch != 0 && clock - ctl.lastSwitch < cfg.minInterval
  }

  /** Whether the call runs switch_algo at all. */
  predicate Switches(call: Call) {
    call.Profile? && (call.newAlgo.Some? || call.params != [])
  }

  function ParamAlgo(call: Call, algo: Algo): Algo {
    if call.Profile? && call.newAlgo.Some? then call.newAlgo.value else algo
  }

  function CommitState(call: Call, saved: CtlState): CtlState {
    match call
    case SetState(target) => target
    case Profile(_, _, _, run) =>
      if run.Some? then (if run.value then Running else Paused) else saved
  }

  predicate HasSlowParam(call: Call) {
    call.Profile? && exists i | 0 <= i < |call.params| :: call.params[i].name == Some(ParamDataFile)
  }

  /** The guard at api_control.c:715. */
  predicate MustUndoSwitch(job: Job, algo: Algo) {
    job.call.Profile? && ((job.call.newAlgo.Some? && algo != job.prevAlgo) || job.call.params != [])
  }

  function AfterSwitch(ok: bool, undo: bool): CallerPc {
    if undo then RestoreState else Finish(ok)
  }

  function Decide(ctl: Ctl, call: Call, result: CtlResult, before: CtlState): Ctl {
    ctl.(log := ctl.log + [Event(call, result, before)])
  }

  /** Before the lock: the disabled and malformed answers, and the choice of the algorithm the
      parameters apply to. */
  ghost predicate EnterWith(cfg: Config, ctl: Ctl, algo: Algo, c: Caller, call: Call, ctl': Ctl, c': Caller) {
    if !cfg.enabled then
      ctl' == Decide(ctl, call, Disabled, ctl.state) && c' == c
    else if !WellFormed(cfg, ParamAlgo(call, algo), call) then
      ctl' == Decide(ctl, call, BadRequest, ctl.state) && c' == c
    else
      ctl' == ctl && c' == Caller(Entered, c.job.(call := call, paramAlgo := ParamAlgo(call, algo)))
  }

  /** The first critical section of both calls. */
  ghost predicate BeginStep(cfg: Config, ctl: Ctl, clock: int, k: nat, c: Caller, ctl': Ctl, c': Caller) {
    && ctl.lock.None?
    && var call := c.job.call;
       if ctl.state.Switching? then
         ctl' == Decide(ctl, call, Busy, ctl.state) && c' == c.(pc := Idle)
       else if call.Profile? && IsThrottled(cfg, ctl, clock) then
         ctl' == Decide(ctl, call, Throttled, ctl.state) && c' == c.(pc := Idle)
       else if call.SetState? && call.target == ctl.state then
         ctl' == Decide(ctl, call, Ok, ctl.state) && c' == c.(pc := Idle)
       else
         && ctl' == ctl.(saved := ctl.state, state := Switching, owner := Some(k))
         && c' == Caller(if call == SetState(Running) then Finish(true) else Parking,
                         c.job.(snap := Snapshot(ctl.state, ctl.epoch, ctl.switches, ctl.lastSwitch,
                                                 ctl.stored, clock)))
  }

  /** park_all. */
  ghost predicate ParkStep(threads: seq<Thread>, g: Gate, pc: CallerPc, g': Gate, pc': CallerPc) {
    match pc
    case Parking => g' == g.(park := true) && pc' == ParkScan(0, 0)
    case ParkScan(i, count) =>
      && g' == g
      && if i < |threads| then pc' == ParkScan(i + 1, count + if threads[i].parked then 1 else 0)
         else if count >= |threads| then pc' == Parked(true)
         else pc' == ParkScan(0, 0) || pc' == Parked(false)
    case _ => false
  }

  /** Between park_all and the first switch_algo. */
  ghost predicate ParkedStep(ctl: Ctl, g: Gate, c: Caller, ctl': Ctl, c': Caller)
    requires c.pc.Parked?
  {
    var job := c.job;
    var ok := c.pc.ok;
    if job.call.SetState? then ctl' == ctl && c' == c.(pc := Finish(ok))
    else
      && ctl' == (if ok && job.call.params != [] then
                    ctl.(stored := ctl.stored[job.paramAlgo :=
                      StoreParams(StoredFor(ctl.stored, job.paramAlgo), job.call.params)])
                  else ctl)
      && c' == Caller(if ok && Switches(job.call) then BumpFree(ParamAlgo(job.call, job.paramAlgo), false)
                      else Finish(ok),
                      job.(prevAlgo := g.algo, prevParams := StoredFor(ctl.stored, job.paramAlgo),
                           asked := g.freeGen, held := g.handedGen))
  }

  /** switch_algo. */
  ghost predicate SwitchStep(threads: seq<Thread>, g: Gate, pc: CallerPc, g': Gate, pc': CallerPc) {
    match pc
    case BumpFree(a, undo) =>
      g' == g.(freeGen := g.freeGen + 1) && pc' == WaitFree(a, undo, 0, 0)
    case WaitFree(a, undo, i, count) =>
      && g' == g
      && if i < |threads| then
           pc' == WaitFree(a, undo, i + 1, count + if threads[i].freeAck == g.freeGen then 1 else 0)
         else if count >= |threads| then pc' == SetAlgo(a, undo)
         else pc' == WaitFree(a, undo, 0, 0) || pc' == AfterSwitch(false, undo)
    case SetAlgo(a, undo) =>
      g' == g.(algo := a, rewriting := true) && pc' == Registering(a, undo, g.algo)
    case Registering(a, undo, prev) =>
      // success, or a failed registration or a memory refusal that puts the old gate back
      || (g' == g.(regs := g.regs + 1) && pc' == BumpInit(undo))
      || (g' == g.(regs := g.regs + 1, algo := prev) && pc' == Restoring(undo))
    case Restoring(undo) =>
      g' == g.(regs := g.regs + 1) && pc' == AfterSwitch(false, undo)
    case BumpInit(undo) =>
      g' == g.(initGen := g.initGen + 1) && pc' == WaitInit(undo, 0, 0)
    case WaitInit(undo, i, count) =>
      if i < |threads| then
        g' == g && pc' == WaitInit(undo, i + 1, count + if threads[i].initAck == g.initGen then 1 else 0)
      else if count >= |threads| then
        g' == g.(handedGen := g.freeGen, initPending := false) && pc' == AfterSwitch(true, undo)
      else
        || (g' == g && pc' == WaitInit(undo, 0, 0))
        || (g' == g.(initPending := true, initTimedOut := true) && pc' == AfterSwitch(false, undo))
    case _ => false
  }

  /** The commit of a successful call. */
  ghost predicate CommitStep(ctl: Ctl, clock: int, call: Call, ctl': Ctl) {
    var to := CommitState(call, ctl.saved);
    if call.SetState? then
      ctl' == Decide(ctl, call, Ok, ctl.saved).(state := to, epoch := ctl.epoch + 1)
    else
      exists result | result == Ok || (result == Accepted && HasSlowParam(call)) ::
        ctl' == Decide(ctl, call, result, ctl.saved).(
                  state := to, epoch := ctl.epoch + 1, switches := ctl.switches + 1,
                  lastSwitch := clock, switchTimes := ctl.switchTimes + [clock])
  }

  /** The last critical section of both calls. */
  ghost predicate EndStep(s: State, k: nat, c: Caller, ctl': Ctl, g': Gate, pc': CallerPc) {
    match c.pc
    case Finish(ok) =>
      && s.ctl.lock.None? && ctl' == s.ctl.(lock := Some(k)) && g' == s.gate
      && pc' == if ok then Committing else Undoing
    case Committing => CommitStep(s.ctl, s.clock, c.job.call, ctl') && g' == s.gate && pc' == ClearPark(true)
    case Undoing =>
      && g' == s.gate
      && if c.job.call.SetState? then ctl' == s.ctl && pc' == RestoreState
         else
           && ctl' == s.ctl.(stored := s.ctl.stored[c.job.paramAlgo := c.job.prevParams])
           && pc' == if MustUndoSwitch(c.job, s.gate.algo) then BumpFree(c.job.prevAlgo, true) else RestoreState
    case RestoreState =>
      && ctl' == Decide(s.ctl, c.job.call, Failed, s.ctl.saved).(state := s.ctl.saved)
      && g' == s.gate && pc' == ClearPark(false)
    case ClearPark(_) =>
      && ctl' == s.ctl.(lock := None, owner := None)
      && g' == s.gate.(park := false, rewriting := false) && pc' == Idle
    case _ => false
  }

  ghost predicate CallerStep(cfg: Config, s: State, k: nat, ctl': Ctl, g': Gate, c': Caller)
    requires k < |s.callers|
  {
    var c := s.callers[k];
    match c.pc
    case Idle => g' == s.gate && exists call :: EnterWith(cfg, s.ctl, s.gate.algo, c, call, ctl', c')
    case Entered => g' == s.gate && BeginStep(cfg, s.ctl, s.clock, k, c, ctl', c')
    case Parking | ParkScan(_, _) =>
      ctl' == s.ctl && c'.job == c.job && ParkStep(s.threads, s.gate, c.pc, g', c'.pc)
    case Parked(_) => g' == s.gate && ParkedStep(s.ctl, s.gate, c, ctl', c')
    case Finish(_) | Committing | Undoing | RestoreState | ClearPark(_) =>
      c'.job == c.job && EndStep(s, k, c, ctl', g', c'.pc)
    case _ => ctl' == s.ctl && c'.job == c.job && SwitchStep(s.threads, s.gate, c.pc, g', c'.pc)
  }

  // -------------------------------------------------------------------------------------- runs

  datatype Step =
    | ByThread(i: nat, t': Thread)
    | ByCaller(k: nat, ctl': Ctl, g': Gate, c': Caller)
    | Tick(clock: int)

  ghost predicate NextBy(cfg: Config, s: State, step: Step, s': State) {
    match step
    case ByThread(i, t') =>
      && i < |s.threads|
      && ThreadStep(cfg, s.ctl.state, s.gate, s.threads[i], t')
      && s' == s.(threads := s.threads[i := t'])
    case ByCaller(k, ctl', g', c') =>
      && k < |s.callers|
      && CallerStep(cfg, s, k, ctl', g', c')
      && s' == s.(ctl := ctl', gate := g', callers := s.callers[k := c'])
    case Tick(clock) => s.clock <= clock && s' == s.(clock := clock)
  }

  ghost predicate Next(cfg: Config, s: State, s': State) {
    exists step :: NextBy(cfg, s, step, s')
  }

  ghost predicate Init(s: State) {
    && s.ctl == Ctl(Running, Running, 0, 0, 0, map[], None, None, [], [])
    && s.gate == Gate(false, 0, 0, s.gate.algo, 0, false, 0, false, false)
    && s.clock > 0
    && (forall i | 0 <= i < |s.threads| :: s.threads[i] == Thread(Starting, false, 0, 0, None, None, false))
    && (forall k | 0 <= k < |s.callers| :: s.callers[k].pc.Idle?)
  }

  /** A run: a finite sequence of states, each a step from the one before. */
  ghost predicate IsRun(cfg: Config, run: seq<State>) {
    && 0 < |run|
    && Init(run[0])
    && forall i | 0 <= i < |run| - 1 :: Next(cfg, run[i], run[i + 1])
  }
}
