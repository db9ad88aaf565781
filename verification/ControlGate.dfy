/** Safety of the gate and of the per-thread buffers over every run of the control protocol. */
module ControlGate {
  import opened Wrappers
  import opened Control

  // ------------------------------------------------------------ who is mutating, and how far

  predicate InMutation(pc: CallerPc) { !pc.Idle? && !pc.Entered? }

  predicate HoldsLock(pc: CallerPc) {
    match pc
    case Committing | Undoing | RestoreState | ClearPark(_) => true
    case BumpFree(_, undo) => undo
    case WaitFree(_, undo, _, _) => undo
    case SetAlgo(_, undo) => undo
    case Registering(_, undo, _) => undo
    case Restoring(undo) => undo
    case BumpInit(undo) => undo
    case WaitInit(undo, _, _) => undo
    case _ => false
  }

  /** Points at which the park request is certainly raised. */
  predicate ParkRaised(pc: CallerPc) {
    match pc
    case Idle | Entered | Parking | Committing | ClearPark(_) => false
    case Finish(ok) => !ok
    case _ => true
  }

  /** What a mutating caller k may rely on: the lock and the SWITCHING state follow its program
      counter. */
  ghost predicate OwnerInv(ctl: Ctl, k: nat, c: Caller) {
    && ctl.owner == Some(k)
    && ctl.lock == (if HoldsLock(c.pc) then Some(k) else None)
    && (ctl.state.Switching? <==> !c.pc.ClearPark?)
    && !ctl.saved.Switching?
    && !CommitState(c.job.call, ctl.saved).Switching?
  }

  ghost predicate UnownedInv(ctl: Ctl) {
    ctl.owner.None? && ctl.lock.None? && !ctl.state.Switching?
  }

  /** At most one mutation at a time. */
  ghost predicate CtlInv(cfg: Config, s: State) {
    && (forall k | 0 <= k < |s.callers| :: InMutation(s.callers[k].pc) <==> s.ctl.owner == Some(k))
    && (match s.ctl.owner
        case None => UnownedInv(s.ctl)
        case Some(k) => k < |s.callers| && cfg.enabled && OwnerInv(s.ctl, k, s.callers[k]))
    && (forall k | 0 <= k < |s.callers| && s.callers[k].pc.Entered? ::
          cfg.enabled && !CommitState(s.callers[k].job.call, Running).Switching?)
  }

  /** A caller outside a mutation changes nothing shared except the log of decisions, unless it
      begins a mutation, which it can only do while nobody else has one. */
  lemma OutsideStep(cfg: Config, s: State, k: nat, ctl': Ctl, g': Gate, c': Caller)
    requires k < |s.callers| && !InMutation(s.callers[k].pc) && CallerStep(cfg, s, k, ctl', g', c')
    ensures g' == s.gate
    ensures InMutation(c'.pc) ==>
              && s.callers[k].pc.Entered? && BeginStep(cfg, s.ctl, s.clock, k, s.callers[k], ctl', c')
              && !s.ctl.state.Switching? && s.ctl.lock.None?
    ensures !InMutation(c'.pc) ==> ctl' == s.ctl.(log := ctl'.log)
    ensures c'.pc.Entered? ==> cfg.enabled && !CommitState(c'.job.call, Running).Switching?
  {
    if s.callers[k].pc.Idle? {
      var call :| EnterWith(cfg, s.ctl, s.gate.algo, s.callers[k], call, ctl', c');
    }
  }

  lemma CtlInvOutside(cfg: Config, s: State, k: nat, ctl': Ctl, g': Gate, c': Caller)
    requires CtlInv(cfg, s) && k < |s.callers| && !InMutation(s.callers[k].pc)
    requires CallerStep(cfg, s, k, ctl', g', c')
    ensures CtlInv(cfg, s.(ctl := ctl', gate := g', callers := s.callers[k := c']))
  {
    OutsideStep(cfg, s, k, ctl', g', c');
  }

  predicate InsideSwitch(pc: CallerPc) {
    pc.WaitFree? || pc.SetAlgo? || pc.Registering? || pc.Restoring? || pc.BumpInit? || pc.WaitInit?
  }

  lemma OwnerSwitchStep(threads: seq<Thread>, g: Gate, pc: CallerPc, g': Gate, pc': CallerPc)
    requires SwitchStep(threads, g, pc, g', pc')
    ensures InMutation(pc') && HoldsLock(pc') == HoldsLock(pc) && (InsideSwitch(pc) || pc.BumpFree?)
    ensures InsideSwitch(pc') || (if HoldsLock(pc) then pc'.RestoreState? else pc'.Finish?)
  {}

  lemma OwnerEndStep(s: State, k: nat, c: Caller, ctl': Ctl, g': Gate, pc': CallerPc)
    requires OwnerInv(s.ctl, k, c) && EndStep(s, k, c, ctl', g', pc')
    ensures if c.pc.ClearPark? then pc'.Idle? && UnownedInv(ctl')
            else InMutation(pc') && OwnerInv(ctl', k, Caller(pc', c.job))
  {}

  lemma OwnerStep(cfg: Config, s: State, k: nat, ctl': Ctl, g': Gate, c': Caller)
    requires k < |s.callers| && InMutation(s.callers[k].pc) && OwnerInv(s.ctl, k, s.callers[k])
    requires CallerStep(cfg, s, k, ctl', g', c')
    ensures if InMutation(c'.pc) then OwnerInv(ctl', k, c') else c'.pc.Idle? && UnownedInv(ctl')
  {
    var c := s.callers[k];
    match c.pc
    case Parking | ParkScan(_, _) | Parked(_) =>
    case Finish(_) | Committing | Undoing | RestoreState | ClearPark(_) =>
      OwnerEndStep(s, k, c, ctl', g', c'.pc);
    case _ => OwnerSwitchStep(s.threads, s.gate, c.pc, g', c'.pc);
  }

  lemma CtlInvOwner(cfg: Config, s: State, k: nat, ctl': Ctl, g': Gate, c': Caller)
    requires CtlInv(cfg, s) && k < |s.callers| && InMutation(s.callers[k].pc)
    requires CallerStep(cfg, s, k, ctl', g', c')
    ensures CtlInv(cfg, s.(ctl := ctl', gate := g', callers := s.callers[k := c']))
  {
    assert s.ctl.owner == Some(k);
    OwnerStep(cfg, s, k, ctl', g', c');
  }

  lemma CtlInvStep(cfg: Config, s: State, step: Step, s': State)
    requires CtlInv(cfg, s) && NextBy(cfg, s, step, s')
    ensures CtlInv(cfg, s')
  {
    if step.ByCaller? {
      if InMutation(s.callers[step.k].pc) {
        CtlInvOwner(cfg, s, step.k, step.ctl', step.g', step.c');
      } else {
        CtlInvOutside(cfg, s, step.k, step.ctl', step.g', step.c');
      }
    }
  }

  // ---------------------------------------------------------------------------- the gate

  /** The program counter of the mutating caller, or Idle. */
  function OwnerPc(s: State): CallerPc {
    if s.ctl.owner.Some? && s.ctl.owner.value < |s.callers| then s.callers[s.ctl.owner.value].pc else Idle
  }

  /** Neither hashing nor on its way to hash without reading the park request again. */
  predicate Quiet(pc: ThreadPc) {
    match pc
    case Starting | StartInit(_) | ReadPaused | ReadStopped | PreScan | Scanning => false
    case SetParked(park) => park
    case _ => true
  }

  /** Acknowledgements never run ahead of, or fall back behind, the generations. */
  predicate AcksOk(g: Gate, t: Thread) {
    && t.freeAck <= g.freeGen
    && t.initAck <= g.initGen
    && match t.pc
       case Freeing | FreeAckRead => t.freeAck < g.freeGen
       case FreeAckWrite(v) => t.freeAck < v <= g.freeGen
       case InitAckRead => t.initAck < g.initGen
       case InitAckWrite(v) => t.initAck < g.initGen && v <= g.initGen
       case _ => true
  }

  /** How the mutator's position ties the park request and the acknowledgements to the threads. */
  ghost predicate PhaseInv(g: Gate, pc: CallerPc, threads: seq<Thread>) {
    match pc
    case Idle | Entered | Parking | ParkScan(_, _) | Parked(_) => !g.rewriting
    case WaitFree(_, _, i, count) =>
      && count <= i <= |threads|
      && (count == i ==> forall j | 0 <= j < i :: threads[j].freeAck == g.freeGen)
      && (forall j | 0 <= j < |threads| && threads[j].freeAck == g.freeGen :: Quiet(threads[j].pc))
    case SetAlgo(_, _) =>
      forall j | 0 <= j < |threads| :: threads[j].freeAck == g.freeGen && Quiet(threads[j].pc)
    case Registering(_, _, _) | Restoring(_) | BumpInit(_) | WaitInit(_, _, _) => g.rewriting
    case _ => true
  }

  /** The last switch to ask for the buffers ran to the end. */
  predicate Handed(g: Gate) { g.handedGen == g.freeGen }

  ghost predicate GateInv(g: Gate, pc: CallerPc, threads: seq<Thread>) {
    && (ParkRaised(pc) ==> g.park)
    && g.handedGen <= g.freeGen && (InsideSwitch(pc) ==> g.handedGen < g.freeGen)
    && (forall i | 0 <= i < |threads| :: AcksOk(g, threads[i]))
    && (g.rewriting ==> g.park && forall i | 0 <= i < |threads| :: Quiet(threads[i].pc))
    && PhaseInv(g, pc, threads)
  }

  /** A thread that is quiet while the park request stands stays quiet; a thread that
      acknowledges becomes quiet. */
  lemma QuietStep(cfg: Config, state: CtlState, g: Gate, t: Thread, t': Thread)
    requires cfg.enabled && g.park && AcksOk(g, t) && ThreadStep(cfg, state, g, t, t')
    ensures Quiet(t.pc) ==> Quiet(t'.pc)
    ensures t.freeAck == g.freeGen ==> t'.freeAck == g.freeGen
    ensures t.freeAck != g.freeGen && t'.freeAck == g.freeGen ==> Quiet(t'.pc)
  {}

  lemma AcksStep(cfg: Config, state: CtlState, g: Gate, t: Thread, t': Thread)
    requires AcksOk(g, t) && ThreadStep(cfg, state, g, t, t')
    ensures AcksOk(g, t') && t.freeAck <= t'.freeAck
  {}

  lemma GateInvThread(cfg: Config, state: CtlState, g: Gate, pc: CallerPc, threads: seq<Thread>, i: nat, t': Thread)
    requires GateInv(g, pc, threads) && (InMutation(pc) ==> cfg.enabled)
    requires i < |threads| && ThreadStep(cfg, state, g, threads[i], t')
    ensures GateInv(g, pc, threads[i := t'])
  {
    AcksStep(cfg, state, g, threads[i], t');
    if g.park && InMutation(pc) {
      QuietStep(cfg, state, g, threads[i], t');
    }
  }

  lemma GateInvFree(threads: seq<Thread>, g: Gate, pc: CallerPc, g': Gate, pc': CallerPc)
    requires GateInv(g, pc, threads) && SwitchStep(threads, g, pc, g', pc') && (pc.BumpFree? || pc.WaitFree?)
    ensures GateInv(g', pc', threads)
  {}

  lemma GateInvSwitch(threads: seq<Thread>, g: Gate, pc: CallerPc, g': Gate, pc': CallerPc)
    requires GateInv(g, pc, threads) && SwitchStep(threads, g, pc, g', pc')
    ensures GateInv(g', pc', threads)
  {
    if pc.BumpFree? || pc.WaitFree? {
      GateInvFree(threads, g, pc, g', pc');
    }
  }

  /** Outside switch_algo a mutating caller moves only the park request and its own progress. */
  lemma NonSwitchStep(cfg: Config, s: State, k: nat, ctl': Ctl, g': Gate, c': Caller)
    requires k < |s.callers| && InMutation(s.callers[k].pc) && CallerStep(cfg, s, k, ctl', g', c')
    requires !InsideSwitch(s.callers[k].pc) && !s.callers[k].pc.BumpFree?
    ensures g' == s.gate.(park := g'.park, rewriting := g'.rewriting) && !InsideSwitch(c'.pc)
  {}

  lemma GateInvEnd(s: State, k: nat, c: Caller, ctl': Ctl, g': Gate, pc': CallerPc)
    requires GateInv(s.gate, c.pc, s.threads) && EndStep(s, k, c, ctl', g', pc')
    ensures GateInv(g', pc', s.threads)
  {}

  lemma GateInvCaller(cfg: Config, s: State, k: nat, ctl': Ctl, g': Gate, c': Caller)
    requires k < |s.callers| && InMutation(s.callers[k].pc) && CallerStep(cfg, s, k, ctl', g', c')
    requires GateInv(s.gate, s.callers[k].pc, s.threads)
    ensures GateInv(g', c'.pc, s.threads)
  {
    var c := s.callers[k];
    if InsideSwitch(c.pc) || c.pc.BumpFree? {
      GateInvSwitch(s.threads, s.gate, c.pc, g', c'.pc);
    } else if !c.pc.Parking? && !c.pc.ParkScan? && !c.pc.Parked? {
      GateInvEnd(s, k, c, ctl', g', c'.pc);
    }
  }

  // ------------------------------------------------------------------------- the buffers

  /** The thread holds no buffer and is not about to get one. */
  predicate Freed(t: Thread) {
    t.buffer.None? && !t.pc.InitCall? && !t.pc.Initing? && !t.pc.Starting? && !t.pc.StartInit?
  }

  /** The thread has run, is running or is about to run miner_thread_init under the gate in force;
      unless its init failed its buffer is of that gate. */
  predicate Ready(g: Gate, t: Thread) {
    match t.pc
    case Starting | InitCall => true
    case StartInit(at) => at == g.regs
    case Initing(at) => at == g.regs
    case _ => t.initGate == Some(g.regs) && (t.initOk ==> t.buffer == Some(g.regs))
  }

  /** Every thread has acknowledged the current free generation. */
  predicate AllFreeAcked(g: Gate, threads: seq<Thread>) {
    forall j | 0 <= j < |threads| :: threads[j].freeAck == g.freeGen
  }

  /** How far the two-phase handover has come, and that acknowledging the init means being ready. */
  ghost predicate HandoverInv(g: Gate, pc: CallerPc, threads: seq<Thread>) {
    match pc
    case BumpFree(_, _) | Undoing => g.rewriting ==> !Handed(g)
    case Finish(ok) => !ok && g.rewriting ==> !Handed(g)
    case SetAlgo(_, _) | Registering(_, _, _) | Restoring(_) | BumpInit(_) => AllFreeAcked(g, threads)
    case WaitInit(_, i, count) =>
      && AllFreeAcked(g, threads)
      && count <= i <= |threads|
      && (count == i ==> forall j | 0 <= j < i :: threads[j].initAck == g.initGen)
      && (forall j | 0 <= j < |threads| && threads[j].initAck == g.initGen :: Ready(g, threads[j]))
    case _ => true
  }

  /** A completed handover leaves every thread ready; a gate rewritten without one has cost every
      thread its buffer.  This holds whatever times out. */
  ghost predicate ReadyInv(g: Gate, pc: CallerPc, threads: seq<Thread>) {
    && (forall j | 0 <= j < |threads| :: threads[j].pc.FreeAckRead? || threads[j].pc.FreeAckWrite? ==>
          threads[j].buffer.None?)
    && (Handed(g) ==>
          && !g.initPending && AllFreeAcked(g, threads)
          && forall j | 0 <= j < |threads| :: threads[j].initAck == g.initGen && Ready(g, threads[j]))
    && (g.rewriting && !Handed(g) ==> forall j | 0 <= j < |threads| :: g.handedGen < threads[j].freeAck)
    && HandoverInv(g, pc, threads)
  }

  lemma FreedStep(cfg: Config, state: CtlState, g: Gate, t: Thread, t': Thread)
    requires AcksOk(g, t) && ThreadStep(cfg, state, g, t, t')
    requires t.pc.FreeAckRead? || t.pc.FreeAckWrite? ==> t.buffer.None?
    ensures t'.pc.FreeAckRead? || t'.pc.FreeAckWrite? ==> t'.buffer.None?
    ensures t.freeAck == g.freeGen ==> t'.freeAck == g.freeGen
    ensures Freed(t) && t.initAck == g.initGen ==> Freed(t')
    ensures t.freeAck != g.freeGen && t'.freeAck == g.freeGen ==> Freed(t')
  {}

  /** Only giving the buffer up ends being ready. */
  lemma ReadyKept(cfg: Config, state: CtlState, g: Gate, t: Thread, t': Thread)
    requires Ready(g, t) && ThreadStep(cfg, state, g, t, t') && !t.pc.Freeing?
    ensures Ready(g, t')
  {}

  lemma ReadyStep(cfg: Config, state: CtlState, g: Gate, t: Thread, t': Thread)
    requires AcksOk(g, t) && ThreadStep(cfg, state, g, t, t')
    ensures t.initAck == g.initGen ==> t'.initAck == g.initGen
    ensures Ready(g, t) && t.freeAck == g.freeGen ==> Ready(g, t')
    ensures t.initAck != g.initGen && t'.initAck == g.initGen ==> Ready(g, t')
  {
    if Ready(g, t) && t.freeAck == g.freeGen {
      ReadyKept(cfg, state, g, t, t');
    }
  }

  /** A freed thread stays freed until an init is asked for; a ready thread stays so until a free is
      asked for; and each acknowledgement means what it says. */
  lemma HandoverStep(cfg: Config, state: CtlState, g: Gate, t: Thread, t': Thread)
    requires AcksOk(g, t) && ThreadStep(cfg, state, g, t, t')
    requires t.pc.FreeAckRead? || t.pc.FreeAckWrite? ==> t.buffer.None?
    ensures t'.pc.FreeAckRead? || t'.pc.FreeAckWrite? ==> t'.buffer.None?
    ensures t.freeAck == g.freeGen ==> t'.freeAck == g.freeGen
    ensures t.initAck == g.initGen ==> t'.initAck == g.initGen
    ensures Freed(t) && t.initAck == g.initGen ==> Freed(t')
    ensures Ready(g, t) && t.freeAck == g.freeGen ==> Ready(g, t')
    ensures t.freeAck != g.freeGen && t'.freeAck == g.freeGen ==> Freed(t')
    ensures t.initAck != g.initGen && t'.initAck == g.initGen ==> Ready(g, t')
  {
    FreedStep(cfg, state, g, t, t');
    ReadyStep(cfg, state, g, t, t');
  }

  lemma HandoverInvThread(cfg: Config, state: CtlState, g: Gate, pc: CallerPc, threads: seq<Thread>, i: nat, t': Thread)
    requires GateInv(g, pc, threads) && ReadyInv(g, pc, threads)
    requires i < |threads| && ThreadStep(cfg, state, g, threads[i], t')
    ensures HandoverInv(g, pc, threads[i := t'])
  {
    HandoverStep(cfg, state, g, threads[i], t');
  }

  lemma ReadyInvThread(cfg: Config, state: CtlState, g: Gate, pc: CallerPc, threads: seq<Thread>, i: nat, t': Thread)
    requires GateInv(g, pc, threads) && ReadyInv(g, pc, threads)
    requires i < |threads| && ThreadStep(cfg, state, g, threads[i], t')
    ensures ReadyInv(g, pc, threads[i := t'])
  {
    AcksStep(cfg, state, g, threads[i], t');
    HandoverStep(cfg, state, g, threads[i], t');
    HandoverInvThread(cfg, state, g, pc, threads, i, t');
  }

  lemma ReadyInvWait(threads: seq<Thread>, g: Gate, pc: CallerPc, g': Gate, pc': CallerPc)
    requires GateInv(g, pc, threads) && ReadyInv(g, pc, threads) && SwitchStep(threads, g, pc, g', pc')
    requires pc.BumpInit? || pc.WaitInit?
    ensures ReadyInv(g', pc', threads)
  {}

  lemma ReadyInvSwitch(threads: seq<Thread>, g: Gate, pc: CallerPc, g': Gate, pc': CallerPc)
    requires GateInv(g, pc, threads) && ReadyInv(g, pc, threads) && SwitchStep(threads, g, pc, g', pc')
    ensures ReadyInv(g', pc', threads)
  {
    if pc.BumpInit? || pc.WaitInit? {
      ReadyInvWait(threads, g, pc, g', pc');
    }
  }

  /** Outside switch_algo the handover stands still. */
  lemma ReadyInvStill(threads: seq<Thread>, g: Gate, pc: CallerPc, g': Gate, pc': CallerPc)
    requires ReadyInv(g, pc, threads) && !InsideSwitch(pc')
    requires g' == g.(park := g'.park, rewriting := g'.rewriting) && (g'.rewriting ==> g.rewriting)
    requires pc'.BumpFree? || pc'.Undoing? || pc' == Finish(false) ==>
               pc.BumpFree? || pc.Undoing? || pc == Finish(false) || !g.rewriting
    ensures ReadyInv(g', pc', threads)
  {}

  lemma ReadyInvCaller(cfg: Config, s: State, k: nat, ctl': Ctl, g': Gate, c': Caller)
    requires k < |s.callers| && InMutation(s.callers[k].pc) && CallerStep(cfg, s, k, ctl', g', c')
    requires GateInv(s.gate, s.callers[k].pc, s.threads) && ReadyInv(s.gate, s.callers[k].pc, s.threads)
    ensures ReadyInv(g', c'.pc, s.threads)
  {
    var pc := s.callers[k].pc;
    if InsideSwitch(pc) || pc.BumpFree? {
      ReadyInvSwitch(s.threads, s.gate, pc, g', c'.pc);
    } else {
      NonSwitchStep(cfg, s, k, ctl', g', c');
      ReadyInvStill(s.threads, s.gate, pc, g', c'.pc);
    }
  }

  // ------------------------------------------------------- between one handover and the next

  /** What a thread's acknowledgement says of its buffer: answering a free later than the last
      completed handover costs it, and until then the thread has what that handover gave it. */
  predicate Accounted(g: Gate, t: Thread) {
    && g.handedGen <= t.freeAck
    && (t.freeAck > g.handedGen ==> Freed(t))
    && (t.freeAck == g.handedGen && !t.pc.FreeAckRead? && !t.pc.FreeAckWrite? ==> Ready(g, t))
  }

  /** While no init wait has timed out since the last completed handover. */
  ghost predicate AccountInv(g: Gate, pc: CallerPc, threads: seq<Thread>) {
    !g.initPending && !pc.WaitInit? ==>
      forall j | 0 <= j < |threads| :: threads[j].initAck == g.initGen && Accounted(g, threads[j])
  }

  lemma AccountedStep(cfg: Config, state: CtlState, g: Gate, t: Thread, t': Thread)
    requires AcksOk(g, t) && Accounted(g, t) && t.initAck == g.initGen && ThreadStep(cfg, state, g, t, t')
    requires t.pc.FreeAckRead? || t.pc.FreeAckWrite? ==> t.buffer.None?
    ensures Accounted(g, t') && t'.initAck == g.initGen
  {
    FreedStep(cfg, state, g, t, t');
    ReadyStep(cfg, state, g, t, t');
    AcksStep(cfg, state, g, t, t');
    if Ready(g, t) && !t.pc.Freeing? {
      ReadyKept(cfg, state, g, t, t');
    }
  }

  lemma AccountInvThread(cfg: Config, state: CtlState, g: Gate, pc: CallerPc, threads: seq<Thread>, i: nat, t': Thread)
    requires GateInv(g, pc, threads) && ReadyInv(g, pc, threads) && AccountInv(g, pc, threads)
    requires i < |threads| && ThreadStep(cfg, state, g, threads[i], t')
    ensures AccountInv(g, pc, threads[i := t'])
  {
    if !g.initPending && !pc.WaitInit? {
      AccountedStep(cfg, state, g, threads[i], t');
    }
  }

  lemma AccountInvSwitch(threads: seq<Thread>, g: Gate, pc: CallerPc, g': Gate, pc': CallerPc)
    requires GateInv(g, pc, threads) && ReadyInv(g, pc, threads) && AccountInv(g, pc, threads)
    requires SwitchStep(threads, g, pc, g', pc')
    ensures AccountInv(g', pc', threads)
  {}

  lemma AccountInvCaller(cfg: Config, s: State, k: nat, ctl': Ctl, g': Gate, c': Caller)
    requires k < |s.callers| && InMutation(s.callers[k].pc) && CallerStep(cfg, s, k, ctl', g', c')
    requires GateInv(s.gate, s.callers[k].pc, s.threads) && ReadyInv(s.gate, s.callers[k].pc, s.threads)
    requires AccountInv(s.gate, s.callers[k].pc, s.threads)
    ensures AccountInv(g', c'.pc, s.threads)
  {
    var pc := s.callers[k].pc;
    if InsideSwitch(pc) || pc.BumpFree? {
      AccountInvSwitch(s.threads, s.gate, pc, g', c'.pc);
    } else {
      NonSwitchStep(cfg, s, k, ctl', g', c');
    }
  }

  // -------------------------------------------------------- while no init wait has timed out

  /** Buffers, and calls in progress, belong to the gate in force; a thread that owes an init, or is
      on its way through one, holds none, and one that holds any got it from an init that succeeded. */
  predicate BufferOk(g: Gate, t: Thread) {
    && (t.buffer.Some? ==> t.buffer.value == g.regs && t.initOk)
    && (t.initAck != g.initGen ==> Freed(t))
    && match t.pc
       case StartInit(at) => at == g.regs
       case FreeAckRead | FreeAckWrite(_) | InitAckRead | InitCall => t.buffer.None?
       case InitAckWrite(v) => v == g.initGen && t.buffer.None?
       case Initing(at) => at == g.regs && t.buffer.None?
       case _ => true
  }

  ghost predicate BufferInv(g: Gate, threads: seq<Thread>) {
    !g.initPending && forall j | 0 <= j < |threads| :: BufferOk(g, threads[j])
  }

  lemma BufferOkStep(cfg: Config, state: CtlState, g: Gate, t: Thread, t': Thread)
    requires AcksOk(g, t) && BufferOk(g, t) && ThreadStep(cfg, state, g, t, t')
    ensures BufferOk(g, t')
  {}

  lemma BufferInvSwitch(threads: seq<Thread>, g: Gate, pc: CallerPc, g': Gate, pc': CallerPc)
    requires GateInv(g, pc, threads) && ReadyInv(g, pc, threads) && AccountInv(g, pc, threads)
    requires BufferInv(g, threads) && SwitchStep(threads, g, pc, g', pc') && !g'.initTimedOut
    ensures BufferInv(g', threads)
  {}

  lemma BufferInvCaller(cfg: Config, s: State, k: nat, ctl': Ctl, g': Gate, c': Caller)
    requires k < |s.callers| && InMutation(s.callers[k].pc) && CallerStep(cfg, s, k, ctl', g', c')
    requires GateInv(s.gate, s.callers[k].pc, s.threads) && ReadyInv(s.gate, s.callers[k].pc, s.threads)
    requires AccountInv(s.gate, s.callers[k].pc, s.threads)
    requires BufferInv(s.gate, s.threads) && !g'.initTimedOut
    ensures BufferInv(g', s.threads)
  {
    var pc := s.callers[k].pc;
    if InsideSwitch(pc) || pc.BumpFree? {
      BufferInvSwitch(s.threads, s.gate, pc, g', c'.pc);
    } else {
      NonSwitchStep(cfg, s, k, ctl', g', c');
    }
  }

  // ------------------------------------------------------------- what a failed switch leaves

  /** What the mutating call knows about the outcome of its switches. */
  predicate OutcomeInv(g: Gate, c: Caller) {
    var job := c.job;
    match c.pc
    case BumpFree(_, undo) => SwitchingInv(g, job, undo, g.algo, 0)
    case WaitFree(_, undo, _, _) => SwitchingInv(g, job, undo, g.algo, 1)
    case SetAlgo(_, undo) => SwitchingInv(g, job, undo, g.algo, 1)
    case Registering(_, undo, prev) => SwitchingInv(g, job, undo, prev, 1)
    case Restoring(undo) => SwitchingInv(g, job, undo, g.algo, 1)
    case BumpInit(undo) => SwitchingInv(g, job, undo, job.prevAlgo, 1)
    case WaitInit(undo, _, _) => SwitchingInv(g, job, undo, job.prevAlgo, 1)
    case Finish(ok) => if ok then Switches(job.call) ==> Handed(g) else FailedInv(g, job)
    case Committing => Switches(job.call) ==> Handed(g)
    case Undoing => FailedInv(g, job)
    case RestoreState | ClearPark(false) => FailureInv(g, job)
    case ClearPark(true) => Switches(job.call) ==> Handed(g)
    case _ => true
  }

  /** Inside a switch.  `algo` is the algorithm a failure would go back to, `bumps` how often this
      switch has asked for the buffers. */
  predicate SwitchingInv(g: Gate, job: Job, undo: bool, algo: Algo, bumps: nat) {
    && job.call.Profile?
    && (!undo ==> algo == job.prevAlgo && Switches(job.call))
    && g.handedGen == job.held <= job.asked
    && (undo ==> job.asked + bumps <= g.freeGen && (g.initTimedOut || job.call.params != []))
    && (!undo ==> g.freeGen == job.asked + bumps)
  }

  /** The first switch failed, or was not tried. */
  predicate FailedInv(g: Gate, job: Job) {
    && (g.rewriting ==> job.call.Profile?)
    && (job.call.Profile? ==>
          && (g.initTimedOut || g.algo == job.prevAlgo) && g.handedGen == job.held <= job.asked
          && (g.freeGen == job.asked || (g.freeGen == job.asked + 1 && Switches(job.call)))
          && (g.rewriting ==> g.freeGen > job.asked))
  }

  /** The call has failed: only its second switch can have completed, and without parameters and an
      init timeout there is none. */
  predicate FailureInv(g: Gate, job: Job) {
    && (g.rewriting ==> job.call.Profile?)
    && (job.call.Profile? ==>
          && job.held <= job.asked <= g.freeGen
          && (g.handedGen == job.held || (Handed(g) && job.asked < g.freeGen))
          && (job.call.params == [] && !g.initTimedOut ==>
                g.handedGen == job.held && (job.asked < g.freeGen ==> Switches(job.call)))
          && (job.call.params != [] || g.rewriting ==> job.asked < g.freeGen))
  }

  lemma OutcomeFree(threads: seq<Thread>, g: Gate, c: Caller, g': Gate, pc': CallerPc)
    requires OutcomeInv(g, c) && SwitchStep(threads, g, c.pc, g', pc')
    requires c.pc.BumpFree? || c.pc.WaitFree? || c.pc.SetAlgo?
    ensures OutcomeInv(g', c.(pc := pc'))
  {}

  lemma OutcomeRegister(threads: seq<Thread>, g: Gate, c: Caller, g': Gate, pc': CallerPc)
    requires OutcomeInv(g, c) && SwitchStep(threads, g, c.pc, g', pc')
    requires c.pc.Registering? || c.pc.Restoring?
    ensures OutcomeInv(g', c.(pc := pc'))
  {}

  lemma OutcomeInit(threads: seq<Thread>, g: Gate, c: Caller, g': Gate, pc': CallerPc)
    requires OutcomeInv(g, c) && SwitchStep(threads, g, c.pc, g', pc')
    requires c.pc.BumpInit? || c.pc.WaitInit?
    ensures OutcomeInv(g', c.(pc := pc'))
  {}

  lemma OutcomeSwitch(threads: seq<Thread>, g: Gate, c: Caller, g': Gate, pc': CallerPc)
    requires OutcomeInv(g, c) && SwitchStep(threads, g, c.pc, g', pc')
    ensures OutcomeInv(g', c.(pc := pc'))
  {
    if c.pc.BumpFree? || c.pc.WaitFree? || c.pc.SetAlgo? {
      OutcomeFree(threads, g, c, g', pc');
    } else if c.pc.Registering? || c.pc.Restoring? {
      OutcomeRegister(threads, g, c, g', pc');
    } else {
      OutcomeInit(threads, g, c, g', pc');
    }
  }

  lemma OutcomeEnd(s: State, k: nat, c: Caller, ctl': Ctl, g': Gate, pc': CallerPc)
    requires OutcomeInv(s.gate, c) && EndStep(s, k, c, ctl', g', pc')
    ensures OutcomeInv(g', c.(pc := pc'))
  {}

  lemma OutcomePark(s: State, c: Caller, ctl': Ctl, g': Gate, c': Caller)
    requires c.pc.Parking? || c.pc.ParkScan? || c.pc.Parked?
    requires if c.pc.Parked? then g' == s.gate && ParkedStep(s.ctl, s.gate, c, ctl', c')
             else c'.job == c.job && ParkStep(s.threads, s.gate, c.pc, g', c'.pc)
    requires !s.gate.rewriting && s.gate.handedGen <= s.gate.freeGen && OutcomeInv(s.gate, c)
    ensures OutcomeInv(g', c')
  {}

  lemma OutcomeCaller(cfg: Config, s: State, k: nat, ctl': Ctl, g': Gate, c': Caller)
    requires k < |s.callers| && InMutation(s.callers[k].pc) && CallerStep(cfg, s, k, ctl', g', c')
    requires GateInv(s.gate, s.callers[k].pc, s.threads)
    requires OutcomeInv(s.gate, s.callers[k])
    ensures OutcomeInv(g', c')
  {
    var c := s.callers[k];
    if InsideSwitch(c.pc) || c.pc.BumpFree? {
      OutcomeSwitch(s.threads, s.gate, c, g', c'.pc);
    } else if c.pc.Parking? || c.pc.ParkScan? || c.pc.Parked? {
      OutcomePark(s, c, ctl', g', c');
    } else {
      OutcomeEnd(s, k, c, ctl', g', c'.pc);
    }
  }

  // ------------------------------------------------------------------------------- every run

  /** The gate and the threads, seen from the mutating caller's position. */
  ghost predicate ThreadsInv(g: Gate, pc: CallerPc, threads: seq<Thread>) {
    && GateInv(g, pc, threads)
    && ReadyInv(g, pc, threads)
    && AccountInv(g, pc, threads)
    && (!g.initTimedOut ==> BufferInv(g, threads))
  }

  /** And from the mutating caller itself. */
  ghost predicate MutationInv(s: State) {
    && ThreadsInv(s.gate, OwnerPc(s), s.threads)
    && (forall k | 0 <= k < |s.callers| && s.ctl.owner == Some(k) :: OutcomeInv(s.gate, s.callers[k]))
  }

  ghost predicate SafeInv(cfg: Config, s: State) { CtlInv(cfg, s) && MutationInv(s) }

  lemma ThreadsInvThread(cfg: Config, state: CtlState, g: Gate, pc: CallerPc, threads: seq<Thread>, i: nat, t': Thread)
    requires ThreadsInv(g, pc, threads) && (InMutation(pc) ==> cfg.enabled)
    requires i < |threads| && ThreadStep(cfg, state, g, threads[i], t')
    ensures ThreadsInv(g, pc, threads[i := t'])
  {
    GateInvThread(cfg, state, g, pc, threads, i, t');
    ReadyInvThread(cfg, state, g, pc, threads, i, t');
    AccountInvThread(cfg, state, g, pc, threads, i, t');
    if !g.initTimedOut {
      BufferOkStep(cfg, state, g, threads[i], t');
    }
  }

  lemma ThreadsInvCaller(cfg: Config, s: State, k: nat, ctl': Ctl, g': Gate, c': Caller)
    requires k < |s.callers| && InMutation(s.callers[k].pc) && CallerStep(cfg, s, k, ctl', g', c')
    requires ThreadsInv(s.gate, s.callers[k].pc, s.threads)
    ensures ThreadsInv(g', c'.pc, s.threads)
  {
    GateInvCaller(cfg, s, k, ctl', g', c');
    ReadyInvCaller(cfg, s, k, ctl', g', c');
    AccountInvCaller(cfg, s, k, ctl', g', c');
    if !g'.initTimedOut {
      InitTimeoutSticks(cfg, s, k, ctl', g', c');
      BufferInvCaller(cfg, s, k, ctl', g', c');
    }
  }

  lemma InitTimeoutSticks(cfg: Config, s: State, k: nat, ctl': Ctl, g': Gate, c': Caller)
    requires k < |s.callers| && CallerStep(cfg, s, k, ctl', g', c')
    ensures s.gate.initTimedOut ==> g'.initTimedOut
  {}

  lemma MutationThread(cfg: Config, s: State, step: Step, s': State)
    requires SafeInv(cfg, s) && NextBy(cfg, s, step, s') && step.ByThread?
    ensures MutationInv(s')
  {
    ThreadsInvThread(cfg, s.ctl.state, s.gate, OwnerPc(s), s.threads, step.i, step.t');
  }

  /** After a step of the mutating caller it is still the owner, or nobody is. */
  lemma OwnerPcAfter(cfg: Config, s: State, step: Step, s': State)
    requires CtlInv(cfg, s) && NextBy(cfg, s, step, s') && step.ByCaller? && InMutation(s.callers[step.k].pc)
    ensures s.ctl.owner == Some(step.k) && (s'.ctl.owner == None || s'.ctl.owner == Some(step.k))
    ensures OwnerPc(s) == s.callers[step.k].pc && OwnerPc(s') == step.c'.pc && s'.callers[step.k] == step.c'
  {
    assert s.ctl.owner == Some(step.k);
    OwnerStep(cfg, s, step.k, step.ctl', step.g', step.c');
  }

  lemma MutationOwner(cfg: Config, s: State, step: Step, s': State)
    requires SafeInv(cfg, s) && NextBy(cfg, s, step, s') && step.ByCaller? && InMutation(s.callers[step.k].pc)
    ensures MutationInv(s')
  {
    OwnerPcAfter(cfg, s, step, s');
    ThreadsInvCaller(cfg, s, step.k, step.ctl', step.g', step.c');
    OutcomeCaller(cfg, s, step.k, step.ctl', step.g', step.c');
  }

  lemma MutationBegin(cfg: Config, s: State, step: Step, s': State)
    requires SafeInv(cfg, s) && NextBy(cfg, s, step, s') && step.ByCaller?
    requires !InMutation(s.callers[step.k].pc) && InMutation(step.c'.pc)
    ensures MutationInv(s')
  {
    OutsideStep(cfg, s, step.k, step.ctl', step.g', step.c');
    assert s.ctl.owner.None? && OwnerPc(s') == step.c'.pc;
    assert step.c'.pc.Parking? || step.c'.pc == Finish(true);
  }

  lemma MutationOutside(cfg: Config, s: State, step: Step, s': State)
    requires SafeInv(cfg, s) && NextBy(cfg, s, step, s') && step.ByCaller?
    requires !InMutation(s.callers[step.k].pc) && !InMutation(step.c'.pc)
    ensures MutationInv(s')
  {
    OutsideStep(cfg, s, step.k, step.ctl', step.g', step.c');
    assert OwnerPc(s') == OwnerPc(s);
  }

  lemma MutationTick(cfg: Config, s: State, step: Step, s': State)
    requires SafeInv(cfg, s) && NextBy(cfg, s, step, s') && step.Tick?
    ensures MutationInv(s')
  {}

  lemma MutationCaller(cfg: Config, s: State, step: Step, s': State)
    requires SafeInv(cfg, s) && NextBy(cfg, s, step, s') && step.ByCaller?
    ensures MutationInv(s')
  {
    if InMutation(s.callers[step.k].pc) {
      MutationOwner(cfg, s, step, s');
    } else if InMutation(step.c'.pc) {
      MutationBegin(cfg, s, step, s');
    } else {
      MutationOutside(cfg, s, step, s');
    }
  }

  /** Every step of the protocol keeps every invariant. */
  lemma SafeInvStep(cfg: Config, s: State, s': State)
    requires SafeInv(cfg, s) && Next(cfg, s, s')
    ensures SafeInv(cfg, s')
  {
    var step :| NextBy(cfg, s, step, s');
    CtlInvStep(cfg, s, step, s');
    match step
    case ByThread(_, _) => MutationThread(cfg, s, step, s');
    case ByCaller(_, _, _, _) => MutationCaller(cfg, s, step, s');
    case Tick(_) => MutationTick(cfg, s, step, s');
  }

  lemma SafeInvInit(cfg: Config, s: State)
    requires Init(s)
    ensures SafeInv(cfg, s)
  {
    forall k | 0 <= k < |s.callers| ensures s.callers[k].pc.Idle? {}
    assert OwnerPc(s).Idle? && UnownedInv(s.ctl) && CtlInv(cfg, s);
    assert GateInv(s.gate, Idle, s.threads);
  }

  lemma SafeInvRunStep(cfg: Config, run: seq<State>, n: nat)
    requires IsRun(cfg, run) && n + 1 < |run| && SafeInv(cfg, run[n])
    ensures SafeInv(cfg, run[n + 1])
  {
    SafeInvStep(cfg, run[n], run[n + 1]);
  }

  lemma {:induction false} SafeInvRun(cfg: Config, run: seq<State>, n: nat)
    requires IsRun(cfg, run) && n < |run|
    ensures SafeInv(cfg, run[n])
  {
    if n == 0 {
      SafeInvInit(cfg, run[0]);
    } else {
      SafeInvRun(cfg, run, n - 1);
      SafeInvRunStep(cfg, run, n - 1);
    }
  }

  // ------------------------------------------------------------------------------ theorems

  predicate InsideRegister(pc: CallerPc) { pc.Registering? || pc.Restoring? }

  /** At most one caller is mutating, the state is SWITCHING until the mutation is decided, and
      nobody else can enter. */
  lemma OneMutationAtATime(cfg: Config, run: seq<State>, n: nat)
    requires IsRun(cfg, run) && n < |run|
    ensures forall j, k | 0 <= j < |run[n].callers| && 0 <= k < |run[n].callers| ::
              InMutation(run[n].callers[j].pc) && InMutation(run[n].callers[k].pc) ==> j == k
    ensures forall k | 0 <= k < |run[n].callers| && InMutation(run[n].callers[k].pc) ::
              run[n].ctl.state.Switching? || (run[n].callers[k].pc.ClearPark? && run[n].ctl.lock == Some(k))
    ensures run[n].ctl.state.Switching? ==>
              exists k :: 0 <= k < |run[n].callers| && InMutation(run[n].callers[k].pc)
  {
    SafeInvRun(cfg, run, n);
    var s := run[n];
    if s.ctl.state.Switching? {
      assert InMutation(s.callers[s.ctl.owner.value].pc);
    }
  }

  /** While any caller is inside register_algo_gate, no thread is inside scanhash; and from that
      call to the end of the mutation no thread enters scanhash.  Any number of threads and
      callers, any interleaving, any timeouts. */
  lemma NoScanWhileGateChanges(cfg: Config, run: seq<State>, n: nat, k: nat, i: nat)
    requires IsRun(cfg, run) && n < |run| && k < |run[n].callers| && i < |run[n].threads|
    ensures InsideRegister(run[n].callers[k].pc) ==> !run[n].threads[i].pc.Scanning?
    ensures InMutation(run[n].callers[k].pc) && run[n].gate.rewriting ==>
              && run[n].gate.park
              && !run[n].threads[i].pc.Scanning? && !run[n].threads[i].pc.PreScan?
    ensures InsideRegister(run[n].callers[k].pc) ==> run[n].gate.rewriting
  {
    SafeInvRun(cfg, run, n);
  }

  /** `rewriting` is raised by the step that enters register_algo_gate and lowered only by the step
      that ends the mutation, so the theorem above covers the whole rest of it. */
  lemma RewritingLasts(cfg: Config, s: State, s': State)
    requires SafeInv(cfg, s) && Next(cfg, s, s') && s.gate.rewriting && !s'.gate.rewriting
    ensures s.ctl.owner.Some? && OwnerPc(s).ClearPark? && s'.ctl.owner.None?
  {
    var step :| NextBy(cfg, s, step, s');
    OutsideKeepsGate(cfg, s, step, s');
    OwnerPcAfter(cfg, s, step, s');
    OnlyTheEndClears(cfg, s, step.k, step.ctl', step.g', step.c');
  }

  lemma OnlyTheEndClears(cfg: Config, s: State, k: nat, ctl': Ctl, g': Gate, c': Caller)
    requires k < |s.callers| && CallerStep(cfg, s, k, ctl', g', c') && s.gate.rewriting && !g'.rewriting
    ensures s.callers[k].pc.ClearPark? && ctl'.owner.None?
  {}

  lemma OutsideKeepsGate(cfg: Config, s: State, step: Step, s': State)
    requires NextBy(cfg, s, step, s')
    ensures !step.ByCaller? || !InMutation(s.callers[step.k].pc) ==> s'.gate == s.gate
  {
    if step.ByCaller? && !InMutation(s.callers[step.k].pc) {
      OutsideStep(cfg, s, step.k, step.ctl', step.g', step.c');
    }
  }

  /** As long as no init wait has timed out: a thread inside miner_thread_free holds no buffer or
      one allocated under the gate in force, and a thread inside miner_thread_init is inside the
      one of the gate in force. */
  lemma FreeMeetsItsOwnGate(cfg: Config, run: seq<State>, n: nat, i: nat)
    requires IsRun(cfg, run) && n < |run| && i < |run[n].threads| && !run[n].gate.initTimedOut
    ensures var t := run[n].threads[i];
            && (t.pc.Freeing? ==> t.buffer.None? || t.buffer == Some(run[n].gate.regs))
            && (t.pc.Initing? ==> t.pc.gate == run[n].gate.regs)
            && (t.buffer.Some? ==> t.buffer.value == run[n].gate.regs)
  {
    SafeInvRun(cfg, run, n);
  }

  // ------------------------------------------------------------------- along a whole run

  /** One step never turns a generation, an acknowledgement or a timeout back, and registers a gate
      or completes a handover only after asking for the buffers. */
  predicate Progress(s: State, s': State) {
    && s.gate.freeGen <= s'.gate.freeGen && s.gate.initGen <= s'.gate.initGen
    && s.gate.handedGen <= s'.gate.handedGen && (s.gate.initTimedOut ==> s'.gate.initTimedOut)
    && (s.gate.initPending && s.gate.handedGen == s'.gate.handedGen ==> s'.gate.initPending)
    && |s.threads| == |s'.threads|
    && (forall i | 0 <= i < |s.threads| :: s.threads[i].freeAck <= s'.threads[i].freeAck)
    && (s.gate.freeGen == s'.gate.freeGen && !InsideSwitch(OwnerPc(s)) ==>
          && !InsideSwitch(OwnerPc(s'))
          && s.gate.regs == s'.gate.regs && s.gate.handedGen == s'.gate.handedGen)
  }

  lemma ProgressRun(cfg: Config, run: seq<State>)
    requires IsRun(cfg, run)
    ensures forall i | 0 <= i < |run| - 1 :: Progress(run[i], run[i + 1])
  {
    forall i | 0 <= i < |run| - 1 ensures Progress(run[i], run[i + 1]) {
      SafeInvRun(cfg, run, i);
      ProgressStep(cfg, run[i], run[i + 1]);
    }
  }

  lemma ProgressStep(cfg: Config, s: State, s': State)
    requires SafeInv(cfg, s) && Next(cfg, s, s')
    ensures Progress(s, s')
  {
    var step :| NextBy(cfg, s, step, s');
    if step.ByThread? {
      ProgressThread(cfg, s, step, s');
    } else if step.ByCaller? && InMutation(s.callers[step.k].pc) {
      ProgressOwner(cfg, s, step, s');
    } else if step.ByCaller? {
      ProgressOutside(cfg, s, step, s');
    }
  }

  lemma ProgressThread(cfg: Config, s: State, step: Step, s': State)
    requires SafeInv(cfg, s) && NextBy(cfg, s, step, s') && step.ByThread?
    ensures Progress(s, s')
  {
    AcksStep(cfg, s.ctl.state, s.gate, s.threads[step.i], step.t');
  }

  lemma ProgressOutside(cfg: Config, s: State, step: Step, s': State)
    requires CtlInv(cfg, s) && NextBy(cfg, s, step, s') && step.ByCaller? && !InMutation(s.callers[step.k].pc)
    ensures Progress(s, s')
  {
    OutsideStep(cfg, s, step.k, step.ctl', step.g', step.c');
  }

  lemma ProgressOwner(cfg: Config, s: State, step: Step, s': State)
    requires SafeInv(cfg, s) && NextBy(cfg, s, step, s') && step.ByCaller? && InMutation(s.callers[step.k].pc)
    ensures Progress(s, s')
  {
    var pc := s.callers[step.k].pc;
    OwnerPcAfter(cfg, s, step, s');
    if InsideSwitch(pc) || pc.BumpFree? {
      SwitchGrows(s.threads, s.gate, pc, step.g', step.c'.pc);
    } else {
      NonSwitchStep(cfg, s, step.k, step.ctl', step.g', step.c');
    }
  }

  lemma SwitchGrows(threads: seq<Thread>, g: Gate, pc: CallerPc, g': Gate, pc': CallerPc)
    requires GateInv(g, pc, threads) && SwitchStep(threads, g, pc, g', pc')
    ensures g.freeGen <= g'.freeGen && g.initGen <= g'.initGen && g.handedGen <= g'.handedGen
    ensures g.initTimedOut ==> g'.initTimedOut
    ensures g.initPending && g.handedGen == g'.handedGen ==> g'.initPending
    ensures pc.BumpFree? ==> g.freeGen < g'.freeGen
  {}

  lemma {:induction false} ProgressBetween(run: seq<State>, m: nat, n: nat)
    requires forall i | 0 <= i < |run| - 1 :: Progress(run[i], run[i + 1])
    requires m <= n < |run|
    ensures Progress(run[m], run[n])
    decreases n
  {
    if m < n {
      ProgressBetween(run, m, n - 1);
      assert Progress(run[n - 1], run[n - 1 + 1]);
    }
  }

  /** After a successful switch, and until the next one asks for buffers back, the gate stays the
      one it registered and every thread found in scanhash has run miner_thread_init under it;
      unless that init reported failure the thread's buffer was allocated under it too.  Whatever timed
      out before, or does since. */
  lemma InitBeforeNextScan(cfg: Config, run: seq<State>, m: nat, n: nat, k: nat, i: nat)
    requires IsRun(cfg, run) && m <= n < |run|
    requires k < |run[m].callers| && run[m].callers[k].pc == ClearPark(true) && Switches(run[m].callers[k].job.call)
    requires run[n].gate.freeGen == run[m].gate.freeGen
    requires i < |run[n].threads| && run[n].threads[i].pc.Scanning?
    ensures run[n].gate.regs == run[m].gate.regs
    ensures run[n].threads[i].initGate == Some(run[m].gate.regs)
    ensures run[n].threads[i].initOk ==> run[n].threads[i].buffer == Some(run[m].gate.regs)
  {
    ProgressRun(cfg, run);
    ProgressBetween(run, m, n);
    SuccessHandsOver(cfg, run, m, k);
    HandedIsReady(cfg, run, n, i);
  }

  lemma SuccessHandsOver(cfg: Config, run: seq<State>, m: nat, k: nat)
    requires IsRun(cfg, run) && m < |run|
    requires k < |run[m].callers| && run[m].callers[k].pc == ClearPark(true) && Switches(run[m].callers[k].job.call)
    ensures Handed(run[m].gate) && OwnerPc(run[m]).ClearPark?
  {
    SafeInvRun(cfg, run, m);
    assert run[m].ctl.owner == Some(k);
  }

  lemma HandedIsReady(cfg: Config, run: seq<State>, n: nat, i: nat)
    requires IsRun(cfg, run) && n < |run| && i < |run[n].threads| && run[n].threads[i].pc.Scanning?
    ensures run[n].gate.handedGen <= run[n].gate.freeGen
    ensures Handed(run[n].gate) ==> Ready(run[n].gate, run[n].threads[i])
  {
    SafeInvRun(cfg, run, n);
  }

  /** Exactly which threads hash with a buffer, while no init wait has timed out since the last
      completed handover: those that have answered a later request for it have none, the others have
      run miner_thread_init under the gate in force and, where it succeeded, hold its buffer.  If no
      init wait ever timed out, a thread whose init failed holds none. */
  lemma BufferInScan(cfg: Config, run: seq<State>, n: nat, i: nat)
    requires IsRun(cfg, run) && n < |run| && !run[n].gate.initPending
    requires i < |run[n].threads| && run[n].threads[i].pc.Scanning?
    ensures var g, t := run[n].gate, run[n].threads[i];
            && (t.freeAck > g.handedGen ==> t.buffer.None?)
            && (t.freeAck <= g.handedGen ==>
                  t.initGate == Some(g.regs) && (t.initOk ==> t.buffer == Some(g.regs)))
            && (!g.initTimedOut ==> (t.buffer == Some(g.regs) <==> t.freeAck <= g.handedGen && t.initOk))
            && (!g.initTimedOut ==> (t.buffer.None? <==> t.freeAck > g.handedGen || !t.initOk))
  {
    SafeInvRun(cfg, run, n);
    ScanningIsPlaced(cfg, run[n], i);
  }

  /** No thread is in scanhash while an init is awaited. */
  lemma ScanningIsPlaced(cfg: Config, s: State, i: nat)
    requires SafeInv(cfg, s) && i < |s.threads| && s.threads[i].pc.Scanning?
    ensures !OwnerPc(s).WaitInit?
  {}

  /** A thread that has given its buffer up, or answers a pending request for it, however old, hashes
      without one until a handover completes or an init wait times out. */
  lemma BareUntilHandover(cfg: Config, run: seq<State>, m: nat, n: nat, i: nat)
    requires IsRun(cfg, run) && m <= n < |run| && !run[n].gate.initPending && i < |run[m].threads|
    requires run[n].gate.handedGen == run[m].gate.handedGen
    ensures i < |run[n].threads|
    ensures run[m].gate.handedGen < run[m].threads[i].freeAck
            || run[m].threads[i].freeAck < run[n].threads[i].freeAck ==>
              (run[n].threads[i].pc.Scanning? ==> run[n].threads[i].buffer.None?)
  {
    ProgressRun(cfg, run);
    ProgressBetween(run, m, n);
    SafeInvRun(cfg, run, m);
    if run[n].threads[i].pc.Scanning? {
      BufferInScan(cfg, run, n, i);
      AcksCoverHandover(cfg, run[m], i);
    }
  }

  lemma AcksCoverHandover(cfg: Config, s: State, i: nat)
    requires SafeInv(cfg, s) && i < |s.threads| && !s.gate.initPending
    ensures s.gate.handedGen <= s.threads[i].freeAck
  {}

  /** What a failed profile leaves to a thread found in scanhash before the next request for buffers,
      whether or not the gate was touched and whichever wait gave up, as long as no init wait has
      timed out since the last completed handover.  `job.asked` and `job.held` are the generations the
      call met. */
  lemma FailedSwitchOutcome(cfg: Config, run: seq<State>, m: nat, n: nat, k: nat, i: nat)
    requires IsRun(cfg, run) && m <= n < |run| && !run[n].gate.initPending
    requires k < |run[m].callers| && run[m].callers[k].pc == ClearPark(false) && run[m].callers[k].job.call.Profile?
    requires run[n].gate.freeGen == run[m].gate.freeGen
    requires i < |run[n].threads| && run[n].threads[i].pc.Scanning?
    ensures var g, job, t := run[m].gate, run[m].callers[k].job, run[n].threads[i];
            // the gate stays, and the thread's buffer is of it or missing, by its own acknowledgement
            && run[n].gate.regs == g.regs
            && (t.freeAck > g.handedGen ==> t.buffer.None?)
            && (t.freeAck <= g.handedGen && t.initOk ==> t.buffer == Some(g.regs))
            // a rollback that ran to the end makes every thread whole
            && (Handed(g) && t.initOk ==> t.buffer == Some(g.regs))
            // otherwise the last handover is the one before the call
            && (!Handed(g) ==> g.handedGen == job.held)
            // once the gate was touched and not handed over, nobody holds a buffer
            && (g.rewriting && !Handed(g) ==> t.buffer.None?)
    ensures var g, job, t := run[m].gate, run[m].callers[k].job, run[n].threads[i];
            !run[n].gate.initTimedOut ==>
              && (t.buffer == Some(g.regs) <==> t.freeAck <= g.handedGen && t.initOk)
              && (t.buffer.None? <==> t.freeAck > g.handedGen || !t.initOk)
              // without parameters there is no rollback: whole only if it was and nothing was asked for
              && (job.call.params == [] ==> (Handed(g) <==> job.held == job.asked == g.freeGen))
              && (g.rewriting && job.call.params == [] ==> t.buffer.None?)
  {
    ProgressRun(cfg, run);
    ProgressBetween(run, m, n);
    SafeInvRun(cfg, run, m);
    BufferInScan(cfg, run, n, i);
    AcksBounded(cfg, run, n, i);
  }

  lemma AcksBounded(cfg: Config, run: seq<State>, n: nat, i: nat)
    requires IsRun(cfg, run) && n < |run| && i < |run[n].threads|
    ensures run[n].threads[i].freeAck <= run[n].gate.freeGen
  {
    SafeInvRun(cfg, run, n);
  }

  // ------------------------------------------- what a failed switch can do to a thread: four runs

  /** Some run ends in s. */
  ghost predicate Reachable(cfg: Config, s: State) {
    exists run :: IsRun(cfg, run) && run[|run| - 1] == s
  }

  lemma Extend(cfg: Config, s: State, step: Step, s': State)
    requires Reachable(cfg, s) && NextBy(cfg, s, step, s')
    ensures Reachable(cfg, s')
  {
    var run :| IsRun(cfg, run) && run[|run| - 1] == s;
    var run' := run + [s'];
    forall i | 0 <= i < |run'| - 1 ensures Next(cfg, run'[i], run'[i + 1]) {
      if i < |run| - 1 {
        assert Next(cfg, run[i], run[i + 1]);
      }
    }
    assert IsRun(cfg, run') && run'[|run'| - 1] == s';
  }

  lemma ThreadMove(cfg: Config, s: State, t': Thread) returns (s': State)
    requires Reachable(cfg, s) && |s.threads| == 1 && ThreadStep(cfg, s.ctl.state, s.gate, s.threads[0], t')
    ensures s' == s.(threads := [t']) && Reachable(cfg, s')
  {
    s' := s.(threads := [t']);
    assert s.threads[0 := t'] == [t'];
    Extend(cfg, s, ByThread(0, t'), s');
  }

  lemma CallerMove(cfg: Config, s: State, ctl': Ctl, g': Gate, c': Caller) returns (s': State)
    requires Reachable(cfg, s) && |s.callers| == 1 && CallerStep(cfg, s, 0, ctl', g', c')
    ensures s' == s.(ctl := ctl', gate := g', callers := [c']) && Reachable(cfg, s')
  {
    s' := s.(ctl := ctl', gate := g', callers := [c']);
    assert s.callers[0 := c'] == [c'];
    Extend(cfg, s, ByCaller(0, ctl', g', c'), s');
  }

  /** A move inside switch_algo. */
  lemma SwitchMove(cfg: Config, s: State, g': Gate, pc': CallerPc) returns (s': State)
    requires Reachable(cfg, s) && |s.callers| == 1
    requires SwitchStep(s.threads, s.gate, s.callers[0].pc, g', pc')
    ensures s' == s.(gate := g', callers := [s.callers[0].(pc := pc')]) && Reachable(cfg, s')
  {
    s' := CallerMove(cfg, s, s.ctl, g', s.callers[0].(pc := pc'));
  }

  /** A move inside the last critical section. */
  lemma EndMove(cfg: Config, s: State, ctl': Ctl, g': Gate, pc': CallerPc) returns (s': State)
    requires Reachable(cfg, s) && |s.callers| == 1 && EndStep(s, 0, s.callers[0], ctl', g', pc')
    ensures s' == s.(ctl := ctl', gate := g', callers := [s.callers[0].(pc := pc')]) && Reachable(cfg, s')
  {
    s' := CallerMove(cfg, s, ctl', g', s.callers[0].(pc := pc'));
  }

  const DEMO_CALL := Profile(Some(7), true, [], None)
  const DEMO_JOB := Job(DEMO_CALL, 7, 3, NO_PARAMS, 0, 0, Snapshot(Running, 0, 0, 0, map[], 1))
  const DEMO_CTL := Ctl(Running, Running, 0, 0, 0, map[], None, None, [], [])
  const DEMO_SWITCHING := DEMO_CTL.(state := Switching, owner := Some(0))
  const DEMO_UNDONE := DEMO_SWITCHING.(lock := Some(0), stored := map[7 := NO_PARAMS])
  const DEMO_GATE := Gate(false, 0, 0, 3, 0, false, 0, false, false)

  /** One thread starts up and one caller asks for algorithm 7. */
  lemma DemoStart(cfg: Config) returns (s: State)
    requires cfg.enabled
    ensures Reachable(cfg, s)
    ensures s == State(DEMO_CTL, DEMO_GATE, 1, [Thread(Top, false, 0, 0, Some(0), Some(0), true)],
                       [Caller(Entered, DEMO_JOB.(snap := DEMO_JOB.snap.(time := 0)))])
  {
    var t := Thread(Starting, false, 0, 0, None, None, false);
    var job := DEMO_JOB.(snap := DEMO_JOB.snap.(time := 0));
    s := State(DEMO_CTL, DEMO_GATE, 1, [t], [Caller(Idle, job)]);
    assert IsRun(cfg, [s]) && [s][|[s]| - 1] == s;
    s := ThreadMove(cfg, s, t.(pc := StartInit(0)));
    s := ThreadMove(cfg, s, Thread(Top, false, 0, 0, Some(0), Some(0), true));
    assert EnterWith(cfg, DEMO_CTL, 3, Caller(Idle, job), DEMO_CALL, DEMO_CTL, Caller(Entered, job));
    s := CallerMove(cfg, s, DEMO_CTL, DEMO_GATE, Caller(Entered, job));
  }

  /** The call wins the lock and raises the park request; the thread parks. */
  lemma DemoBegin(cfg: Config) returns (s: State)
    requires cfg.enabled
    ensures Reachable(cfg, s)
    ensures s == State(DEMO_SWITCHING, DEMO_GATE.(park := true), 1,
                       [Thread(FreeCheck, true, 0, 0, Some(0), Some(0), true)], [Caller(ParkScan(0, 0), DEMO_JOB)])
  {
    s := DemoStart(cfg);
    var t := s.threads[0];
    s := CallerMove(cfg, s, DEMO_SWITCHING, DEMO_GATE, Caller(Parking, DEMO_JOB));
    s := CallerMove(cfg, s, DEMO_SWITCHING, DEMO_GATE.(park := true), Caller(ParkScan(0, 0), DEMO_JOB));
    s := ThreadMove(cfg, s, t.(pc := SetParked(true)));
    s := ThreadMove(cfg, s, t.(pc := FreeCheck, parked := true));
  }

  /** The switch begins. */
  lemma DemoPark(cfg: Config) returns (s: State)
    requires cfg.enabled
    ensures Reachable(cfg, s)
    ensures s == State(DEMO_SWITCHING, DEMO_GATE.(park := true, freeGen := 1), 1,
                       [Thread(FreeCheck, true, 0, 0, Some(0), Some(0), true)],
                       [Caller(WaitFree(7, false, 0, 0), DEMO_JOB)])
  {
    s := DemoBegin(cfg);
    s := CallerMove(cfg, s, s.ctl, s.gate, Caller(ParkScan(1, 1), DEMO_JOB));
    s := CallerMove(cfg, s, s.ctl, s.gate, Caller(Parked(true), DEMO_JOB));
    s := CallerMove(cfg, s, s.ctl, s.gate, Caller(BumpFree(7, false), DEMO_JOB));
    s := SwitchMove(cfg, s, s.gate.(freeGen := 1), WaitFree(7, false, 0, 0));
  }

  /** The thread gives its buffer up. */
  lemma DemoFree(cfg: Config) returns (s: State)
    requires cfg.enabled
    ensures Reachable(cfg, s)
    ensures s == State(DEMO_SWITCHING, DEMO_GATE.(park := true, freeGen := 1), 1,
                       [Thread(Top, true, 1, 0, None, Some(0), true)], [Caller(WaitFree(7, false, 0, 0), DEMO_JOB)])
  {
    s := DemoPark(cfg);
    var t := s.threads[0];
    s := ThreadMove(cfg, s, t.(pc := Freeing));
    t := t.(buffer := None);
    s := ThreadMove(cfg, s, t.(pc := FreeAckRead));
    s := ThreadMove(cfg, s, t.(pc := FreeAckWrite(1)));
    t := t.(freeAck := 1);
    s := ThreadMove(cfg, s, t.(pc := InitCheck));
    s := ThreadMove(cfg, s, t.(pc := Top));
  }

  /** The switch begins to register the new algorithm. */
  lemma DemoRegister(cfg: Config) returns (s: State)
    requires cfg.enabled
    ensures Reachable(cfg, s)
    ensures s == State(DEMO_SWITCHING, Gate(true, 1, 0, 7, 0, true, 0, false, false), 1,
                       [Thread(Top, true, 1, 0, None, Some(0), true)], [Caller(Registering(7, false, 3), DEMO_JOB)])
  {
    s := DemoFree(cfg);
    s := SwitchMove(cfg, s, s.gate, WaitFree(7, false, 1, 1));
    s := SwitchMove(cfg, s, s.gate, SetAlgo(7, false));
    s := SwitchMove(cfg, s, s.gate.(algo := 7, rewriting := true), Registering(7, false, 3));
  }

  /** The new algorithm does not fit and the old gate comes back. */
  lemma DemoRefuse(cfg: Config) returns (s: State)
    requires cfg.enabled
    ensures Reachable(cfg, s)
    ensures s == State(DEMO_SWITCHING, Gate(true, 1, 0, 3, 2, true, 0, false, false), 1,
                       [Thread(Top, true, 1, 0, None, Some(0), true)], [Caller(Finish(false), DEMO_JOB)])
  {
    s := DemoRegister(cfg);
    s := SwitchMove(cfg, s, s.gate.(regs := 1, algo := 3), Restoring(false));
    s := SwitchMove(cfg, s, s.gate.(regs := 2), Finish(false));
  }

  /** The failing call takes the lock and puts the parameters back. */
  lemma DemoUndo(cfg: Config, s: State) returns (s': State)
    requires Reachable(cfg, s) && s.ctl == DEMO_SWITCHING && s.callers == [Caller(Finish(false), DEMO_JOB)]
    ensures Reachable(cfg, s')
    ensures s' == s.(ctl := DEMO_UNDONE, callers :=
                       [Caller(if s.gate.algo != 3 then BumpFree(3, true) else RestoreState, DEMO_JOB)])
  {
    s' := EndMove(cfg, s, s.ctl.(lock := Some(0)), s.gate, Undoing);
    assert s'.ctl.stored[7 := NO_PARAMS] == map[7 := NO_PARAMS];
    s' := EndMove(cfg, s', DEMO_UNDONE, s.gate, if s.gate.algo != 3 then BumpFree(3, true) else RestoreState);
  }

  /** It answers, and releases the threads. */
  lemma DemoRelease(cfg: Config, s: State) returns (s': State)
    requires Reachable(cfg, s) && s.ctl == DEMO_UNDONE && s.callers == [Caller(RestoreState, DEMO_JOB)]
    ensures Reachable(cfg, s') && s'.threads == s.threads && s'.gate == s.gate.(park := false, rewriting := false)
    ensures s'.ctl.state == Running && s'.ctl.owner.None?
  {
    var ctl := Decide(DEMO_UNDONE, DEMO_CALL, Failed, Running).(state := Running);
    s' := EndMove(cfg, s, ctl, s.gate, ClearPark(false));
    ctl := ctl.(lock := None, owner := None);
    s' := EndMove(cfg, s', ctl, s.gate.(park := false, rewriting := false), Idle);
  }

  /** The released thread reads the flags and goes on to hash. */
  lemma DemoScan(cfg: Config, s: State) returns (s': State)
    requires cfg.enabled && Reachable(cfg, s) && !s.gate.park && s.ctl.state == Running
    requires |s.threads| == 1 && s.threads[0].pc.Top?
    ensures Reachable(cfg, s') && s' == s.(threads := [s.threads[0].(pc := Scanning, parked := false)])
  {
    var t := s.threads[0];
    s' := ThreadMove(cfg, s, t.(pc := ReadPaused));
    s' := ThreadMove(cfg, s', t.(pc := ReadStopped));
    s' := ThreadMove(cfg, s', t.(pc := SetParked(false)));
    t := t.(parked := false);
    s' := ThreadMove(cfg, s', t.(pc := PreScan));
    s' := ThreadMove(cfg, s', t.(pc := Scanning));
  }

  /** "Every thread found in scanhash holds a buffer" is false: in this run no init wait times out,
      a switch without parameters is refused, and the thread goes on to hash without a buffer. */
  lemma StrandedThread(cfg: Config) returns (s: State)
    requires cfg.enabled
    ensures Reachable(cfg, s) && !s.gate.initTimedOut && s.ctl.owner.None?
    ensures |s.threads| == 1 && s.threads[0].pc.Scanning? && s.threads[0].buffer.None?
  {
    s := DemoRefuse(cfg);
    s := DemoUndo(cfg, s);
    s := DemoRelease(cfg, s);
    s := DemoScan(cfg, s);
  }

  /** The thread is inside miner_thread_free when the wait for it gives up. */
  lemma DemoGiveUp(cfg: Config) returns (s: State)
    requires cfg.enabled
    ensures Reachable(cfg, s)
    ensures s == State(DEMO_SWITCHING, DEMO_GATE.(park := true, freeGen := 1), 1,
                       [Thread(Freeing, true, 0, 0, Some(0), Some(0), true)], [Caller(Finish(false), DEMO_JOB)])
  {
    s := DemoPark(cfg);
    s := ThreadMove(cfg, s, s.threads[0].(pc := Freeing));
    s := SwitchMove(cfg, s, s.gate, WaitFree(7, false, 1, 0));
    s := SwitchMove(cfg, s, s.gate, Finish(false));
  }

  /** Nor does it take a refused registration: when the wait for the buffers times out the gate is
      never touched, and the thread still ends up hashing without one. */
  lemma LateFreeStrands(cfg: Config) returns (s: State)
    requires cfg.enabled
    ensures Reachable(cfg, s) && !s.gate.initTimedOut && s.ctl.owner.None? && s.gate.regs == 0
    ensures |s.threads| == 1 && s.threads[0].pc.Scanning? && s.threads[0].buffer.None?
  {
    s := DemoGiveUp(cfg);
    s := DemoUndo(cfg, s);
    s := DemoRelease(cfg, s);
    var t := s.threads[0].(buffer := None);
    s := ThreadMove(cfg, s, t.(pc := FreeAckRead));
    s := ThreadMove(cfg, s, t.(pc := FreeAckWrite(1)));
    t := t.(freeAck := 1);
    s := ThreadMove(cfg, s, t.(pc := InitCheck));
    s := ThreadMove(cfg, s, t.(pc := Top));
    s := DemoScan(cfg, s);
  }

  /** The new algorithm is registered, the wait for the inits gives up, and the rollback asks for the
      buffers again. */
  lemma DemoInitGivesUp(cfg: Config) returns (s: State)
    requires cfg.enabled
    ensures Reachable(cfg, s)
    ensures s == State(DEMO_UNDONE, Gate(true, 2, 1, 7, 1, true, 0, true, true), 1,
                       [Thread(Top, true, 1, 0, None, Some(0), true)], [Caller(WaitFree(3, true, 0, 0), DEMO_JOB)])
  {
    s := DemoRegister(cfg);
    s := SwitchMove(cfg, s, s.gate.(regs := 1), BumpInit(false));
    s := SwitchMove(cfg, s, s.gate.(initGen := 1), WaitInit(false, 0, 0));
    s := SwitchMove(cfg, s, s.gate, WaitInit(false, 1, 0));
    s := SwitchMove(cfg, s, s.gate.(initPending := true, initTimedOut := true), Finish(false));
    s := DemoUndo(cfg, s);
    s := SwitchMove(cfg, s, s.gate.(freeGen := 2), WaitFree(3, true, 0, 0));
  }

  /** The thread answers the second request for its buffer and at once serves the pending init. */
  lemma DemoBothServed(cfg: Config, s: State) returns (s': State)
    requires cfg.enabled && Reachable(cfg, s) && s.threads == [Thread(Top, true, 1, 0, None, Some(0), true)]
    requires s.gate == Gate(true, 2, 1, 7, 1, true, 0, true, true)
    ensures Reachable(cfg, s') && s' == s.(threads := [Thread(Initing(1), true, 2, 1, None, Some(0), true)])
  {
    var t := s.threads[0];
    s' := ThreadMove(cfg, s, t.(pc := SetParked(true)));
    s' := ThreadMove(cfg, s', t.(pc := FreeCheck));
    s' := ThreadMove(cfg, s', t.(pc := Freeing));
    s' := ThreadMove(cfg, s', t.(pc := FreeAckRead));
    s' := ThreadMove(cfg, s', t.(pc := FreeAckWrite(2)));
    t := t.(freeAck := 2);
    s' := ThreadMove(cfg, s', t.(pc := InitCheck));
    s' := ThreadMove(cfg, s', t.(pc := InitAckRead));
    s' := ThreadMove(cfg, s', t.(pc := InitAckWrite(1)));
    t := t.(initAck := 1);
    s' := ThreadMove(cfg, s', t.(pc := InitCall));
    s' := ThreadMove(cfg, s', t.(pc := Initing(1)));
  }

  /** After an init wait has timed out an acknowledged free no longer keeps a thread out of
      miner_thread_init: here it is inside it while the rollback rewrites the gate. */
  lemma InitMeetsRewrite(cfg: Config) returns (s: State)
    requires cfg.enabled
    ensures Reachable(cfg, s)
    ensures s == State(DEMO_UNDONE, Gate(true, 2, 1, 3, 1, true, 0, true, true), 1,
                       [Thread(Initing(1), true, 2, 1, None, Some(0), true)],
                       [Caller(Registering(3, true, 7), DEMO_JOB)])
  {
    s := DemoInitGivesUp(cfg);
    s := DemoBothServed(cfg, s);
    s := SwitchMove(cfg, s, s.gate, WaitFree(3, true, 1, 1));
    s := SwitchMove(cfg, s, s.gate, SetAlgo(3, true));
    s := SwitchMove(cfg, s, s.gate.(algo := 3), Registering(3, true, 7));
  }

  /** The rollback registers the old gate, and its own wait for the inits gives up too. */
  lemma DemoRollbackGivesUp(cfg: Config) returns (s: State)
    requires cfg.enabled
    ensures Reachable(cfg, s)
    ensures s == State(DEMO_UNDONE, Gate(true, 2, 2, 3, 2, true, 0, true, true), 1,
                       [Thread(Top, true, 2, 1, Some(1), Some(1), true)], [Caller(RestoreState, DEMO_JOB)])
  {
    s := InitMeetsRewrite(cfg);
    s := SwitchMove(cfg, s, s.gate.(regs := 2), BumpInit(true));
    s := SwitchMove(cfg, s, s.gate.(initGen := 2), WaitInit(true, 0, 0));
    s := SwitchMove(cfg, s, s.gate, WaitInit(true, 1, 0));
    s := SwitchMove(cfg, s, s.gate, RestoreState);
    s := ThreadMove(cfg, s, Thread(Top, true, 2, 1, Some(1), Some(1), true));
  }

  /** So without "no init wait has timed out since the last completed handover" the theorems above
      fail: the thread has answered a request later than the last handover, and hashes under gate 2 with
      the buffer of gate 1. */
  lemma ForeignBuffer(cfg: Config) returns (s: State)
    requires cfg.enabled
    ensures Reachable(cfg, s) && s.ctl.owner.None? && s.gate.initPending
    ensures |s.threads| == 1 && s.threads[0].pc.Scanning? && s.gate.handedGen < s.threads[0].freeAck
    ensures s.threads[0].buffer == Some(1) && s.gate.regs == 2
  {
    s := DemoRollbackGivesUp(cfg);
    s := DemoRelease(cfg, s);
    s := DemoScan(cfg, s);
  }
}
