/** Who hashes what: the per-thread nonce ranges of std_get_new_work, the extranonce2 counter of
    stratum_gen_work, and the part of the miner_thread loop that moves between the two, on stratum.

    The model is a transition system over any number of miner threads and the stratum thread.  A
    scan is one step, recorded when it ends; it ends after any number of batches its loop may do,
    a last_nonce that wraps round included. */
module Nonces {
  import opened Scan
  import opened Words
  import Radix

  // --------------------------------------------------------------------- the extranonce2 counter

  /** Little-endian value. */
  function LeValue(s: seq<int>): int { if s == [] then 0 else s[0] + 256 * LeValue(s[1..]) }

  /** The counter one step on: zero the leading 255s, then add one to the next byte, if any. */
  function Stepped(s: seq<int>): seq<int> {
    if s == [] then [] else if s[0] == 255 then [0] + Stepped(s[1..]) else [s[0] + 1] + s[1..]
  }

  /** The increment loop of stratum_gen_work, in place: each byte is incremented, and the loop goes on
      while the result is zero. */
  method StepXnonce2(xnonce2: array<int>)
    requires Radix.IsBase(xnonce2[..], 256)
    modifies xnonce2
    ensures xnonce2[..] == Stepped(old(xnonce2[..]))
  {
    ghost var was := xnonce2[..];
    var t := 0;
    while t < xnonce2.Length && xnonce2[t] == 255
      invariant 0 <= t <= xnonce2.Length && xnonce2[..] == Zeros(t) + was[t..]
      invariant Stepped(was) == Zeros(t) + Stepped(was[t..])
    {
      CarryByte(was, t);
      xnonce2[t] := 0;
      t := t + 1;
    }
    if t < xnonce2.Length {
      StopByte(was, t);
      xnonce2[t] := xnonce2[t] + 1;
    }
  }

  lemma CarryByte(was: seq<int>, t: nat)
    requires t < |was| && was[t] == 255
    ensures Zeros(t) + Stepped(was[t..]) == Zeros(t + 1) + Stepped(was[t + 1..])
    ensures (Zeros(t) + was[t..])[t := 0] == Zeros(t + 1) + was[t + 1..]
  {
    assert was[t..][1..] == was[t + 1..];
    assert Zeros(t + 1) == Zeros(t) + [0];
  }

  lemma StopByte(was: seq<int>, t: nat)
    requires t < |was| && was[t] != 255
    ensures Zeros(t) + Stepped(was[t..]) == (Zeros(t) + was[t..])[t := was[t] + 1]
  {
    assert was[t..][1..] == was[t + 1..];
  }

  function Zeros(n: nat): (z: seq<int>)
    ensures |z| == n && forall i | 0 <= i < n :: z[i] == 0
  {
    seq(n, i => 0)
  }

  lemma {:induction false} LeValueBound(s: seq<int>)
    requires Radix.IsBase(s, 256)
    ensures 0 <= LeValue(s) < Radix.Pow(256, |s|)
  {
    if s != [] {
      assert Radix.IsBase(s[1..], 256);
      LeValueBound(s[1..]);
    }
  }

  /** The stepped bytes are the value plus one, modulo 256^size. */
  lemma {:induction false} SteppedCounts(s: seq<int>)
    requires Radix.IsBase(s, 256)
    ensures Radix.IsBase(Stepped(s), 256) && |Stepped(s)| == |s|
    ensures LeValue(Stepped(s)) == if LeValue(s) + 1 == Radix.Pow(256, |s|) then 0 else LeValue(s) + 1
  {
    if s != [] {
      var rest := s[1..];
      assert Radix.IsBase(rest, 256);
      LeValueBound(rest);
      SteppedCounts(rest);
      var r := Stepped(s);
      assert r[1..] == if s[0] == 255 then Stepped(rest) else rest;
      forall i | 0 <= i < |r| ensures 0 <= r[i] < 256 {
        assert i > 0 ==> r[i] == r[1..][i - 1];
      }
    }
  }

  lemma {:induction false} ZerosAreZero(n: nat)
    ensures LeValue(Zeros(n)) == 0
  {
    if n > 0 {
      assert Zeros(n)[1..] == Zeros(n - 1);
      ZerosAreZero(n - 1);
    }
  }

  // ------------------------------------------------------------------------------ nonce ranges

  /** Fixed for the run: thread count, optional cap on a thread's span (0: none), and whether the
      pool lets the miner step extranonce2. */
  datatype Config = Config(threads: nat, spanCap: nat, extranonce: bool)

  predicate GoodConfig(c: Config) { 1 <= c.threads <= 9999 }

  function Block(c: Config): int requires GoodConfig(c) { 0xffff_ffff / c.threads }

  function Base(c: Config, t: nat): int requires GoodConfig(c) { Block(c) * t }

  /** end_nonce after a reset, with apply_nonce_span_cap. */
  function EndNonce(c: Config, t: nat): int
    requires GoodConfig(c)
  {
    var end := Base(c, t + 1) - 0x20;
    if c.spanCap != 0 && end - Base(c, t) > c.spanCap then Base(c, t) + c.spanCap else end
  }

  lemma BlockBound(c: Config)
    requires GoodConfig(c)
    ensures Block(c) >= 0x20 + 8 && Block(c) * c.threads < WORD
  {
    assert 0xffff_ffff == Block(c) * c.threads + 0xffff_ffff % c.threads;
  }

  /** Ranges are apart and inside 32 bits, whatever the cap, with room for a batch past the end. */
  lemma RangesApart(c: Config, t: nat, u: nat)
    requires GoodConfig(c) && t < u <= c.threads
    ensures 0 <= Base(c, t) <= EndNonce(c, t) && EndNonce(c, t) + 0x20 <= Base(c, t + 1) <= Base(c, u) < WORD
  {
    BlockBound(c);
    var b := Block(c);
    assert Base(c, t + 1) == Base(c, t) + b;
    assert b * (t + 1) <= b * u <= b * c.threads;
  }

  /** And they leave out fewer nonces than there are threads, besides the last 0x20 of each: the first
      begins at 0, each begins where the one before has its last 0x20, and a cap only shortens it. */
  lemma RangesCover(c: Config, t: nat)
    requires GoodConfig(c) && t < c.threads
    ensures Base(c, 0) == 0 && 0xffff_ffff - c.threads < Base(c, c.threads) <= 0xffff_ffff
    ensures Base(c, t + 1) - Base(c, t) == Base(c, 1)
    ensures c.spanCap == 0 ==> EndNonce(c, t) + 0x20 == Base(c, t + 1)
    ensures c.spanCap != 0 ==>
              EndNonce(c, t) - Base(c, t) == if c.spanCap < Base(c, 1) - 0x20 then c.spanCap else Base(c, 1) - 0x20
  {
    assert 0xffff_ffff == Block(c) * c.threads + 0xffff_ffff % c.threads;
    assert Base(c, t + 1) == Base(c, t) + Block(c);
  }

  // ------------------------------------------------------------------------------- the system

  /** A generated work: the job it comes from and its extranonce2.  Different works have different
      headers. */
  datatype Work = Work(job: nat, xnonce2: seq<int>)

  datatype Pc = AtTop | AtGen | AtWait | AtGet | AtScan(max64: int, lanes: nat)

  /** A thread about to scan has its estimate, at least 1, and the lane count of its scanhash. */
  predicate GoodScan(pc: Pc) { pc.AtScan? ==> pc.max64 >= 1 && 1 <= pc.lanes <= 8 }

  /** A miner thread: its copy of the work, as an index into the works issued (-1: none yet). */
  datatype Miner = Miner(pc: Pc, work: int, nonce: int, end: int, restart: bool)

  /** The stratum side: the current job, its extranonce2 counter, and how many works the job has
      given so far. */
  datatype Pool = Pool(job: nat, xnonce2: seq<int>, used: nat)

  /** One completed scan: who, on which work, which positions (see `Word`). */
  datatype Scanned = Scanned(thread: nat, work: int, first: int, final: int)

  /** `issued` lists the works generated, in order: the last is g_work. */
  datatype State = State(pool: Pool, issued: seq<Work>, miners: seq<Miner>, log: seq<Scanned>)

  datatype Actor = Stratum | Nudge | Thread(t: nat)

  /** mining.notify: a new job, extranonce2 zeroed. */
  ghost predicate Notify(s: State, s': State) {
    s' == s.(pool := Pool(s.pool.job + 1, Zeros(|s'.pool.xnonce2|), 0))
  }

  /** restart_threads. */
  function Restarted(miners: seq<Miner>): (r: seq<Miner>)
    ensures |r| == |miners| && forall t | 0 <= t < |r| :: r[t] == miners[t].(restart := true)
  {
    seq(|miners|, t requires 0 <= t < |miners| => miners[t].(restart := true))
  }

  /** stratum_gen_work: copy the counter into g_work, raise every restart flag, step the counter. */
  function Generated(s: State): State {
    s.(issued := s.issued + [Work(s.pool.job, s.pool.xnonce2)],
       miners := Restarted(s.miners),
       pool := s.pool.(xnonce2 := Stepped(s.pool.xnonce2), used := s.pool.used + 1))
  }

  /** std_get_new_work and clearing the flag, under the work lock. */
  function GetNewWork(c: Config, s: State, t: nat): Miner
    requires GoodConfig(c) && t < |s.miners| && s.issued != [] && -1 <= s.miners[t].work < |s.issued|
  {
    var m := s.miners[t];
    var last := |s.issued| - 1;
    if m.work == -1 || m.nonce >= m.end || s.issued[m.work] != s.issued[last] then
      m.(work := last, nonce := Base(c, t), end := EndNonce(c, t), restart := false)
    else
      m.(nonce := m.nonce + 1, restart := false)
  }

  /** max_nonce: the estimate for the scan time, at most the end of the range. */
  function MaxNonce(m: Miner, max64: int): int {
    if m.nonce + max64 > m.end then m.end else m.nonce + max64
  }

  /** One scan: any number of batches that the comparison with last_nonce lets it do, since the
      restart flag may end it after any.  The first two bounds hold of every thread in a run
      (`NoncesAreWords`). */
  ghost predicate ScanStep(m: Miner, strict: bool, batches: nat)
    requires m.pc.AtScan?
  {
    var maxNonce := MaxNonce(m, m.pc.max64);
    && 0 <= m.nonce < WORD && 0 <= maxNonce < WORD && GoodScan(m.pc)
    && batches >= 1 && Walks(m.nonce, LastNonce(maxNonce, m.pc.lanes), m.pc.lanes, strict, batches)
  }

  /** The thread and the log after it. */
  function ScanDone(s: State, t: nat, batches: nat): State
    requires t < |s.miners| && s.miners[t].pc.AtScan? && 0 <= s.miners[t].nonce
  {
    var m := s.miners[t];
    var final := After(m.nonce, m.pc.lanes, batches);
    s.(miners := s.miners[t := m.(pc := AtTop, nonce := Word(final))],
       log := s.log + [Scanned(t, m.work, m.nonce, final)])
  }

  ghost predicate ThreadStep(c: Config, s: State, s': State, t: nat)
    requires GoodConfig(c)
  {
    t < |s.miners| && s.issued != [] && -1 <= s.miners[t].work < |s.issued| &&
    var m := s.miners[t];
    match m.pc
    case AtTop =>
      var next := if m.nonce >= m.end && !m.restart then (if c.extranonce then AtGen else AtWait) else AtGet;
      s' == s.(miners := s.miners[t := m.(pc := next)])
    case AtGen =>
      var g := Generated(s);
      s' == g.(miners := g.miners[t := g.miners[t].(pc := AtGet)])
    case AtWait =>
      m.restart && s' == s.(miners := s.miners[t := m.(pc := AtGet)])
    case AtGet =>
      exists pc: Pc | (pc.AtScan? || pc.AtTop?) && GoodScan(pc) ::
        s' == s.(miners := s.miners[t := GetNewWork(c, s, t).(pc := pc)])
    case AtScan(_, _) =>
      exists strict, batches | ScanStep(m, strict, batches) :: s' == ScanDone(s, t, batches)
  }

  ghost predicate NextBy(c: Config, s: State, s': State, a: Actor)
    requires GoodConfig(c)
  {
    match a
    case Stratum => Notify(s, s') || s' == Generated(s)
    case Nudge => s' == s.(miners := Restarted(s.miners))
    case Thread(t) => ThreadStep(c, s, s', t)
  }

  predicate Init(c: Config, s: State)
    requires GoodConfig(c)
  {
    && s.issued == [] && s.log == [] && s.pool.used == 0
    && Radix.IsBase(s.pool.xnonce2, 256) && LeValue(s.pool.xnonce2) == 0
    && |s.miners| == c.threads
    && forall t | 0 <= t < |s.miners| :: s.miners[t].work == -1 && s.miners[t].pc == AtTop && !s.miners[t].restart
  }

  // -------------------------------------------------------------------------------- invariant

  /** No work is issued twice; the counter is ahead of every work of its job. */
  ghost predicate IssueInv(s: State) {
    && Radix.IsBase(s.pool.xnonce2, 256)
    && (s.pool.used < Radix.Pow(256, |s.pool.xnonce2|) ==> LeValue(s.pool.xnonce2) == s.pool.used)
    && (forall i | 0 <= i < |s.issued| :: s.issued[i].job <= s.pool.job)
    && (forall i | 0 <= i < |s.issued| :: s.issued[i].job == s.pool.job ==> LeValue(s.issued[i].xnonce2) < s.pool.used)
    && (forall i, j | 0 <= i < j < |s.issued| :: s.issued[i] != s.issued[j])
  }

  /** A thread's nonce is in its range, or past the end by less than a batch. */
  ghost predicate MinerInv(c: Config, last: int, m: Miner, t: nat)
    requires GoodConfig(c)
  {
    && -1 <= m.work <= last
    && (m.pc.AtScan? ==> 0 <= m.work && m.nonce <= m.end && GoodScan(m.pc))
    && (m.work >= 0 ==> Base(c, t) <= m.nonce <= m.end + 8 && m.end == EndNonce(c, t))
  }

  /** A recorded scan lies in its thread's range, on a work the thread has not moved past, and
      behind the thread's nonce. */
  ghost predicate EntryInv(c: Config, e: Scanned, m: Miner)
    requires GoodConfig(c)
  {
    && 0 <= e.work <= m.work
    && (e.work == m.work ==> e.final <= m.nonce)
    && Base(c, e.thread) <= e.first < e.final <= Base(c, e.thread + 1)
  }

  ghost predicate MinersInv(c: Config, s: State)
    requires GoodConfig(c)
  {
    |s.miners| == c.threads && forall t | 0 <= t < |s.miners| :: MinerInv(c, |s.issued| - 1, s.miners[t], t)
  }

  ghost predicate LogInv(c: Config, s: State)
    requires GoodConfig(c)
  {
    forall i | 0 <= i < |s.log| :: s.log[i].thread < |s.miners| && EntryInv(c, s.log[i], s.miners[s.log[i].thread])
  }

  /** Two scans have no (work, nonce) pair in common. */
  ghost predicate Apart(s: State, e: Scanned, f: Scanned) {
    0 <= e.work < |s.issued| && 0 <= f.work < |s.issued| &&
    (s.issued[e.work] == s.issued[f.work] ==> e.final <= f.first || f.final <= e.first)
  }

  ghost predicate NothingTwice(s: State) {
    forall i, j | 0 <= i < j < |s.log| :: Apart(s, s.log[i], s.log[j])
  }

  ghost predicate Inv(c: Config, s: State) {
    GoodConfig(c) && IssueInv(s) && MinersInv(c, s) && LogInv(c, s) && NothingTwice(s)
  }

  /** The counter of the current job has not come round. */
  predicate NoWrap(s: State) { s.pool.used <= Radix.Pow(256, |s.pool.xnonce2|) }

  /** The next step asks for work with the range used up and the current work in hand: it will be
      given the same work and the same range again. */
  ghost predicate Rereads(s: State, a: Actor) {
    a.Thread? && a.t < |s.miners| &&
    var m := s.miners[a.t];
    m.pc == AtGet && m.work == |s.issued| - 1 && m.nonce >= m.end
  }

  /** The next step is a scan whose max_nonce is below its lane count, so that last_nonce wraps. */
  ghost predicate ShortScan(s: State, a: Actor) {
    a.Thread? && a.t < |s.miners| &&
    var m := s.miners[a.t];
    m.pc.AtScan? && MaxNonce(m, m.pc.max64) < m.pc.lanes
  }

  /** A raised flag means newer work is there; a thread about to ask for work either has nonces left
      or has newer work to get. */
  ghost predicate FlagInv(s: State) {
    forall t | 0 <= t < |s.miners| ::
      var m := s.miners[t];
      && m.work < |s.issued|
      && (m.restart ==> m.work < |s.issued| - 1)
      && (m.pc == AtGet && m.work == |s.issued| - 1 ==> m.nonce < m.end || m.work == -1)
  }

  // ------------------------------------------------------------------------------ preservation

  /** The work issued next is one the job has not given yet. */
  lemma GeneratedIsNew(s: State)
    requires IssueInv(s) && NoWrap(Generated(s))
    ensures IssueInv(Generated(s))
  {
    SteppedCounts(s.pool.xnonce2);
    LeValueBound(s.pool.xnonce2);
    assert LeValue(s.pool.xnonce2) == s.pool.used;
  }

  lemma GeneratedKeepsInv(c: Config, s: State)
    requires Inv(c, s) && NoWrap(Generated(s))
    ensures Inv(c, Generated(s))
  {
    GeneratedIsNew(s);
    var g := Generated(s);
    forall i, j | 0 <= i < j < |g.log| ensures Apart(g, g.log[i], g.log[j]) {
      assert Apart(s, s.log[i], s.log[j]);
    }
  }

  /** Changing one thread alone, without touching its place in the log. */
  lemma MinerKeepsInv(c: Config, s: State, t: nat, m: Miner)
    requires Inv(c, s) && t < |s.miners| && MinerInv(c, |s.issued| - 1, m, t)
    requires s.miners[t].work <= m.work && (m.work == s.miners[t].work ==> s.miners[t].nonce <= m.nonce)
    ensures Inv(c, s.(miners := s.miners[t := m]))
  {
    var s' := s.(miners := s.miners[t := m]);
    forall i | 0 <= i < |s'.log|
      ensures s'.log[i].thread < |s'.miners| && EntryInv(c, s'.log[i], s'.miners[s'.log[i].thread])
    {
      assert EntryInv(c, s.log[i], s.miners[s.log[i].thread]);
    }
    assert NothingTwice(s') by {
      forall i, j | 0 <= i < j < |s'.log| ensures Apart(s', s'.log[i], s'.log[j]) {
        assert Apart(s, s.log[i], s.log[j]);
      }
    }
  }

  /** A scan overruns the range by at most one batch, which the guard of 0x20 absorbs. */
  lemma ScanStaysInRange(c: Config, t: nat, m: Miner, last: int, strict: bool, batches: nat)
    requires GoodConfig(c) && t < c.threads && MinerInv(c, last, m, t)
    requires m.pc.AtScan? && ScanStep(m, strict, batches) && m.pc.lanes <= MaxNonce(m, m.pc.max64)
    ensures var final := After(m.nonce, m.pc.lanes, batches);
            Base(c, t) <= m.nonce < final <= m.end + 8 && final <= Base(c, t + 1) < WORD && Word(final) == final
    ensures m.nonce + m.pc.lanes < WORD
  {
    RangesApart(c, t, t + 1);
    StaysBelow(m.nonce, MaxNonce(m, m.pc.max64), m.pc.lanes, strict, batches);
  }

  /** The scan loops are such scans, and there are no others: a loop that ends after so many batches,
      for whatever reason, is a step of the model, and each step is a loop that some restart ends. */
  lemma LoopIsScanStep(m: Miner, strict: bool, batches: nat)
    requires m.pc.AtScan? && GoodScan(m.pc) && 0 <= m.nonce < WORD && 0 <= MaxNonce(m, m.pc.max64) < WORD
    ensures var last := LastNonce(MaxNonce(m, m.pc.max64), m.pc.lanes);
            ScanStep(m, strict, batches) <==>
            exists restart :: EndsAfter(m.nonce, last, m.pc.lanes, strict, restart, batches)
  {
    var lanes := m.pc.lanes;
    var last := LastNonce(MaxNonce(m, m.pc.max64), lanes);
    if ScanStep(m, strict, batches) {
      assert EndsAfter(m.nonce, last, lanes, strict, k => k == batches - 1, batches);
    }
    if restart :| EndsAfter(m.nonce, last, lanes, strict, restart, batches) {
      RunsWalks(m.nonce, last, lanes, strict, restart, batches);
    }
  }

  /** Only thread 0 can meet a short scan, and only at its first eight nonces. */
  lemma ShortScanIsRare(c: Config, s: State, t: nat)
    requires Inv(c, s) && ShortScan(s, Thread(t))
    ensures t == 0 && s.miners[t].nonce < 8
  {
    assert MinerInv(c, |s.issued| - 1, s.miners[t], t);
    BlockBound(c);
    if t > 0 {
      RangesApart(c, 0, t);
    }
  }

  /** A scan has no pair in common with any scan recorded before it. */
  lemma ScanIsNew(c: Config, s: State, t: nat, e: Scanned, i: nat)
    requires Inv(c, s) && t < |s.miners| && i < |s.log| && e.thread == t && e.work == s.miners[t].work >= 0
    requires s.miners[t].nonce <= e.first < e.final <= Base(c, t + 1) && Base(c, t) <= e.first
    ensures Apart(s, s.log[i], e)
  {
    var o := s.log[i];
    assert EntryInv(c, o, s.miners[o.thread]);
    if o.thread < t {
      RangesApart(c, o.thread, t);
    } else if o.thread > t {
      RangesApart(c, t, o.thread);
    }
  }

  lemma ScanKeepsInv(c: Config, s: State, t: nat, strict: bool, batches: nat)
    requires Inv(c, s) && t < |s.miners| && s.miners[t].pc.AtScan? && ScanStep(s.miners[t], strict, batches)
    requires !ShortScan(s, Thread(t))
    ensures Inv(c, ScanDone(s, t, batches))
  {
    var m := s.miners[t];
    var final := After(m.nonce, m.pc.lanes, batches);
    var e := Scanned(t, m.work, m.nonce, final);
    assert MinerInv(c, |s.issued| - 1, m, t);
    ScanStaysInRange(c, t, m, |s.issued| - 1, strict, batches);
    var m' := m.(pc := AtTop, nonce := final);
    MinerKeepsInv(c, s, t, m');
    var s1 := s.(miners := s.miners[t := m']);
    var s' := s1.(log := s.log + [e]);
    forall i | 0 <= i < |s'.log|
      ensures s'.log[i].thread < |s'.miners| && EntryInv(c, s'.log[i], s'.miners[s'.log[i].thread])
    {
      if i < |s.log| {
        assert EntryInv(c, s1.log[i], s1.miners[s1.log[i].thread]);
      }
    }
    forall i, j | 0 <= i < j < |s'.log| ensures Apart(s', s'.log[i], s'.log[j]) {
      if j < |s.log| {
        assert Apart(s, s.log[i], s.log[j]);
      } else {
        ScanIsNew(c, s, t, e, i);
      }
    }
  }

  lemma GetKeepsInv(c: Config, s: State, t: nat, pc: Pc)
    requires Inv(c, s) && t < |s.miners| && s.issued != [] && s.miners[t].pc.AtGet?
    requires (pc.AtScan? || pc.AtTop?) && GoodScan(pc)
    requires !Rereads(s, Thread(t))
    ensures Inv(c, s.(miners := s.miners[t := GetNewWork(c, s, t).(pc := pc)]))
  {
    var m := s.miners[t];
    assert MinerInv(c, |s.issued| - 1, m, t);
    RangesApart(c, t, t + 1);
    MinerKeepsInv(c, s, t, GetNewWork(c, s, t).(pc := pc));
  }

  lemma ThreadKeepsInv(c: Config, s: State, s': State, t: nat)
    requires Inv(c, s) && ThreadStep(c, s, s', t) && NoWrap(s') && !Rereads(s, Thread(t)) && !ShortScan(s, Thread(t))
    ensures Inv(c, s')
  {
    var m := s.miners[t];
    assert MinerInv(c, |s.issued| - 1, m, t);
    match m.pc {
      case AtTop => MinerKeepsInv(c, s, t, s'.miners[t]);
      case AtWait => MinerKeepsInv(c, s, t, s'.miners[t]);
      case AtGen =>
        GeneratedKeepsInv(c, s);
        var g := Generated(s);
        assert MinerInv(c, |g.issued| - 1, g.miners[t], t);
        MinerKeepsInv(c, g, t, s'.miners[t]);
      case AtGet =>
        var pc: Pc :| (pc.AtScan? || pc.AtTop?) && GoodScan(pc)
                  && s' == s.(miners := s.miners[t := GetNewWork(c, s, t).(pc := pc)]);
        GetKeepsInv(c, s, t, pc);
      case AtScan(_, _) =>
        var strict, batches :| ScanStep(m, strict, batches) && s' == ScanDone(s, t, batches);
        ScanKeepsInv(c, s, t, strict, batches);
    }
  }

  lemma NotifyKeepsInv(c: Config, s: State, s': State)
    requires Inv(c, s) && Notify(s, s')
    ensures Inv(c, s')
  {
    ZerosAreZero(|s'.pool.xnonce2|);
    forall i, j | 0 <= i < j < |s'.log| ensures Apart(s', s'.log[i], s'.log[j]) {
      assert Apart(s, s.log[i], s.log[j]);
    }
  }

  lemma NudgeKeepsInv(c: Config, s: State, s': State)
    requires Inv(c, s) && s' == s.(miners := Restarted(s.miners))
    ensures Inv(c, s')
  {
    forall i, j | 0 <= i < j < |s'.log| ensures Apart(s', s'.log[i], s'.log[j]) {
      assert Apart(s, s.log[i], s.log[j]);
    }
  }

  lemma InvStep(c: Config, s: State, s': State, a: Actor)
    requires Inv(c, s) && NextBy(c, s, s', a) && NoWrap(s') && !Rereads(s, a) && !ShortScan(s, a)
    ensures Inv(c, s')
  {
    match a
    case Stratum =>
      if Notify(s, s') { NotifyKeepsInv(c, s, s'); } else { GeneratedKeepsInv(c, s); }
    case Nudge => NudgeKeepsInv(c, s, s');
    case Thread(t) => ThreadKeepsInv(c, s, s', t);
  }

  lemma FlagInvStep(c: Config, s: State, s': State, a: Actor)
    requires GoodConfig(c) && FlagInv(s) && a != Nudge && NextBy(c, s, s', a)
    ensures FlagInv(s')
  {}

  /** A run of the system, with who took each step. */
  ghost predicate IsRun(c: Config, run: seq<State>, who: seq<Actor>)
    requires GoodConfig(c)
  {
    && |run| == |who| + 1 && Init(c, run[0])
    && forall i | 0 <= i < |who| :: NextBy(c, run[i], run[i + 1], who[i])
  }

  /** No step of the run re-reads used-up work or is a short scan, and no job's counter comes round. */
  ghost predicate Undisturbed(run: seq<State>, who: seq<Actor>)
    requires |run| == |who| + 1
  {
    && (forall k | 0 <= k < |who| :: !Rereads(run[k], who[k]) && !ShortScan(run[k], who[k]))
    && (forall k | 0 <= k < |run| :: NoWrap(run[k]))
  }

  lemma {:induction false} InvRun(c: Config, run: seq<State>, who: seq<Actor>, i: nat)
    requires GoodConfig(c) && IsRun(c, run, who) && Undisturbed(run, who) && i < |run|
    ensures Inv(c, run[i])
  {
    if i > 0 {
      InvRun(c, run, who, i - 1);
      assert !Rereads(run[i - 1], who[i - 1]) && !ShortScan(run[i - 1], who[i - 1]);
      InvStep(c, run[i - 1], run[i], who[i - 1]);
    }
  }

  /** In every run in which no thread re-reads used-up work, none scans with a max_nonce below its
      lane count and no job's counter comes round, no (work, nonce) pair is hashed twice, by the same
      thread or by two. */
  lemma NoPairTwice(c: Config, run: seq<State>, who: seq<Actor>, i: nat, a: nat, b: nat, n: int)
    requires GoodConfig(c) && IsRun(c, run, who) && Undisturbed(run, who) && i < |run|
    requires a < |run[i].log| && b < |run[i].log| && a != b
    requires run[i].log[a].first <= n < run[i].log[a].final && run[i].log[b].first <= n < run[i].log[b].final
    ensures 0 <= run[i].log[a].work < |run[i].issued| && 0 <= run[i].log[b].work < |run[i].issued|
    ensures run[i].issued[run[i].log[a].work] != run[i].issued[run[i].log[b].work]
  {
    InvRun(c, run, who, i);
    var s := run[i];
    if a < b { assert Apart(s, s.log[a], s.log[b]); } else { assert Apart(s, s.log[b], s.log[a]); }
  }

  lemma {:induction false} FlagInvRun(c: Config, run: seq<State>, who: seq<Actor>, i: nat)
    requires GoodConfig(c) && IsRun(c, run, who) && i < |run|
    requires forall k | 0 <= k < |who| :: who[k] != Nudge
    ensures FlagInv(run[i])
  {
    if i > 0 {
      FlagInvRun(c, run, who, i - 1);
      FlagInvStep(c, run[i - 1], run[i], who[i - 1]);
    }
  }

  /** Where restart flags come only from new work, used-up work is never re-read. */
  lemma FlagsFromNewWorkSuffice(c: Config, run: seq<State>, who: seq<Actor>, k: nat)
    requires GoodConfig(c) && IsRun(c, run, who) && k < |who|
    requires forall k | 0 <= k < |who| :: who[k] != Nudge
    ensures !Rereads(run[k], who[k])
  {
    FlagInvRun(c, run, who, k);
    assert NextBy(c, run[k], run[k + 1], who[k]);
  }

  // ------------------------------------------------------------- two runs that hash a pair twice

  /** A run in which no counter comes round and either no scan is short, or else no flag is raised for
      another reason and no work is re-read. */
  ghost predicate Tame(c: Config, run: seq<State>, who: seq<Actor>, short: bool) {
    && GoodConfig(c) && IsRun(c, run, who)
    && (forall k | 0 <= k < |run| :: NoWrap(run[k]))
    && (forall k | 0 <= k < |who| :: TameStep(run[k], who[k], short))
  }

  ghost predicate TameStep(s: State, a: Actor, short: bool) {
    if short then a != Nudge && !Rereads(s, a) else !ShortScan(s, a)
  }

  lemma Grow(c: Config, run: seq<State>, who: seq<Actor>, short: bool, s': State, a: Actor)
    requires Tame(c, run, who, short) && NextBy(c, run[|who|], s', a)
    requires NoWrap(s') && TameStep(run[|who|], a, short)
    ensures Tame(c, run + [s'], who + [a], short)
  {
    var run', who' := run + [s'], who + [a];
    forall i | 0 <= i < |who'| ensures NextBy(c, run'[i], run'[i + 1], who'[i]) && TameStep(run'[i], who'[i], short) {
      if i < |who| {
        assert NextBy(c, run[i], run[i + 1], who[i]) && TameStep(run[i], who[i], short);
      }
    }
  }

  const FRESH := Miner(AtTop, -1, 0, 0, false)

  /** The first work comes in. */
  lemma FirstWork(c: Config, short: bool) returns (run: seq<State>, who: seq<Actor>)
    requires GoodConfig(c)
    ensures who == [Stratum] && Tame(c, run, who, short)
    ensures run[1] == State(Pool(0, [1], 1), [Work(0, [0])], seq(c.threads, _ => FRESH.(restart := true)), [])
  {
    var s := State(Pool(0, [0], 0), [], seq(c.threads, _ => FRESH), []);
    assert Stepped([0]) == [1];
    assert Generated(s).miners == seq(c.threads, _ => FRESH.(restart := true));
    assert Tame(c, [s], [], short);
    Grow(c, [s], [], short, Generated(s), Stratum);
    run, who := [s] + [Generated(s)], [] + [Stratum];
  }

  /** A thread that has used up its range, or has none yet, is given its range. */
  lemma GetMove(c: Config, s: State, t: nat, pc: Pc)
    requires GoodConfig(c) && t < |s.miners| && s.miners[t].pc.AtGet? && pc.AtScan? && GoodScan(pc)
    requires s.issued != [] && -1 <= s.miners[t].work < |s.issued|
    requires s.miners[t].work == -1 || s.miners[t].nonce >= s.miners[t].end
    ensures NextBy(c, s, s.(miners := s.miners[t := AtStart(c, s, t, pc)]), Thread(t))
  {
    assert GetNewWork(c, s, t).(pc := pc) == AtStart(c, s, t, pc);
  }

  /** Thread t with the current work and its whole range. */
  function AtStart(c: Config, s: State, t: nat, pc: Pc): Miner
    requires GoodConfig(c)
  {
    Miner(pc, |s.issued| - 1, Base(c, t), EndNonce(c, t), false)
  }

  /** A flagged thread gets its range and scans. */
  lemma Sweep(c: Config, run: seq<State>, who: seq<Actor>, short: bool, t: nat, pc: Pc, batches: nat)
    returns (run': seq<State>, who': seq<Actor>)
    requires Tame(c, run, who, short) && t < |run[|who|].miners| && run[|who|].issued != []
    requires var m := run[|who|].miners[t];
             && m.pc.AtTop? && m.restart && -1 <= m.work < |run[|who|].issued|
             && (m.work == -1 || (!short && m.nonce >= m.end))
    requires pc.AtScan? && (short || pc.lanes <= MaxNonce(AtStart(c, run[|who|], t, pc), pc.max64))
    requires ScanStep(AtStart(c, run[|who|], t, pc), false, batches)
    ensures Tame(c, run', who', short) && who' == who + [Thread(t), Thread(t), Thread(t)]
    ensures var s, m := run[|who|], AtStart(c, run[|who|], t, pc);
            run'[|who'|] == ScanDone(s.(miners := s.miners[t := m]), t, batches)
  {
    var s, m := run[|who|], AtStart(c, run[|who|], t, pc);
    var s1 := s.(miners := s.miners[t := s.miners[t].(pc := AtGet)]);
    var s2 := s1.(miners := s1.miners[t := m]);
    Grow(c, run, who, short, s1, Thread(t));
    run', who' := run + [s1], who + [Thread(t)];
    GetMove(c, s1, t, pc);
    Grow(c, run', who', short, s2, Thread(t));
    run', who' := run' + [s2], who' + [Thread(t)];
    Grow(c, run', who', short, ScanDone(s2, t, batches), Thread(t));
    run', who' := run' + [ScanDone(s2, t, batches)], who' + [Thread(t)];
    assert s1.miners[t := m] == s.miners[t := m];
  }

  /** One restart flag raised for another reason is enough for a thread to hash a pair again. */
  lemma NudgeRepeats() returns (c: Config, run: seq<State>, who: seq<Actor>)
    ensures Tame(c, run, who, false) && |run| == 9
    ensures forall k | 0 <= k < |who| && who[k] == Nudge :: k == 4
    ensures run[8].log == [Scanned(0, 0, 0, 1), Scanned(0, 0, 0, 1)]
  {
    c := Config(1, 1, true);
    assert Base(c, 0) == 0 && EndNonce(c, 0) == 1;
    run, who := FirstWork(c, false);
    run, who := Sweep(c, run, who, false, 0, AtScan(1, 1), 1);
    var s := run[|who|].(miners := Restarted(run[|who|].miners));
    Grow(c, run, who, false, s, Nudge);
    run, who := run + [s], who + [Nudge];
    run, who := Sweep(c, run, who, false, 0, AtScan(1, 1), 1);
  }

  /** So is one scan that starts at nonce 0 with an estimate of 1 and four lanes: its last_nonce wraps
      round, and until a restart it walks on through the range of the next thread. */
  lemma ShortScanOverlaps() returns (c: Config, run: seq<State>, who: seq<Actor>)
    ensures Tame(c, run, who, true) && |run| == 8
    ensures |run[7].log| == 2 && run[7].log[0].thread != run[7].log[1].thread
    ensures !Apart(run[7], run[7].log[0], run[7].log[1])
  {
    c := Config(2, 0, true);
    assert Base(c, 0) == 0 && Base(c, 1) == 0x7fff_ffff;
    run, who := FirstWork(c, true);
    run, who := Sweep(c, run, who, true, 0, AtScan(1, 4), 0x2000_0000);
    run, who := Sweep(c, run, who, true, 1, AtScan(1, 1), 1);
  }

  /** What the others' steps leave of thread t: all but its restart flag; works and log only grow. */
  ghost predicate Kept(s: State, s': State, t: nat) {
    && t < |s.miners| == |s'.miners| && s'.miners[t] == s.miners[t].(restart := s'.miners[t].restart)
    && s.log <= s'.log && s.issued <= s'.issued
  }

  lemma OthersKeep(c: Config, s: State, s': State, a: Actor, t: nat)
    requires GoodConfig(c) && NextBy(c, s, s', a) && a != Thread(t) && t < |s.miners|
    ensures Kept(s, s', t)
  {}

  lemma {:induction false} OthersKeepRun(c: Config, run: seq<State>, who: seq<Actor>, k: nat, l: nat, t: nat)
    requires GoodConfig(c) && IsRun(c, run, who) && k <= l <= |who| && t < |run[k].miners|
    requires forall j | k <= j < l :: who[j] != Thread(t)
    ensures Kept(run[k], run[l], t)
    decreases l
  {
    if k < l {
      OthersKeepRun(c, run, who, k, l - 1, t);
      OthersKeep(c, run[l - 1], run[l], who[l - 1], t);
    }
  }

  /** The guard of `NoPairTwice` is no more than it has to be: a thread that re-reads used-up work and
      goes on to scan, whatever the others do in between, hashes the first nonce of its range again if
      a recorded scan of that work, by whomever, began there. */
  lemma RereadRepeats(c: Config, run: seq<State>, who: seq<Actor>, k: nat, l: nat, i: nat)
    requires GoodConfig(c) && IsRun(c, run, who) && k < l < |who| && Rereads(run[k], who[k])
    requires who[l] == who[k] && (forall j | k < j < l :: who[j] != who[k]) && who[k].t < |run[k + 1].miners|
    requires run[k + 1].miners[who[k].t].pc.AtScan?
    requires i < |run[k].log| && run[k].log[i].work == run[k].miners[who[k].t].work
    requires run[k].log[i].first == Base(c, who[k].t) < run[k].log[i].final
    ensures |run[l + 1].log| == |run[l].log| + 1 && i < |run[l].log|
    ensures var e, f := run[l + 1].log[i], run[l + 1].log[|run[l].log|];
            && e == run[k].log[i] && f.thread == who[k].t
            && 0 <= e.work == f.work < |run[l + 1].issued| && e.first == f.first < f.final && !Apart(run[l + 1], e, f)
  {
    var t := who[k].t;
    RereadStarts(c, run[k], run[k + 1], t);
    OthersKeepRun(c, run, who, k + 1, l, t);
    ScanIsRecorded(c, run[l], run[l + 1], t);
  }

  lemma RereadStarts(c: Config, s: State, s': State, t: nat)
    requires GoodConfig(c) && NextBy(c, s, s', Thread(t)) && Rereads(s, Thread(t))
    ensures s'.log == s.log && s'.issued == s.issued && t < |s'.miners|
    ensures s'.miners[t].nonce == Base(c, t) && 0 <= s'.miners[t].work == s.miners[t].work < |s.issued|
  {}

  lemma ScanIsRecorded(c: Config, s: State, s': State, t: nat)
    requires GoodConfig(c) && NextBy(c, s, s', Thread(t)) && t < |s.miners| && s.miners[t].pc.AtScan?
    ensures |s'.log| == |s.log| + 1 && s.log <= s'.log && s'.issued == s.issued
    ensures var m, e := s.miners[t], s'.log[|s.log|];
            e.thread == t && e.work == m.work && e.first == m.nonce < e.final
  {
    var m := s.miners[t];
    var strict, batches :| ScanStep(m, strict, batches) && s' == ScanDone(s, t, batches);
    AfterGrows(m.nonce, m.pc.lanes, batches);
  }

  lemma AfterGrows(first: nat, lanes: nat, batches: nat)
    requires lanes >= 1 && batches >= 1
    ensures first < After(first, lanes, batches)
  {
    assert lanes * batches >= batches;
  }

  /** Every scan starts where the scan loops demand: no nonce of it, nor of its overrun, wraps. */
  lemma NoNonceWraps(c: Config, run: seq<State>, who: seq<Actor>, i: nat, t: nat, strict: bool, batches: nat)
    requires GoodConfig(c) && IsRun(c, run, who) && Undisturbed(run, who) && i < |who| && who[i] == Thread(t)
    requires t < |run[i].miners| && run[i].miners[t].pc.AtScan? && ScanStep(run[i].miners[t], strict, batches)
    ensures var m := run[i].miners[t];
            && 0 <= m.nonce && m.nonce + m.pc.lanes < WORD && After(m.nonce, m.pc.lanes, batches) < WORD
            && m.pc.lanes <= MaxNonce(m, m.pc.max64) < WORD
  {
    InvRun(c, run, who, i);
    var m := run[i].miners[t];
    assert MinerInv(c, |run[i].issued| - 1, m, t);
    assert !ShortScan(run[i], who[i]);
    ScanStaysInRange(c, t, m, |run[i].issued| - 1, strict, batches);
  }

  /** In every run, whatever happens in it, a thread's nonce and its end are 32-bit words. */
  lemma {:induction false} NoncesAreWords(c: Config, run: seq<State>, who: seq<Actor>, i: nat, t: nat)
    requires GoodConfig(c) && IsRun(c, run, who) && i < |run| && t < |run[i].miners|
    ensures |run[i].miners| == c.threads && WordsInv(run[i], t)
  {
    if i > 0 {
      assert NextBy(c, run[i - 1], run[i], who[i - 1]);
      NoncesAreWords(c, run, who, i - 1, t);
      WordsStep(c, run[i - 1], run[i], who[i - 1], t);
    }
  }

  ghost predicate WordsInv(s: State, t: nat)
    requires t < |s.miners|
  {
    var m := s.miners[t];
    && (m.work >= 0 ==> 0 <= m.nonce < WORD && 0 <= m.end < WORD)
    && (m.pc.AtScan? ==> 0 <= m.work && GoodScan(m.pc))
  }

  lemma WordsStep(c: Config, s: State, s': State, a: Actor, t: nat)
    requires GoodConfig(c) && NextBy(c, s, s', a) && t < |s.miners| == c.threads && WordsInv(s, t)
    ensures |s'.miners| == c.threads && WordsInv(s', t)
  {
    if a == Thread(t) {
      WordsThread(c, s, s', t);
    }
  }

  lemma WordsThread(c: Config, s: State, s': State, t: nat)
    requires GoodConfig(c) && ThreadStep(c, s, s', t) && t < |s.miners| == c.threads && WordsInv(s, t)
    ensures |s'.miners| == c.threads && WordsInv(s', t)
  {
    RangesApart(c, t, t + 1);
  }

  // --------------------------------------------------------- which nonces of a range are hashed

  /** How often thread t asks for work from step k to step l. */
  function Gets(run: seq<State>, who: seq<Actor>, t: nat, k: nat, l: nat): nat
    requires k <= l <= |who| && |run| == |who| + 1 && forall j | 0 <= j < |run| :: t < |run[j].miners|
    decreases l
  {
    if k == l then 0
    else Gets(run, who, t, k, l - 1) + if Asks(run[l - 1], who[l - 1], t) then 1 else 0
  }

  /** From step k to step l thread t makes no scan and re-reads nothing. */
  ghost predicate Between(run: seq<State>, who: seq<Actor>, t: nat, k: nat, l: nat) {
    && |run| == |who| + 1 && k <= l <= |who| && (forall j | 0 <= j < |run| :: t < |run[j].miners|)
    && forall j | k <= j < l && who[j] == Thread(t) ::
         !run[j].miners[t].pc.AtScan? && !Rereads(run[j], who[j])
  }

  /** A step that is no scan of thread t's moves its nonce only if it asks for work: one on while the
      work stays, to the start of its range with new work. */
  ghost predicate Moves(c: Config, s: State, s': State, t: nat, asks: bool)
    requires GoodConfig(c) && t < |s.miners| && t < |s'.miners|
  {
    var m, m' := s.miners[t], s'.miners[t];
    && m.work <= m'.work
    && (m'.work == m.work ==> m'.nonce == m.nonce + (if asks then 1 else 0) && m'.end == m.end)
    && (m'.work != m.work ==> asks && m'.nonce == Base(c, t) && m'.end == EndNonce(c, t))
  }

  predicate Asks(s: State, a: Actor, t: nat)
    requires t < |s.miners|
  {
    a == Thread(t) && s.miners[t].pc.AtGet?
  }

  lemma NonceStep(c: Config, s: State, s': State, a: Actor, t: nat)
    requires GoodConfig(c) && NextBy(c, s, s', a) && t < |s.miners|
    requires a == Thread(t) ==> !s.miners[t].pc.AtScan? && !Rereads(s, a)
    ensures t < |s'.miners| && Moves(c, s, s', t, Asks(s, a, t))
  {
    if Asks(s, a, t) {
      GetStep(c, s, s', t);
    } else if a != Thread(t) {
      OthersKeep(c, s, s', a, t);
    }
  }

  lemma NonceStepAt(c: Config, run: seq<State>, who: seq<Actor>, k: nat, l: nat, t: nat, j: nat)
    requires GoodConfig(c) && IsRun(c, run, who) && Between(run, who, t, k, l) && k <= j < l
    ensures Moves(c, run[j], run[j + 1], t, Asks(run[j], who[j], t))
  {
    NonceStep(c, run[j], run[j + 1], who[j], t);
  }

  lemma GetStep(c: Config, s: State, s': State, t: nat)
    requires GoodConfig(c) && ThreadStep(c, s, s', t) && s.miners[t].pc.AtGet? && !Rereads(s, Thread(t))
    ensures t < |s'.miners| && s.miners[t].work <= s'.miners[t].work
    ensures var m, m' := s.miners[t], s'.miners[t];
            if m'.work == m.work then m'.nonce == m.nonce + 1 && m'.end == m.end
            else m'.nonce == Base(c, t) && m'.end == EndNonce(c, t)
  {}

  lemma {:induction false} MovesFrom(c: Config, run: seq<State>, who: seq<Actor>, k: nat, l: nat, t: nat)
    requires GoodConfig(c) && |run| == |who| + 1 && k <= l <= |who| && forall j | 0 <= j < |run| :: t < |run[j].miners|
    requires forall j | k <= j < l :: Moves(c, run[j], run[j + 1], t, Asks(run[j], who[j], t))
    ensures run[k].miners[t].work <= run[l].miners[t].work
    ensures run[k].miners[t].work == run[l].miners[t].work ==>
              run[l].miners[t].nonce == run[k].miners[t].nonce + Gets(run, who, t, k, l)
    decreases l
  {
    if k < l {
      MovesFrom(c, run, who, k, l - 1, t);
      assert Moves(c, run[l - 1], run[l - 1 + 1], t, Asks(run[l - 1], who[l - 1], t));
    }
  }

  /** While thread t keeps its work and does not scan, its nonce moves one on each time it asks. */
  lemma NonceMoves(c: Config, run: seq<State>, who: seq<Actor>, k: nat, l: nat, t: nat)
    requires GoodConfig(c) && IsRun(c, run, who) && Between(run, who, t, k, l)
    ensures run[k].miners[t].work <= run[l].miners[t].work
    ensures run[k].miners[t].work == run[l].miners[t].work ==>
              run[l].miners[t].nonce == run[k].miners[t].nonce + Gets(run, who, t, k, l)
  {
    forall j | k <= j < l ensures Moves(c, run[j], run[j + 1], t, Asks(run[j], who[j], t)) {
      NonceStepAt(c, run, who, k, l, t, j);
    }
    MovesFrom(c, run, who, k, l, t);
  }

  /** The scan thread t makes at step k, and the log after it. */
  ghost predicate ScansAt(run: seq<State>, who: seq<Actor>, k: nat, t: nat) {
    k < |who| && |run| == |who| + 1 && who[k] == Thread(t) && t < |run[k].miners| && run[k].miners[t].pc.AtScan?
  }

  /** The first scan of a work begins at the start of the thread's range, moved on by one for each time
      the thread asked for work again before it. */
  lemma FirstScanOfWork(c: Config, run: seq<State>, who: seq<Actor>, k: nat, l: nat, t: nat)
    requires GoodConfig(c) && IsRun(c, run, who) && ScansAt(run, who, l, t) && k < l && Between(run, who, t, k, l)
    requires run[k].miners[t].work != run[k + 1].miners[t].work == run[l].miners[t].work
    ensures |run[l + 1].log| == |run[l].log| + 1
    ensures run[l + 1].log[|run[l].log|].first == Base(c, t) + Gets(run, who, t, k + 1, l)
  {
    NonceStep(c, run[k], run[k + 1], who[k], t);
    NonceMoves(c, run, who, k + 1, l, t);
    ScanIsRecorded(c, run[l], run[l + 1], t);
  }

  /** Each later scan of the same work begins where the one before ended, moved on by one for each time
      the thread asked for work in between.  It asks at least once, so one nonce is always left out. */
  lemma NextScanOfWork(c: Config, run: seq<State>, who: seq<Actor>, k: nat, l: nat, t: nat)
    requires GoodConfig(c) && IsRun(c, run, who) && ScansAt(run, who, k, t) && ScansAt(run, who, l, t) && k < l
    requires Between(run, who, t, k + 1, l) && run[l].miners[t].work == run[k].miners[t].work
    ensures |run[k + 1].log| == |run[k].log| + 1 && |run[l + 1].log| == |run[l].log| + 1
    ensures Gets(run, who, t, k + 1, l) >= 1
    ensures run[l + 1].log[|run[l].log|].first ==
            Word(run[k + 1].log[|run[k].log|].final) + Gets(run, who, t, k + 1, l)
  {
    ScanIsRecorded(c, run[k], run[k + 1], t);
    ScanLeaves(c, run[k], run[k + 1], t);
    NonceMoves(c, run, who, k + 1, l, t);
    ScanIsRecorded(c, run[l], run[l + 1], t);
    AsksFirst(c, run, who, k + 1, l, t);
  }

  lemma ScanLeaves(c: Config, s: State, s': State, t: nat)
    requires GoodConfig(c) && NextBy(c, s, s', Thread(t)) && t < |s.miners| && s.miners[t].pc.AtScan?
    ensures t < |s'.miners| && |s'.log| > |s.log| && s'.miners[t].pc.AtTop?
    ensures s'.miners[t].work == s.miners[t].work
    ensures 0 <= s'.log[|s.log|].final && s'.miners[t].nonce == Word(s'.log[|s.log|].final)
  {}

  /** From the top of its loop a thread comes to a scan only by asking for work. */
  ghost predicate ScansOnlyIfAsks(s: State, s': State, t: nat, asks: bool)
    requires t < |s.miners| && t < |s'.miners|
  {
    s'.miners[t].pc.AtScan? ==> s.miners[t].pc.AtScan? || asks
  }

  lemma PcStepAt(c: Config, run: seq<State>, who: seq<Actor>, t: nat, j: nat)
    requires GoodConfig(c) && IsRun(c, run, who) && j < |who| && t < |run[j].miners| && t < |run[j + 1].miners|
    ensures ScansOnlyIfAsks(run[j], run[j + 1], t, Asks(run[j], who[j], t))
  {
    if who[j] != Thread(t) {
      OthersKeep(c, run[j], run[j + 1], who[j], t);
    }
  }

  lemma {:induction false} AsksFrom(run: seq<State>, who: seq<Actor>, k: nat, l: nat, t: nat)
    requires |run| == |who| + 1 && k <= l <= |who| && forall j | 0 <= j < |run| :: t < |run[j].miners|
    requires forall j | k <= j < l :: ScansOnlyIfAsks(run[j], run[j + 1], t, Asks(run[j], who[j], t))
    requires !run[k].miners[t].pc.AtScan?
    ensures run[l].miners[t].pc.AtScan? ==> Gets(run, who, t, k, l) >= 1
    decreases l
  {
    if k < l {
      AsksFrom(run, who, k, l - 1, t);
      assert ScansOnlyIfAsks(run[l - 1], run[l - 1 + 1], t, Asks(run[l - 1], who[l - 1], t));
    }
  }

  lemma AsksFirst(c: Config, run: seq<State>, who: seq<Actor>, k: nat, l: nat, t: nat)
    requires GoodConfig(c) && IsRun(c, run, who) && Between(run, who, t, k, l) && !run[k].miners[t].pc.AtScan?
    ensures run[l].miners[t].pc.AtScan? ==> Gets(run, who, t, k, l) >= 1
  {
    forall j | k <= j < l ensures ScansOnlyIfAsks(run[j], run[j + 1], t, Asks(run[j], who[j], t)) {
      PcStepAt(c, run, who, t, j);
    }
    AsksFrom(run, who, k, l, t);
  }

  /** Only a thread that has used up its range generates new work, or waits for it. */
  lemma {:induction false} OnlyUsedUpRangesAsk(c: Config, run: seq<State>, who: seq<Actor>, i: nat, t: nat)
    requires GoodConfig(c) && IsRun(c, run, who) && i < |run| && t < |run[i].miners|
    ensures |run[i].miners| == c.threads
    ensures run[i].miners[t].pc.AtGen? || run[i].miners[t].pc.AtWait? ==> run[i].miners[t].nonce >= run[i].miners[t].end
    ensures run[i].miners[t].pc.AtWait? ==> !c.extranonce
    ensures run[i].miners[t].pc.AtGen? ==> c.extranonce
  {
    if i > 0 {
      assert NextBy(c, run[i - 1], run[i], who[i - 1]);
      OnlyUsedUpRangesAsk(c, run, who, i - 1, t);
      UsedUpStep(c, run[i - 1], run[i], who[i - 1], t);
    }
  }

  ghost predicate UsedUp(c: Config, m: Miner) {
    && (m.pc.AtGen? || m.pc.AtWait? ==> m.nonce >= m.end)
    && (m.pc.AtWait? ==> !c.extranonce) && (m.pc.AtGen? ==> c.extranonce)
  }

  lemma UsedUpStep(c: Config, s: State, s': State, a: Actor, t: nat)
    requires GoodConfig(c) && NextBy(c, s, s', a) && t < |s.miners| == c.threads && UsedUp(c, s.miners[t])
    ensures |s'.miners| == c.threads && UsedUp(c, s'.miners[t])
  {
    if a != Thread(t) {
      OthersKeep(c, s, s', a, t);
    }
  }

  /** How far a scan goes: never past its estimate or the end of the range, except by its first batch;
      and without a restart to within a batch of it. */
  lemma ScanLength(c: Config, t: nat, m: Miner, last: int, strict: bool, restart: int -> bool, batches: nat)
    requires GoodConfig(c) && t < c.threads && MinerInv(c, last, m, t) && m.pc.AtScan?
    requires m.pc.lanes <= m.nonce + m.pc.max64 && m.pc.lanes <= m.end < WORD && 0 <= m.nonce
    requires EndsAfter(m.nonce, LastNonce(MaxNonce(m, m.pc.max64), m.pc.lanes), m.pc.lanes, strict, restart, batches)
    ensures var final := After(m.nonce, m.pc.lanes, batches);
            && (batches > 1 ==> final <= m.nonce + m.pc.max64 && final <= m.end)
            && (restart(batches - 1) || final >= m.nonce + m.pc.max64 - m.pc.lanes || final >= m.end - m.pc.lanes)
  {
    ScanEndsBy(c, t, m, last, strict, restart, batches, MaxNonce(m, m.pc.max64));
  }

  lemma ScanEndsBy(c: Config, t: nat, m: Miner, last: int, strict: bool, restart: int -> bool, batches: nat, max: int)
    requires GoodConfig(c) && t < c.threads && MinerInv(c, last, m, t) && m.pc.AtScan?
    requires m.pc.lanes <= max <= m.end < WORD && 0 <= m.nonce
    requires EndsAfter(m.nonce, LastNonce(max, m.pc.lanes), m.pc.lanes, strict, restart, batches)
    ensures var final := After(m.nonce, m.pc.lanes, batches);
            (batches > 1 ==> final <= max) && (restart(batches - 1) || final >= max - m.pc.lanes)
  {
    RangesApart(c, t, t + 1);
    NoWrapInRange(m.nonce, max, m.pc.lanes, strict, restart, batches);
    if batches > 1 {
      MoreBatches(m.nonce, m.pc.lanes, batches);
    }
  }

  lemma MoreBatches(first: nat, lanes: nat, batches: nat)
    requires lanes >= 1 && batches > 1
    ensures first + lanes < After(first, lanes, batches)
  {
    assert lanes * (batches - 1) >= 1;
    assert lanes * batches == lanes + lanes * (batches - 1);
  }
}
