/** The nonce scans of algo-gate-api.c: one hash at a time, four lanes, eight lanes.

    The hash is uninterpreted: `digest(n)` is what it computes for nonce n, and the gate may also
    decline to hash (return 0).  `valid` is valid_hash against the target at hand.  `restart(k)` is
    the restart flag as read the k-th time, counting from 0, that is after k + 1 batches, so
    everything holds for every restart point. */
module Scan {
  import opened Wrappers
  import opened Target
  import opened Words

  /** A share as submitted: the nonce word the header carries, and the hash. */
  datatype Share = Share(nonceWord: int, hash: seq<int>)

  /** What a scan works on: the hash of every nonce under the current header, valid_hash against the
      current target, the byte order the header wants a nonce in, and the benchmark flag. */
  datatype Job = Job(digest: int -> seq<int>, valid: seq<int> -> bool, swap: int -> int, bench: bool)

  /** 32-bit wrap-around of one addition or subtraction. */
  function Wrap32(n: int): int
    requires -WORD <= n < 2 * WORD
  {
    if n < 0 then n + WORD else if n < WORD then n else n - WORD
  }

  /** A scan walks over positions, which do not wrap; the nonce at a position is a 32-bit word. */
  function Word(p: nat): (n: nat)
    ensures n < WORD
  {
    if p < WORD then p else Word(p - WORD)
  }

  lemma {:induction false} WordIsRemainder(p: nat)
    ensures Word(p) == p % WORD
  {
    if p >= WORD {
      WordIsRemainder(p - WORD);
    }
  }

  lemma {:induction false} WordStep(p: nat, k: nat)
    requires k <= WORD
    ensures Word(p + k) == Wrap32(Word(p) + k)
  {
    if p >= WORD {
      WordStep(p - WORD, k);
    }
  }

  function ShareOf(job: Job, n: int): Share { Share(job.swap(n), job.digest(n)) }

  predicate Good(job: Job, n: int) { job.valid(job.digest(n)) && !job.bench }

  /** What a scan of the positions [lo, hi) should submit: the good nonces the gate did hash, each
      once, in order.  `ok(p)` is whether the gate did hash at position p. */
  function Shares(job: Job, ok: nat -> bool, lo: nat, hi: nat): seq<Share>
    decreases hi - lo
  {
    if hi <= lo then []
    else Shares(job, ok, lo, hi - 1) + ShareAt(job, ok(hi - 1), Word(hi - 1))
  }

  function ShareAt(job: Job, hashed: bool, n: int): seq<Share> {
    if hashed && Good(job, n) then [ShareOf(job, n)] else []
  }

  // ---------------------------------------------------------------------- where a scan ends

  /** The position after j batches. */
  function After(first: nat, lanes: nat, j: nat): nat { first + j * lanes }

  /** The loops' comparison of n with last_nonce. */
  predicate GoesOn(n: int, last: int, strict: bool) { n < last || (n == last && !strict) }

  /** The loop is left after j batches: n is past last_nonce, or the restart flag is up. */
  predicate StopsAfter(first: nat, last: int, lanes: nat, strict: bool, restart: int -> bool, j: nat) {
    !GoesOn(Word(After(first, lanes, j)), last, strict) || restart(j - 1)
  }

  /** The scan ends at all, and where: the first time it may. */
  ghost predicate Ends(first: nat, last: int, lanes: nat, strict: bool, restart: int -> bool) {
    exists j: nat :: j >= 1 && StopsAfter(first, last, lanes, strict, restart, j)
  }

  /** It is not left before the k-th batch is done. */
  ghost predicate RunsFor(first: nat, last: int, lanes: nat, strict: bool, restart: int -> bool, k: nat) {
    forall j: nat | 1 <= j < k :: !StopsAfter(first, last, lanes, strict, restart, j)
  }

  /** The comparison does not end it before the k-th batch is done. */
  ghost predicate Walks(first: nat, last: int, lanes: nat, strict: bool, k: nat) {
    forall j: nat | 1 <= j < k :: GoesOn(Word(After(first, lanes, j)), last, strict)
  }

  ghost predicate EndsAfter(first: nat, last: int, lanes: nat, strict: bool, restart: int -> bool, batches: nat) {
    && batches >= 1 && StopsAfter(first, last, lanes, strict, restart, batches)
    && RunsFor(first, last, lanes, strict, restart, batches)
  }

  lemma RunsOn(first: nat, last: int, lanes: nat, strict: bool, restart: int -> bool, k: nat, stop: nat)
    requires 1 <= k <= stop && RunsFor(first, last, lanes, strict, restart, k)
    requires StopsAfter(first, last, lanes, strict, restart, stop)
             && !StopsAfter(first, last, lanes, strict, restart, k)
    ensures k < stop && RunsFor(first, last, lanes, strict, restart, k + 1)
  {}

  lemma StopOf(first: nat, last: int, lanes: nat, strict: bool, restart: int -> bool) returns (stop: nat)
    requires Ends(first, last, lanes, strict, restart)
    ensures stop >= 1 && StopsAfter(first, last, lanes, strict, restart, stop)
    ensures RunsFor(first, last, lanes, strict, restart, 1)
  {
    stop :| stop >= 1 && StopsAfter(first, last, lanes, strict, restart, stop);
  }

  /** last_nonce. */
  function LastNonce(maxNonce: int, lanes: nat): int
    requires 0 <= maxNonce < WORD && lanes <= WORD
  {
    Wrap32(maxNonce - lanes)
  }

  /** What a scan of this many batches has to report. */
  ghost predicate Reports(job: Job, ok: nat -> bool, first: nat, lanes: nat, batches: nat,
                          shares: seq<Share>, hashesDone: int, pdata19: int)
  {
    var final := After(first, lanes, batches);
    shares == Shares(job, ok, first, final) && pdata19 == Word(final) && hashesDone == Word(final - first)
  }

  // ------------------------------------------------------------------------------- one lane

  /** The loop body of scanhash_generic: `hashes(n)` is the gate's return value for nonce n. */
  method ScanOne(job: Job, hashes: nat -> bool, n: nat) returns (shares: seq<Share>)
    ensures shares == ShareAt(job, hashes(n), n)
  {
    shares := [];
    if hashes(n) {
      if job.valid(job.digest(n)) && !job.bench {
        shares := [Share(job.swap(n), job.digest(n))];
      }
    }
  }

  function AtWord(hashes: nat -> bool): nat -> bool { (p: nat) => hashes(Word(p)) }

  /** scanhash_generic, for every first nonce and every max_nonce for which it ends. */
  method ScanGeneric(job: Job, hashes: nat -> bool, first: nat, maxNonce: int, restart: int -> bool)
    returns (shares: seq<Share>, hashesDone: int, pdata19: int, ghost batches: nat)
    requires first < WORD && 0 <= maxNonce < WORD && Ends(first, LastNonce(maxNonce, 1), 1, true, restart)
    ensures EndsAfter(first, LastNonce(maxNonce, 1), 1, true, restart, batches)
    ensures Reports(job, AtWord(hashes), first, 1, batches, shares, hashesDone, pdata19)
  {
    var lastNonce := Wrap32(maxNonce - 1);
    ghost var stop := StopOf(first, lastNonce, 1, true, restart);
    var n, k := first, 1;
    shares, n := GenericTurn(job, hashes, n, [], first, 0);
    while n < lastNonce && !restart(k - 1)
      invariant 1 <= k <= stop && n == Word(After(first, 1, k)) && RunsFor(first, lastNonce, 1, true, restart, k)
      invariant shares == Shares(job, AtWord(hashes), first, After(first, 1, k))
      decreases stop - k
    {
      RunsOn(first, lastNonce, 1, true, restart, k, stop);
      shares, n := GenericTurn(job, hashes, n, shares, first, k);
      k := k + 1;
    }
    batches := k;
    hashesDone := Difference(n, first);
    pdata19 := n;
    DifferenceIsWord(first, After(first, 1, batches));
  }

  /** One turn of its loop. */
  method GenericTurn(job: Job, hashes: nat -> bool, n: nat, sofar: seq<Share>, ghost first: nat, ghost k: nat)
    returns (shares: seq<Share>, n': nat)
    requires n == Word(After(first, 1, k)) && sofar == Shares(job, AtWord(hashes), first, After(first, 1, k))
    ensures n' == Word(After(first, 1, k + 1))
    ensures shares == Shares(job, AtWord(hashes), first, After(first, 1, k + 1))
  {
    var found := ScanOne(job, hashes, n);
    shares := sofar + found;
    WordStep(After(first, 1, k), 1);
    n' := Wrap32(n + 1);
  }

  /** n - first_nonce in 32 bits. */
  function Difference(n: nat, first: nat): int
    requires n < WORD && first < WORD
  {
    Wrap32(n - first)
  }

  lemma DifferenceIsWord(first: nat, p: nat)
    requires first < WORD && first <= p
    ensures Difference(Word(p), first) == Word(p - first)
  {
    WordStep(p - first, first);
  }

  // ------------------------------------------------------------------------------- N lanes

  /** The gate's N-way hash: given the lane nonces, the interleaved hash words, or None when it
      declined. */
  type VectorHash = seq<int> -> Option<seq<int>>

  /** The nonces of the batch that starts at n, as the nonce vector holds them. */
  function Nonces(n: int, lanes: nat): seq<int>
    requires 0 <= n < WORD && lanes <= WORD
  {
    seq(lanes, i requires 0 <= i < lanes => Wrap32(n + i))
  }

  /** The vector add: every lane's nonce plus the lane count, modulo 2^32. */
  function Advance(v: seq<int>, lanes: nat): seq<int>
    requires lanes <= WORD && forall i | 0 <= i < |v| :: 0 <= v[i] < WORD
  {
    seq(|v|, i requires 0 <= i < |v| => Wrap32(v[i] + lanes))
  }

  lemma WrapTwice(n: int, i: int, k: int)
    requires 0 <= n < WORD && 0 <= i <= WORD && 0 <= k <= WORD
    ensures Wrap32(Wrap32(n + i) + k) == Wrap32(Wrap32(n + k) + i)
  {}

  lemma AdvanceIsNextBatch(n: int, lanes: nat)
    requires 0 <= n < WORD && lanes <= WORD
    ensures forall i | 0 <= i < lanes :: 0 <= Nonces(n, lanes)[i] < WORD
    ensures Advance(Nonces(n, lanes), lanes) == Nonces(Wrap32(n + lanes), lanes)
  {
    var v := Nonces(n, lanes);
    assert |v| == lanes;
    forall i | 0 <= i < lanes ensures v[i] == Wrap32(n + i) {}
    forall i | 0 <= i < lanes ensures Advance(v, lanes)[i] == Wrap32(Wrap32(n + lanes) + i) {
      WrapTwice(n, i, lanes);
    }
  }

  /** extr_lane_4x32, extr_lane_8x32: word w of lane l is at index w * lanes + l. */
  function Lane(hash32: seq<int>, l: nat, lanes: nat): seq<int>
    requires |hash32| == 8 * lanes && l < lanes
  {
    seq(8, w requires 0 <= w < 8 => LaneWord(hash32, l, lanes, w))
  }

  function LaneWord(hash32: seq<int>, l: nat, lanes: nat, w: nat): int
    requires |hash32| == 8 * lanes && l < lanes && w < 8
  {
    assert w * lanes <= 7 * lanes;
    hash32[w * lanes + l]
  }

  /** What the N-way hash does with the batch at position p: either it declines, and `ok` says so of
      all the batch's positions, or each lane of its output is the hash of that lane's nonce. */
  ghost predicate HashesBatch(hash: VectorHash, job: Job, ok: nat -> bool, p: nat, lanes: nat)
    requires lanes <= WORD
  {
    match hash(Nonces(Word(p), lanes))
    case None => forall l | p <= l < p + lanes :: !ok(l)
    case Some(words) => AllLanesHash(words, job, ok, p, lanes)
  }

  ghost predicate AllLanesHash(words: seq<int>, job: Job, ok: nat -> bool, p: nat, lanes: nat) {
    |words| == 8 * lanes && forall l | 0 <= l < lanes :: LaneHashes(words, job, ok, p, lanes, l)
  }

  ghost predicate LaneHashes(words: seq<int>, job: Job, ok: nat -> bool, p: nat, lanes: nat, l: nat)
    requires |words| == 8 * lanes && l < lanes
  {
    ok(p + l) && Lane(words, l, lanes) == job.digest(Word(p + l))
  }

  ghost predicate HashesBatches(hash: VectorHash, job: Job, ok: nat -> bool, first: nat, lanes: nat)
    requires lanes <= WORD
  {
    forall j: nat :: HashesBatch(hash, job, ok, After(first, lanes, j), lanes)
  }

  /** The word-7 test may only rule out hashes that valid_hash would rule out. */
  ghost predicate PrefilterSound(job: Job, target7: int) {
    forall h | |h| == 8 && job.valid(h) :: h[7] <= target7
  }

  lemma {:induction false} NoShares(job: Job, ok: nat -> bool, lo: nat, hi: nat)
    requires forall n | lo <= n < hi :: !ok(n)
    ensures Shares(job, ok, lo, hi) == []
    decreases hi - lo
  {
    if lo < hi {
      NoShares(job, ok, lo, hi - 1);
    }
  }

  /** One batch: hash the lanes, then the inner loop over them. */
  method ScanBatch(hash: VectorHash, job: Job, target7: int, noncev: seq<int>, n: int, lanes: nat,
                   ghost p: nat, ghost ok: nat -> bool)
    returns (shares: seq<Share>)
    requires lanes <= WORD && n == Word(p) && noncev == Nonces(n, lanes) && HashesBatch(hash, job, ok, p, lanes)
    requires PrefilterSound(job, target7)
    ensures shares == Shares(job, ok, p, p + lanes)
  {
    var hash32 := hash(noncev);
    shares := [];
    if hash32.Some? {
      shares := ScanLanes(hash32.value, job, target7, n, lanes, p, ok);
    } else {
      NoShares(job, ok, p, p + lanes);
    }
  }

  /** What lane `lane` of a batch contributes. */
  function LaneShare(hash32: seq<int>, job: Job, target7: int, n: int, lanes: nat, lane: nat): seq<Share>
    requires |hash32| == 8 * lanes && lane < lanes <= WORD && 0 <= n < WORD
  {
    var h := Lane(hash32, lane, lanes);
    if h[7] <= target7 && !job.bench && job.valid(h) then [Share(job.swap(Wrap32(n + lane)), h)] else []
  }

  lemma LaneAt(hash32: seq<int>, job: Job, target7: int, p: nat, lanes: nat, ok: nat -> bool, lane: nat)
    requires |hash32| == 8 * lanes && lane < lanes <= WORD && LaneHashes(hash32, job, ok, p, lanes, lane)
    requires PrefilterSound(job, target7)
    ensures Shares(job, ok, p, p + lane + 1) ==
            Shares(job, ok, p, p + lane) + LaneShare(hash32, job, target7, Word(p), lanes, lane)
  {
    WordStep(p, lane);
    var l := p + lane;
    assert ok(l) && Lane(hash32, lane, lanes) == job.digest(Word(l));
  }

  method ScanLanes(hash32: seq<int>, job: Job, target7: int, n: int, lanes: nat, ghost p: nat, ghost ok: nat -> bool)
    returns (shares: seq<Share>)
    requires lanes <= WORD && n == Word(p) && AllLanesHash(hash32, job, ok, p, lanes) && PrefilterSound(job, target7)
    ensures shares == Shares(job, ok, p, p + lanes)
  {
    shares := [];
    var lane := 0;
    ghost var end := p;
    while lane < lanes
      invariant 0 <= lane <= lanes && end == p + lane && shares == Shares(job, ok, p, end)
    {
      shares := ScanLaneTurn(hash32, job, target7, n, lanes, lane, shares, p, ok);
      lane := lane + 1;
      end := p + lane;
    }
  }

  method ScanLaneTurn(hash32: seq<int>, job: Job, target7: int, n: int, lanes: nat, lane: nat, sofar: seq<Share>,
                      ghost p: nat, ghost ok: nat -> bool)
    returns (shares: seq<Share>)
    requires lane < lanes <= WORD && n == Word(p) && AllLanesHash(hash32, job, ok, p, lanes)
    requires PrefilterSound(job, target7) && sofar == Shares(job, ok, p, p + lane)
    ensures shares == Shares(job, ok, p, p + (lane + 1))
  {
    assert LaneHashes(hash32, job, ok, p, lanes, lane);
    LaneAt(hash32, job, target7, p, lanes, ok, lane);
    var found := ScanLane(hash32, job, target7, n, lanes, lane);
    shares := sofar + found;
  }

  method ScanLane(hash32: seq<int>, job: Job, target7: int, n: int, lanes: nat, lane: nat)
    returns (found: seq<Share>)
    requires |hash32| == 8 * lanes && lane < lanes <= WORD && 0 <= n < WORD
    ensures found == LaneShare(hash32, job, target7, n, lanes, lane)
  {
    found := [];
    if hash32[7 * lanes + lane] <= target7 && !job.bench {
      var laneHash := Lane(hash32, lane, lanes);
      if job.valid(laneHash) {
        found := [Share(job.swap(Wrap32(n + lane)), laneHash)];
      }
    }
  }

  /** One turn of the loop: a batch, then the vector and n move on. */
  method ScanTurn(hash: VectorHash, job: Job, target7: int, noncev: seq<int>, n: int, lanes: nat,
                  sofar: seq<Share>, ghost first: nat, ghost k: nat, ghost ok: nat -> bool)
    returns (shares: seq<Share>, noncev': seq<int>, n': int)
    requires lanes <= WORD && n == Word(After(first, lanes, k)) && noncev == Nonces(n, lanes)
    requires HashesBatches(hash, job, ok, first, lanes) && PrefilterSound(job, target7)
    requires sofar == Shares(job, ok, first, After(first, lanes, k))
    ensures n' == Word(After(first, lanes, k + 1)) && noncev' == Nonces(n', lanes)
    ensures shares == Shares(job, ok, first, After(first, lanes, k + 1))
  {
    NextBatch(first, lanes, k);
    shares, noncev', n' := ScanAndMove(hash, job, target7, noncev, n, lanes, sofar, first, After(first, lanes, k), ok);
  }

  method ScanAndMove(hash: VectorHash, job: Job, target7: int, noncev: seq<int>, n: int, lanes: nat,
                     sofar: seq<Share>, ghost first: nat, ghost p: nat, ghost ok: nat -> bool)
    returns (shares: seq<Share>, noncev': seq<int>, n': int)
    requires lanes <= WORD && n == Word(p) && noncev == Nonces(n, lanes) && first <= p
    requires HashesBatch(hash, job, ok, p, lanes) && PrefilterSound(job, target7)
    requires sofar == Shares(job, ok, first, p)
    ensures n' == Word(p + lanes) && noncev' == Nonces(n', lanes)
    ensures shares == Shares(job, ok, first, p + lanes)
  {
    var found := ScanBatch(hash, job, target7, noncev, n, lanes, p, ok);
    SharesConcat(job, ok, first, p, p + lanes);
    shares := sofar + found;
    AdvanceIsNextBatch(n, lanes);
    noncev' := Advance(noncev, lanes);
    WordStep(p, lanes);
    n' := Wrap32(n + lanes);
  }

  lemma NextBatch(first: nat, lanes: nat, k: nat)
    ensures first <= After(first, lanes, k) && After(first, lanes, k + 1) == After(first, lanes, k) + lanes
  {
    assert (k + 1) * lanes == k * lanes + lanes;
    assert k * lanes >= 0;
  }

  /** The text the 4-way and the 8-way scan share; they differ in the lane count and in whether the
      loop's comparison with last_nonce is strict. */
  method ScanVector(hash: VectorHash, job: Job, target7: int, first: nat, maxNonce: int, restart: int -> bool,
                    lanes: nat, strict: bool, ghost ok: nat -> bool)
    returns (shares: seq<Share>, hashesDone: int, pdata19: int, ghost batches: nat)
    requires first < WORD && 0 <= maxNonce < WORD && lanes <= WORD
    requires Ends(first, LastNonce(maxNonce, lanes), lanes, strict, restart)
    requires HashesBatches(hash, job, ok, first, lanes) && PrefilterSound(job, target7)
    ensures EndsAfter(first, LastNonce(maxNonce, lanes), lanes, strict, restart, batches)
    ensures Reports(job, ok, first, lanes, batches, shares, hashesDone, pdata19)
  {
    var lastNonce := Wrap32(maxNonce - lanes);
    ghost var stop := StopOf(first, lastNonce, lanes, strict, restart);
    var n, k := first, 1;
    var noncev := Nonces(n, lanes);
    assert After(first, lanes, 0) == first;
    shares, noncev, n := ScanTurn(hash, job, target7, noncev, n, lanes, [], first, 0, ok);
    while (n < lastNonce || (n == lastNonce && !strict)) && !restart(k - 1)
      invariant 1 <= k <= stop && n == Word(After(first, lanes, k)) && noncev == Nonces(n, lanes)
      invariant RunsFor(first, lastNonce, lanes, strict, restart, k)
      invariant shares == Shares(job, ok, first, After(first, lanes, k))
      decreases stop - k
    {
      RunsOn(first, lastNonce, lanes, strict, restart, k, stop);
      shares, noncev, n := ScanTurn(hash, job, target7, noncev, n, lanes, shares, first, k, ok);
      k := k + 1;
    }
    batches := k;
    pdata19 := n;
    hashesDone := Difference(n, first);
    NextBatch(first, lanes, batches);
    DifferenceIsWord(first, After(first, lanes, batches));
  }

  /** scanhash_4way_64in_32out. */
  method Scan4Way(hash: VectorHash, job: Job, target7: int, first: nat, maxNonce: int, restart: int -> bool,
                  ghost ok: nat -> bool)
    returns (shares: seq<Share>, hashesDone: int, pdata19: int, ghost batches: nat)
    requires first < WORD && 0 <= maxNonce < WORD && Ends(first, LastNonce(maxNonce, 4), 4, false, restart)
    requires HashesBatches(hash, job, ok, first, 4) && PrefilterSound(job, target7)
    ensures EndsAfter(first, LastNonce(maxNonce, 4), 4, false, restart, batches)
    ensures Reports(job, ok, first, 4, batches, shares, hashesDone, pdata19)
  {
    shares, hashesDone, pdata19, batches := ScanVector(hash, job, target7, first, maxNonce, restart, 4, false, ok);
  }

  /** scanhash_8way_64in_32out; note the strict comparison. */
  method Scan8Way(hash: VectorHash, job: Job, target7: int, first: nat, maxNonce: int, restart: int -> bool,
                  ghost ok: nat -> bool)
    returns (shares: seq<Share>, hashesDone: int, pdata19: int, ghost batches: nat)
    requires first < WORD && 0 <= maxNonce < WORD && Ends(first, LastNonce(maxNonce, 8), 8, true, restart)
    requires HashesBatches(hash, job, ok, first, 8) && PrefilterSound(job, target7)
    ensures EndsAfter(first, LastNonce(maxNonce, 8), 8, true, restart, batches)
    ensures Reports(job, ok, first, 8, batches, shares, hashesDone, pdata19)
  {
    shares, hashesDone, pdata19, batches := ScanVector(hash, job, target7, first, maxNonce, restart, 8, true, ok);
  }

  // ---------------------------------------------------------------- when and where scans end

  /** How a scan from `first` may end: at least one batch, and past maxNonce only by the first. */
  predicate ScanEnds(first: int, maxNonce: int, lanes: nat, final: int) {
    first < final && (final == first + lanes || final <= maxNonce)
  }

  lemma {:induction false} StaysBelow(first: nat, maxNonce: int, lanes: nat, strict: bool, j: nat)
    requires 0 < lanes && first + lanes < WORD && lanes <= maxNonce < WORD && 1 <= j
    requires Walks(first, LastNonce(maxNonce, lanes), lanes, strict, j)
    ensures ScanEnds(first, maxNonce, lanes, After(first, lanes, j)) && After(first, lanes, j) < WORD
  {
    NextBatch(first, lanes, j - 1);
    if j == 1 {
      assert After(first, lanes, 0) == first;
    } else {
      StaysBelow(first, maxNonce, lanes, strict, j - 1);
      assert GoesOn(Word(After(first, lanes, j - 1)), LastNonce(maxNonce, lanes), strict);
    }
  }

  lemma RunsWalks(first: nat, last: int, lanes: nat, strict: bool, restart: int -> bool, k: nat)
    requires RunsFor(first, last, lanes, strict, restart, k)
    ensures Walks(first, last, lanes, strict, k)
  {
    forall j: nat | 1 <= j < k ensures GoesOn(Word(After(first, lanes, j)), last, strict) {
      assert !StopsAfter(first, last, lanes, strict, restart, j);
    }
  }

  /** With max_nonce at least the lane count and room for a batch, no nonce wraps: the scan covers
      [first, final) as numbers, ends within one batch of max_nonce and, without a restart, no
      sooner than its comparison says. */
  lemma NoWrapInRange(first: nat, maxNonce: int, lanes: nat, strict: bool, restart: int -> bool, batches: nat)
    requires 0 < lanes && first + lanes < WORD && lanes <= maxNonce < WORD
    requires EndsAfter(first, LastNonce(maxNonce, lanes), lanes, strict, restart, batches)
    ensures var final := After(first, lanes, batches);
            && ScanEnds(first, maxNonce, lanes, final) && Word(final) == final && Word(final - first) == final - first
            && (restart(batches - 1) || final >= maxNonce - lanes + if strict then 0 else 1)
  {
    RunsWalks(first, LastNonce(maxNonce, lanes), lanes, strict, restart, batches);
    StaysBelow(first, maxNonce, lanes, strict, batches);
  }

  /** Without restart flags a scan of 1, 4 or 8 lanes ends exactly if max_nonce is at least the lane
      count, or the last nonce of its residue class is past the wrapped last_nonce. */
  lemma EndsWithoutRestart(first: nat, maxNonce: int, lanes: nat, strict: bool)
    requires first < WORD && 0 <= maxNonce < WORD && (lanes == 1 || lanes == 4 || lanes == 8)
    ensures Ends(first, LastNonce(maxNonce, lanes), lanes, strict, _ => false) <==>
            lanes <= maxNonce || maxNonce < first % lanes || (strict && maxNonce == first % lanes)
  {
    var last, r, never := LastNonce(maxNonce, lanes), first % lanes, (_: int) => false;
    var j := TopOfClass(first, lanes);
    if lanes <= maxNonce || maxNonce < r || (strict && maxNonce == r) {
      assert StopsAfter(first, last, lanes, strict, never, j);
    } else {
      forall j: nat | j >= 1 ensures !StopsAfter(first, last, lanes, strict, never, j) {
        InClass(first, lanes, j);
      }
    }
  }

  /** The largest nonce a scan can reach, and when it does. */
  lemma TopOfClass(first: nat, lanes: nat) returns (j: nat)
    requires first < WORD && (lanes == 1 || lanes == 4 || lanes == 8)
    ensures j >= 1 && Word(After(first, lanes, j)) == WORD - lanes + first % lanes
  {
    var r := first % lanes;
    if lanes == 1 {
      j := WORD - 1 - first;
    } else if lanes == 4 {
      j := 0x4000_0000 - 1 - first / 4;
    } else {
      j := 0x2000_0000 - 1 - first / 8;
    }
    assert After(first, lanes, j) == WORD - lanes + r;
    if j == 0 {
      j := if lanes == 1 then WORD else if lanes == 4 then 0x4000_0000 else 0x2000_0000;
      assert After(first, lanes, j) == first + WORD;
    }
  }

  lemma InClass(first: nat, lanes: nat, j: nat)
    requires first < WORD && (lanes == 1 || lanes == 4 || lanes == 8)
    ensures Word(After(first, lanes, j)) <= WORD - lanes + first % lanes
  {
    var p := After(first, lanes, j);
    var w, q := Word(p), p / WORD;
    WordIsRemainder(p);
    assert p == q * WORD + w;
    if lanes == 4 {
      assert w == 4 * (j - q * 0x4000_0000) + first;
      SameResidue(w, first, 4, j - q * 0x4000_0000);
    } else if lanes == 8 {
      assert w == 8 * (j - q * 0x2000_0000) + first;
      SameResidue(w, first, 8, j - q * 0x2000_0000);
    }
  }

  lemma SameResidue(w: nat, first: nat, lanes: nat, d: int)
    requires (lanes == 4 || lanes == 8) && w == lanes * d + first && w < WORD
    ensures w <= WORD - lanes + first % lanes
  {
    assert w % lanes == first % lanes;
  }

  // ------------------------------------------------------------- what the scans submit

  lemma {:induction false} SharesConcat(job: Job, ok: nat -> bool, lo: nat, mid: nat, hi: nat)
    requires lo <= mid <= hi
    ensures Shares(job, ok, lo, mid) + Shares(job, ok, mid, hi) == Shares(job, ok, lo, hi)
    decreases hi - mid
  {
    if mid < hi {
      SharesConcat(job, ok, lo, mid, hi - 1);
    }
  }

  /** The shares are those of exactly the good nonces the gate hashed, one for each place at which it
      did, in order. */
  lemma {:induction false} SharesAreExact(job: Job, ok: nat -> bool, lo: nat, hi: nat) returns (at: seq<nat>)
    ensures |at| == |Shares(job, ok, lo, hi)|
    ensures forall i | 0 <= i < |at| ::
              lo <= at[i] < hi && ok(at[i]) && Good(job, Word(at[i]))
              && Shares(job, ok, lo, hi)[i] == ShareOf(job, Word(at[i]))
    ensures forall i, j | 0 <= i < j < |at| :: at[i] < at[j]
    ensures forall p | lo <= p < hi && ok(p) && Good(job, Word(p)) :: p in at
    decreases hi - lo
  {
    if hi <= lo {
      at := [];
    } else {
      at := SharesAreExact(job, ok, lo, hi - 1);
      if ok(hi - 1) && Good(job, Word(hi - 1)) {
        at := at + [hi - 1];
      }
    }
  }

  /** Over at most 2^32 places no nonce comes twice. */
  lemma {:induction false} NoNonceTwice(p: nat, q: nat)
    requires p < q < p + WORD
    ensures Word(p) != Word(q)
  {
    if p >= WORD {
      NoNonceTwice(p - WORD, q - WORD);
    }
  }

  /** The job of a real scan: valid_hash in its 128-bit form, bswap_32. */
  ghost predicate IsMiningJob(job: Job, target: Hash) {
    && (forall n :: IsHash(job.digest(n)))
    && (forall h: Hash :: job.valid(h) <==> ValidHash128(h, target))
    && (forall h | !IsHash(h) :: !job.valid(h))
    && (forall n :: job.swap(n) == Bswap32(n))
    && !job.bench
  }

  /** In a real scan "good" means: at most the target as a 256-bit integer, whichever form of
      valid_hash is compiled in; and looking at word 7 first loses nothing. */
  lemma GoodMeansSolved(job: Job, target: Hash, n: int)
    requires IsMiningJob(job, target)
    ensures Good(job, n) <==> Value(job.digest(n)) <= Value(target)
    ensures Good(job, n) <==> ValidHash64(job.digest(n), target)
    ensures PrefilterSound(job, target[7])
  {
    ValidHashIsComparison(job.digest(n), target);
    forall h | |h| == 8 && job.valid(h) ensures h[7] <= target[7] {
      assert IsHash(h);
      ValidHashIsComparison(h, target);
      PrefilterLosesNothing(h, target);
    }
  }

  // ----------------------------------------------------------------------- byte order

  /** bswap_32. */
  function Bswap32(n: int): int {
    var n1 := n / 256;
    var n2 := n1 / 256;
    var n3 := n2 / 256;
    n % 256 * 0x100_0000 + n1 % 256 * 0x1_0000 + n2 % 256 * 0x100 + n3 % 256
  }

  lemma SplitByte(a: nat, x: nat)
    requires a < 256
    ensures (a + 256 * x) % 256 == a && (a + 256 * x) / 256 == x
  {}

  /** Four bytes as a word, least significant first. */
  function Join(a: nat, b: nat, c: nat, d: nat): nat { a + 256 * (b + 256 * (c + 256 * d)) }

  lemma BswapBytes(a: nat, b: nat, c: nat, d: nat)
    requires a < 256 && b < 256 && c < 256 && d < 256
    ensures Bswap32(Join(a, b, c, d)) == Join(d, c, b, a)
  {
    SplitByte(a, b + 256 * (c + 256 * d));
    SplitByte(b, c + 256 * d);
    SplitByte(c, d);
  }

  lemma ByteDigits(n: nat) returns (a: nat, b: nat, c: nat, d: nat)
    requires n < WORD
    ensures a < 256 && b < 256 && c < 256 && d < 256 && n == Join(a, b, c, d)
  {
    var n1, n2 := n / 256, n / 256 / 256;
    a, b, c, d := n % 256, n1 % 256, n2 % 256, n2 / 256;
  }

  lemma JoinBound(a: nat, b: nat, c: nat, d: nat)
    requires a < 256 && b < 256 && c < 256 && d < 256
    ensures Join(a, b, c, d) < WORD
  {}

  /** The submitted nonce word determines the nonce. */
  lemma Bswap32Involution(n: nat)
    requires n < WORD
    ensures 0 <= Bswap32(n) < WORD && Bswap32(Bswap32(n)) == n
  {
    var a, b, c, d := ByteDigits(n);
    var m := Join(d, c, b, a);
    assert Bswap32(n) == m by { BswapBytes(a, b, c, d); }
    assert Bswap32(m) == n by { BswapBytes(d, c, b, a); }
    JoinBound(d, c, b, a);
  }
}
