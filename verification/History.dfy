/** The scan history of api_model.c: one ring of the last 50 records per miner thread, and a merge
    over the rings that serves the newest records of all threads.

    Ids and counts are unbounded here; the source's are 32-bit. */
module History {

  const PER_THREAD := 50
  const MAX_THREADS := 64

  /** One scan, as reported; the payload is the height, rates, flags and time stamp. */
  datatype Record = Record(id: int, thread: int, payload: seq<int>)

  /** Every record written since the last reset, per thread, oldest first. */
  type Log = seq<seq<Record>>

  /** How many of a thread's records its ring still holds, and which. */
  function Have(s: seq<Record>): nat { if |s| < 50 then |s| else 50 }

  function Window(s: seq<Record>): seq<Record> { s[|s| - Have(s)..] }

  predicate Selected(thr: int, t: int) { thr < 0 || t == thr }

  /** A reader asking for thread `thr` (all of them if negative) can be shown r. */
  predicate InView(log: Log, thr: int, r: Record) {
    0 <= r.thread < |log| && Selected(thr, r.thread) && r in Window(log[r.thread])
  }

  predicate Decreasing(s: seq<Record>) { forall i, j | 0 <= i < j < |s| :: s[i].id > s[j].id }

  predicate Rising(s: seq<Record>) { forall i, j | 0 <= i < j < |s| :: s[i].id < s[j].id }

  predicate Below(id: int, out: seq<Record>) { forall i | 0 <= i < |out| :: id < out[i].id }

  /** `out` is the max newest records in view, newest first. */
  ghost predicate Newest(log: Log, thr: int, max: int, out: seq<Record>) {
    && |out| <= max && Decreasing(out)
    && (forall i | 0 <= i < |out| :: InView(log, thr, out[i]))
    && (forall r | InView(log, thr, r) && r !in out :: |out| == max && Below(r.id, out))
  }

  /** `all` is every record since the reset, of whatever thread, in the order written: record n has
      id n + 1. */
  ghost predicate LogInv(log: Log, all: seq<Record>) {
    && (forall t, i | 0 <= t < |log| && 0 <= i < |log[t]| :: RecordOk(log, all, t, i))
    && (forall t | 0 <= t < |log| :: Rising(log[t]))
  }

  predicate RecordOk(log: Log, all: seq<Record>, t: int, i: int)
    requires 0 <= t < |log| && 0 <= i < |log[t]|
  {
    log[t][i].thread == t && 1 <= log[t][i].id <= |all| && all[log[t][i].id - 1] == log[t][i]
  }

  lemma IdsDistinct(log: Log, all: seq<Record>, t: int, i: int, u: int, j: int)
    requires LogInv(log, all) && 0 <= t < |log| && 0 <= i < |log[t]| && 0 <= u < |log| && 0 <= j < |log[u]|
    requires log[t][i].id == log[u][j].id
    ensures log[t][i] == log[u][j]
  {
    assert RecordOk(log, all, t, i) && RecordOk(log, all, u, j);
  }

  /** The log after one more record of thread t. */
  function Added(log: Log, id: int, t: nat, payload: seq<int>): Log
    requires t < |log|
  {
    log[t := log[t] + [Record(id, t, payload)]]
  }

  lemma AddedKeepsInv(log: Log, all: seq<Record>, t: nat, payload: seq<int>)
    requires LogInv(log, all) && t < |log|
    ensures LogInv(Added(log, |all| + 1, t, payload), all + [Record(|all| + 1, t, payload)])
  {
    var r := Record(|all| + 1, t, payload);
    var log', all' := Added(log, |all| + 1, t, payload), all + [r];
    forall u, i | 0 <= u < |log'| && 0 <= i < |log'[u]| ensures RecordOk(log', all', u, i) {
      assert u != t || i < |log[t]| ==> RecordOk(log, all, u, i);
    }
    forall u | 0 <= u < |log'| ensures Rising(log'[u]) {
      assert Rising(log[u]);
      forall i | 0 <= i < |log[t]| ensures log[t][i].id < r.id {
        assert RecordOk(log, all, t, i);
      }
    }
  }

  // ----------------------------------------------------------- the list served is the only one

  /** Where two such lists agree so far, the one goes on with nothing newer than the other does. */
  lemma NothingNewer(log: Log, thr: int, max: int, a: seq<Record>, b: seq<Record>, i: nat)
    requires Newest(log, thr, max, a) && Newest(log, thr, max, b) && i < |a| && i <= |b| && a[..i] == b[..i]
    ensures i < |b| && a[i].id <= b[i].id
  {
    var x := a[i];
    assert InView(log, thr, x);
    if i == |b| || x.id > b[i].id {
      forall k | 0 <= k < |b| ensures b[k] != x {
        if k < i {
          assert b[k] == b[..i][k] == a[..i][k] == a[k];
        }
      }
    }
  }

  lemma SameNext(log: Log, all: seq<Record>, thr: int, max: int, a: seq<Record>, b: seq<Record>, i: nat)
    requires LogInv(log, all) && Newest(log, thr, max, a) && Newest(log, thr, max, b)
    requires i < |a| && i < |b| && a[..i] == b[..i]
    ensures a[i] == b[i]
  {
    NothingNewer(log, thr, max, a, b, i);
    NothingNewer(log, thr, max, b, a, i);
    var x, y := a[i], b[i];
    assert InView(log, thr, x) && InView(log, thr, y);
    var j := IndexInLog(log, thr, x);
    var k := IndexInLog(log, thr, y);
    IdsDistinct(log, all, x.thread, j, y.thread, k);
  }

  lemma IndexInLog(log: Log, thr: int, x: Record) returns (i: nat)
    requires InView(log, thr, x)
    ensures |log[x.thread]| - Have(log[x.thread]) <= i < |log[x.thread]| && log[x.thread][i] == x
  {
    var s := log[x.thread];
    var w :| 0 <= w < |Window(s)| && Window(s)[w] == x;
    i := |s| - Have(s) + w;
  }

  lemma {:induction false} SamePrefix(log: Log, all: seq<Record>, thr: int, max: int,
                                     a: seq<Record>, b: seq<Record>, i: nat)
    requires LogInv(log, all) && Newest(log, thr, max, a) && Newest(log, thr, max, b) && i <= |a| && i <= |b|
    ensures a[..i] == b[..i]
  {
    if i > 0 {
      SamePrefix(log, all, thr, max, a, b, i - 1);
      SameNext(log, all, thr, max, a, b, i - 1);
      PrefixStep(a, b, i - 1);
    }
  }

  lemma PrefixStep(a: seq<Record>, b: seq<Record>, i: nat)
    requires i < |a| && i < |b| && a[..i] == b[..i] && a[i] == b[i]
    ensures a[..i + 1] == b[..i + 1]
  {
    assert a[..i + 1] == a[..i] + [a[i]] && b[..i + 1] == b[..i] + [b[i]];
  }

  /** There is only one such list. */
  lemma NewestIsUnique(log: Log, all: seq<Record>, thr: int, max: int, a: seq<Record>, b: seq<Record>)
    requires LogInv(log, all) && Newest(log, thr, max, a) && Newest(log, thr, max, b)
    ensures a == b
  {
    var n := if |a| < |b| then |a| else |b|;
    SamePrefix(log, all, thr, max, a, b, n);
    if n < |a| {
      NothingNewer(log, thr, max, a, b, n);
    } else if n < |b| {
      NothingNewer(log, thr, max, b, a, n);
    }
    assert a[..n] == a && b[..n] == b;
  }

  // ------------------------------------------------------------------------------- the merge

  predicate CursorsOk(log: Log, cursor: seq<int>) {
    |log| <= |cursor| && forall t | 0 <= t < |log| :: 0 <= cursor[t] <= Have(log[t])
  }

  /** Thread t is asked for and has records left after the cursor[t] newest. */
  predicate Open(log: Log, thr: int, cursor: seq<int>, t: int)
    requires CursorsOk(log, cursor) && 0 <= t < |log|
  {
    Selected(thr, t) && cursor[t] < Have(log[t])
  }

  function Head(log: Log, cursor: seq<int>, t: int): Record
    requires CursorsOk(log, cursor) && 0 <= t < |log| && cursor[t] < Have(log[t])
  {
    log[t][|log[t]| - 1 - cursor[t]]
  }

  /** Index k of thread t is asked for, still held and not taken yet. */
  predicate Pending(log: Log, thr: int, cursor: seq<int>, t: int, k: int)
    requires |log| <= |cursor|
  {
    0 <= t < |log| && Selected(thr, t) && |log[t]| - Have(log[t]) <= k < |log[t]| - cursor[t] <= |log[t]|
  }

  /** Everything pending is older than all of `out`. */
  ghost predicate PendingBelow(log: Log, thr: int, cursor: seq<int>, out: seq<Record>) {
    |log| <= |cursor| && forall t, k | Pending(log, thr, cursor, t, k) :: Below(log[t][k].id, out)
  }

  /** Everything the cursors have passed is in `out`. */
  ghost predicate PassedIn(log: Log, thr: int, cursor: seq<int>, out: seq<Record>) {
    CursorsOk(log, cursor) &&
    forall t, k | 0 <= t < |log| && Selected(thr, t) && |log[t]| - cursor[t] <= k < |log[t]| :: log[t][k] in out
  }

  ghost predicate Merged(log: Log, thr: int, cursor: seq<int>, out: seq<Record>) {
    && PassedIn(log, thr, cursor, out) && PendingBelow(log, thr, cursor, out)
    && Decreasing(out) && forall i | 0 <= i < |out| :: InView(log, thr, out[i])
  }

  /** `best` is open and no open thread has a newer head. */
  ghost predicate IsBest(log: Log, thr: int, cursor: seq<int>, best: int) {
    && CursorsOk(log, cursor) && 0 <= best < |log| && Open(log, thr, cursor, best)
    && forall t | 0 <= t < |log| && Open(log, thr, cursor, t) :: Head(log, cursor, t).id <= Head(log, cursor, best).id
  }

  function Taken(cursor: seq<int>, best: int): seq<int>
    requires 0 <= best < |cursor|
  {
    cursor[best := cursor[best] + 1]
  }

  /** What is pending once the best head is taken is older than it. */
  lemma BestIsNewest(log: Log, all: seq<Record>, thr: int, cursor: seq<int>, best: int, t: int, k: int)
    requires LogInv(log, all) && IsBest(log, thr, cursor, best) && Pending(log, thr, Taken(cursor, best), t, k)
    ensures log[t][k].id < Head(log, cursor, best).id
  {
    assert Rising(log[t]);
    if t != best {
      assert Open(log, thr, cursor, t);
      var h, b := |log[t]| - 1 - cursor[t], |log[best]| - 1 - cursor[best];
      assert log[t][k].id <= log[t][h].id == Head(log, cursor, t).id;
      assert RecordOk(log, all, t, h) && RecordOk(log, all, best, b);
      if log[t][h].id == log[best][b].id {
        IdsDistinct(log, all, t, h, best, b);
      }
    }
  }

  lemma HeadInView(log: Log, all: seq<Record>, thr: int, cursor: seq<int>, best: int)
    requires LogInv(log, all) && IsBest(log, thr, cursor, best)
    ensures InView(log, thr, Head(log, cursor, best))
  {
    var s := log[best];
    var k := |s| - 1 - cursor[best];
    assert RecordOk(log, all, best, k);
    assert Window(s)[Have(s) - 1 - cursor[best]] == s[k];
  }

  lemma PassedStep(log: Log, thr: int, cursor: seq<int>, out: seq<Record>, best: int)
    requires PassedIn(log, thr, cursor, out) && IsBest(log, thr, cursor, best)
    ensures PassedIn(log, thr, Taken(cursor, best), out + [Head(log, cursor, best)])
  {
    var h := Head(log, cursor, best);
    var cursor', out' := Taken(cursor, best), out + [h];
    forall t, k | 0 <= t < |log| && Selected(thr, t) && |log[t]| - cursor'[t] <= k < |log[t]|
      ensures log[t][k] in out'
    {
      if k >= |log[t]| - cursor[t] {
        assert log[t][k] in out;
      } else {
        assert log[t][k] == h == out'[|out|];
      }
    }
  }

  lemma PendingStep(log: Log, all: seq<Record>, thr: int, cursor: seq<int>, out: seq<Record>, best: int)
    requires LogInv(log, all) && PendingBelow(log, thr, cursor, out) && IsBest(log, thr, cursor, best)
    ensures PendingBelow(log, thr, Taken(cursor, best), out + [Head(log, cursor, best)])
    ensures Below(Head(log, cursor, best).id, out)
  {
    var h := Head(log, cursor, best);
    var cursor', out' := Taken(cursor, best), out + [h];
    assert Pending(log, thr, cursor, best, |log[best]| - 1 - cursor[best]);
    forall t, k | Pending(log, thr, cursor', t, k) ensures Below(log[t][k].id, out') {
      BestIsNewest(log, all, thr, cursor, best, t, k);
      assert Pending(log, thr, cursor, t, k);
    }
  }

  lemma MergeStep(log: Log, all: seq<Record>, thr: int, cursor: seq<int>, out: seq<Record>, best: int)
    requires LogInv(log, all) && Merged(log, thr, cursor, out) && IsBest(log, thr, cursor, best)
    ensures Merged(log, thr, Taken(cursor, best), out + [Head(log, cursor, best)])
  {
    HeadInView(log, all, thr, cursor, best);
    PassedStep(log, thr, cursor, out, best);
    PendingStep(log, all, thr, cursor, out, best);
  }

  lemma MergeStart(log: Log, thr: int, cursor: seq<int>)
    requires |log| <= |cursor| && forall t | 0 <= t < |cursor| :: cursor[t] == 0
    ensures Merged(log, thr, cursor, [])
  {}

  /** When the list is full, or nothing is open, it is the newest records. */
  lemma MergeDone(log: Log, thr: int, cursor: seq<int>, out: seq<Record>, max: int)
    requires Merged(log, thr, cursor, out) && |out| <= max
    requires |out| == max || forall t | 0 <= t < |log| :: !Open(log, thr, cursor, t)
    ensures Newest(log, thr, max, out)
  {
    forall r | InView(log, thr, r) && r !in out ensures |out| == max && Below(r.id, out) {
      var k := IndexInLog(log, thr, r);
      assert Pending(log, thr, cursor, r.thread, k);
      assert Open(log, thr, cursor, r.thread);
    }
  }

  // ------------------------------------------------------------------------------ the rings

  /** Thread t's part of the ring holds its window: record k is in slot k modulo 50. */
  ghost predicate Holds(ring: seq<Record>, log: Log, t: nat) {
    t < |log| && PER_THREAD * t + PER_THREAD <= |ring| &&
    forall k | |log[t]| - Have(log[t]) <= k < |log[t]| :: ring[PER_THREAD * t + k % PER_THREAD] == log[t][k]
  }

  /** What the arrays say about the log. */
  ghost predicate Represents(ring: seq<Record>, count: seq<int>, log: Log) {
    && |count| == |log| && |ring| == PER_THREAD * |log|
    && (forall t | 0 <= t < |log| :: count[t] == |log[t]|)
    && (forall t | 0 <= t < |log| :: Holds(ring, log, t))
  }

  /** Among the last 50 indices no two share a slot, so writing one more loses only the oldest. */
  lemma SlotsDistinct(n: nat, k: nat)
    requires k < n < k + PER_THREAD
    ensures k % PER_THREAD != n % PER_THREAD
  {}

  lemma AddHolds(ring: seq<Record>, log: Log, id: int, t: nat, payload: seq<int>, u: nat)
    requires t < |log| && u < |log| && Holds(ring, log, u) && |ring| == PER_THREAD * |log|
    ensures Holds(ring[PER_THREAD * t + |log[t]| % PER_THREAD := Record(id, t, payload)], Added(log, id, t, payload), u)
  {
    var log' := Added(log, id, t, payload);
    var ring' := ring[PER_THREAD * t + |log[t]| % PER_THREAD := Record(id, t, payload)];
    forall k | |log'[u]| - Have(log'[u]) <= k < |log'[u]|
      ensures ring'[PER_THREAD * u + k % PER_THREAD] == log'[u][k]
    {
      if u == t && k < |log[t]| {
        SlotsDistinct(|log[t]|, k);
      }
    }
  }

  lemma AddRepresents(ring: seq<Record>, count: seq<int>, log: Log, id: int, t: nat, payload: seq<int>)
    requires Represents(ring, count, log) && t < |log|
    ensures Represents(ring[PER_THREAD * t + count[t] % PER_THREAD := Record(id, t, payload)], count[t := count[t] + 1],
                       Added(log, id, t, payload))
  {
    var ring' := ring[PER_THREAD * t + count[t] % PER_THREAD := Record(id, t, payload)];
    var log' := Added(log, id, t, payload);
    forall u | 0 <= u < |log'| ensures Holds(ring', log', u) {
      AddHolds(ring, log, id, t, payload, u);
    }
  }

  /** hist_ring, hist_count and hist_next_id; `log` and `all` are what was written since the last
      reset, per thread and over all threads. */
  class Rings {
    var ready: bool
    var ring: array<Record>
    var count: array<int>
    var nextId: int
    ghost var log: Log
    ghost var all: seq<Record>

    ghost predicate Valid()
      reads this, ring, count
    {
      Stored() && nextId == |all| + 1 && LogInv(log, all)
    }

    ghost predicate Stored()
      reads this, ring, count
    {
      if ready then Represents(ring[..], count[..], log) else log == []
    }

    constructor ()
      ensures Valid() && !ready && all == [] && fresh(ring) && fresh(count)
    {
      ready, nextId, log, all := false, 1, [], [];
      ring := new Record[0];
      count := new int[0];
    }

    /** history_alloc, for the thread count in force; `memory` is whether calloc succeeds. */
    method Alloc(threads: int, memory: bool) returns (ok: bool)
      requires Valid()
      modifies this
      ensures Valid() && ok == ready && nextId == old(nextId) && all == old(all)
      ensures ready == (old(ready) || (threads > 0 && memory))
      ensures if old(ready) || !ready then log == old(log) && ring == old(ring) && count == old(count)
              else fresh(ring) && fresh(count) && log == seq(threads, _ => [])
    {
      if ready {
        return true;
      }
      if threads <= 0 || !memory {
        return false;
      }
      ring := new Record[PER_THREAD * threads](_ => Record(0, 0, []));
      count := new int[threads](_ => 0);
      ready, log := true, seq(threads, _ => []);
      return true;
    }

    /** api_history_reset. */
    method Reset()
      requires Valid()
      modifies this`nextId, this`log, this`all, count
      ensures Valid() && nextId == 1 && all == [] && log == seq(|old(log)|, _ => [])
    {
      if ready {
        for i := 0 to count.Length
          invariant log == old(log) && forall t | 0 <= t < i :: count[t] == 0
        {
          count[i] := 0;
        }
      }
      nextId, all := 1, [];
      log := seq(|log|, _ => []);
    }

    /** The log once the rings are allocated, if they can be. */
    ghost function LogOnceReady(threads: int, memory: bool): Log
      reads this
    {
      if ready || threads <= 0 || !memory then log else seq(threads, _ => [])
    }

    /** api_history_add: allocates on first use; out-of-range threads are ignored. */
    method Add(t: int, payload: seq<int>, threads: int, memory: bool)
      requires Valid()
      modifies this, ring, count
      ensures Valid()
      ensures var before := old(LogOnceReady(threads, memory));
              if 0 <= t < |before| then
                log == Added(before, old(nextId), t, payload) && all == old(all) + [Record(old(nextId), t, payload)]
              else log == before && all == old(all)
    {
      var ok := Alloc(threads, memory);
      if ok {
        Put(t, payload);
      }
    }

    /** The rest of api_history_add, on rings already allocated. */
    method Put(t: int, payload: seq<int>)
      requires Valid() && ready
      modifies this`nextId, this`log, this`all, ring, count
      ensures Valid()
      ensures if 0 <= t < |old(log)| then
                log == Added(old(log), old(nextId), t, payload) && all == old(all) + [Record(old(nextId), t, payload)]
              else log == old(log) && all == old(all)
    {
      if t < 0 || t >= count.Length {
        return;
      }
      var r := Record(nextId, t, payload);
      AddedKeepsInv(log, all, t, payload);
      AddRepresents(ring[..], count[..], log, nextId, t, payload);
      ghost var ring0, count0 := ring[..], count[..];
      var slot := PER_THREAD * t + count[t] % PER_THREAD;
      ring[slot] := r;
      log, all := Added(log, nextId, t, payload), all + [r];
      nextId := nextId + 1;
      count[t] := count[t] + 1;
      assert ring[..] == ring0[slot := r] && count[..] == count0[t := count0[t] + 1];
    }

    /** The record `back` places before thread t's newest. */
    method At(t: nat, back: int) returns (r: Record)
      requires Stored() && ready && t < |log| && 0 <= back < Have(log[t])
      ensures r == log[t][|log[t]| - 1 - back]
    {
      assert Holds(ring[..], log, t);
      r := ring[PER_THREAD * t + (count[t] - back - 1) % PER_THREAD];
    }

    /** The inner loop of api_history_get: the open thread with the newest head, or -1. */
    method FindBest(thr: int, cursor: seq<int>) returns (best: int)
      requires Stored() && ready && CursorsOk(log, cursor)
      ensures best == -1 ==> forall t | 0 <= t < |log| :: !Open(log, thr, cursor, t)
      ensures best != -1 ==> IsBest(log, thr, cursor, best)
    {
      best := -1;
      for t := 0 to count.Length
        invariant -1 <= best < t
        invariant best == -1 ==> forall u | 0 <= u < t :: !Open(log, thr, cursor, u)
        invariant best != -1 ==> Open(log, thr, cursor, best)
        invariant best != -1 ==> forall u | 0 <= u < t && Open(log, thr, cursor, u) ::
                    Head(log, cursor, u).id <= Head(log, cursor, best).id
      {
        var have := if count[t] < PER_THREAD then count[t] else PER_THREAD;
        if (thr < 0 || t == thr) && cursor[t] < have {
          var r := At(t, cursor[t]);
          if best == -1 {
            best := t;
          } else {
            var b := At(best, cursor[best]);
            if r.id > b.id {
              best := t;
            }
          }
        }
      }
    }

    /** One turn of the outer loop: take the newest head, if any thread is open. */
    method TakeNext(thr: int, cursor: seq<int>, out: seq<Record>)
      returns (found: bool, cursor': seq<int>, out': seq<Record>)
      requires Valid() && ready && Merged(log, thr, cursor, out)
      ensures Merged(log, thr, cursor', out') && |out'| == |out| + if found then 1 else 0
      ensures !found ==> forall t | 0 <= t < |log| :: !Open(log, thr, cursor', t)
    {
      var best := FindBest(thr, cursor);
      if best == -1 {
        return false, cursor, out;
      }
      var r := At(best, cursor[best]);
      MergeStep(log, all, thr, cursor, out, best);
      return true, cursor[best := cursor[best] + 1], out + [r];
    }

    /** api_history_get. */
    method Get(thr: int, max: int) returns (out: seq<Record>)
      requires Valid()
      ensures max <= 0 || !ready || |log| > 64 ==> out == []
      ensures max > 0 && ready && |log| <= 64 ==> Newest(log, thr, max, out)
    {
      out := [];
      if max <= 0 || !ready || count.Length > MAX_THREADS {
        return;
      }
      var cursor := seq(MAX_THREADS, _ => 0);
      MergeStart(log, thr, cursor);
      var more := true;
      while |out| < max && more
        invariant |out| <= max && Merged(log, thr, cursor, out)
        invariant !more ==> forall t | 0 <= t < |log| :: !Open(log, thr, cursor, t)
        decreases max - |out|, more
      {
        more, cursor, out := TakeNext(thr, cursor, out);
      }
      MergeDone(log, thr, cursor, out, max);
    }
  }
}
