/** Share accounting in cpu-miner.c: update_submit_stats puts a record into a ring of eight, and
    share_result, on the pool's reply, takes the oldest record and credits its thread.

    Counters are unbounded here.  A record is present exactly if its submit time is not zero. */
module ShareRing {
  import opened Wrappers

  const SIZE := 8

  datatype Slot = Slot(thread: int, time: int)

  datatype Ring = Ring(slots: seq<Slot>, get: nat, put: nat)

  const EMPTY := Slot(0, 0)

  /** stats_ptr_incr. */
  function Incr(p: nat): nat { (p + 1) % SIZE }

  predicate WellFormed(r: Ring) { |r.slots| == SIZE && r.get < SIZE && r.put < SIZE }

  function Put(r: Ring, s: Slot): Ring
    requires WellFormed(r)
  {
    Ring(r.slots[r.put := s], r.get, Incr(r.put))
  }

  predicate HasRecord(r: Ring)
    requires WellFormed(r)
  {
    r.slots[r.get].time != 0
  }

  /** The record at the get pointer is read and wiped, if there is one. */
  function Take(r: Ring): Ring
    requires WellFormed(r)
  {
    if HasRecord(r) then Ring(r.slots[r.get := EMPTY], Incr(r.get), r.put) else r
  }

  /** The slot j places after the get pointer. */
  function At(r: Ring, j: nat): nat { if r.get + j < SIZE then r.get + j else r.get + j - SIZE }

  /** The ring holds exactly these records, oldest first, from the get pointer on. */
  ghost predicate Represents(r: Ring, out: seq<Slot>) {
    && WellFormed(r) && |out| <= SIZE && r.put == At(r, |out|)
    && (forall j | 0 <= j < |out| :: out[j].time != 0 && r.slots[At(r, j)] == out[j])
    && (forall j | |out| <= j < SIZE :: r.slots[At(r, j)] == EMPTY)
  }

  lemma AtDistinct(r: Ring, i: nat, j: nat)
    requires i < j < SIZE && r.get < SIZE
    ensures At(r, i) != At(r, j)
  {}

  lemma AtNext(r: Ring, r': Ring, j: nat)
    requires r.get < SIZE && r'.get == Incr(r.get) && j < SIZE
    ensures At(r', j) == At(r, j + 1) && At(r, SIZE) == At(r, 0) == r.get && Incr(At(r, j)) == At(r, j + 1)
  {}

  lemma PutRepresents(r: Ring, out: seq<Slot>, s: Slot)
    requires Represents(r, out) && |out| < SIZE && s.time != 0
    ensures Represents(Put(r, s), out + [s])
  {
    var r' := Put(r, s);
    forall j | 0 <= j < SIZE && j != |out| ensures r'.slots[At(r', j)] == r.slots[At(r, j)] {
      if j < |out| { AtDistinct(r, j, |out|); } else { AtDistinct(r, |out|, j); }
    }
    AtNext(r, Ring(r.slots, Incr(r.get), 0), |out|);
  }

  lemma TakeRepresents(r: Ring, out: seq<Slot>)
    requires Represents(r, out)
    ensures HasRecord(r) == (out != [])
    ensures out != [] ==> r.slots[r.get] == out[0] && Represents(Take(r), out[1..])
    ensures out == [] ==> Take(r) == r
  {
    assert r.slots[At(r, 0)] == r.slots[r.get];
    if out != [] {
      var r' := Take(r);
      forall j | 0 <= j < SIZE - 1 ensures r'.slots[At(r', j)] == r.slots[At(r, j + 1)] {
        AtNext(r, r', j);
        AtDistinct(r, 0, j + 1);
      }
      AtNext(r, r', SIZE - 1);
      assert r'.put == At(r', |out| - 1) by { AtNext(r, r', |out| - 1); }
    }
  }

  /** Which record the next reply finds, once one more is put. */
  lemma PutShows(r: Ring, out: seq<Slot>, s: Slot)
    requires Represents(r, out) && out != [] && s.time != 0
    ensures HasRecord(Put(r, s)) && Put(r, s).slots[r.get] == if |out| < SIZE then out[0] else s
  {
    assert r.slots[At(r, 0)] == out[0];
    if |out| < SIZE {
      AtDistinct(r, 0, |out|);
    }
  }

  // ------------------------------------------------------------------------------- the counters

  function Sum(s: seq<int>): int { if s == [] then 0 else Sum(s[..|s| - 1]) + s[|s| - 1] }

  lemma {:induction false} SumOfIncrement(s: seq<int>, t: nat)
    requires t < |s|
    ensures Sum(s[t := s[t] + 1]) == Sum(s) + 1
  {
    var s', n := s[t := s[t] + 1], |s| - 1;
    if t < n {
      SumOfIncrement(s[..n], t);
      assert s'[..n] == s[..n][t := s[..n][t] + 1];
    } else {
      assert s'[..n] == s[..n];
    }
  }

  lemma {:induction false} SumOfZeros(s: seq<int>)
    requires forall i | 0 <= i < |s| :: s[i] == 0
    ensures Sum(s) == 0
  {
    if s != [] {
      SumOfZeros(s[..|s| - 1]);
    }
  }

  ghost function Threads(out: seq<Slot>): (r: seq<int>)
    ensures |r| == |out| && forall i | 0 <= i < |out| :: r[i] == out[i].thread
  {
    seq(|out|, i requires 0 <= i < |out| => out[i].thread)
  }

  /** Those who submitted are those credited followed by those outstanding: the k-th record found is
      the k-th submitter's. */
  ghost predicate InOrder(submitters: seq<int>, credited: seq<int>, out: seq<Slot>) {
    submitters == credited + Threads(out)
  }

  /** The ring is a queue of the outstanding records, and those are in order. */
  ghost predicate IsQueue(r: Ring, submitters: seq<int>, credited: seq<int>, out: seq<Slot>) {
    Represents(r, out) && InOrder(submitters, credited, out)
  }

  lemma SubmitLast(r: Ring, submitters: seq<int>, credited: seq<int>, out: seq<Slot>, slot: Slot)
    requires IsQueue(r, submitters, credited, out) && |out| < SIZE && slot.time != 0
    ensures IsQueue(Put(r, slot), submitters + [slot.thread], credited, out + [slot])
  {
    PutRepresents(r, out, slot);
    assert Threads(out + [slot]) == Threads(out) + [slot.thread];
  }

  lemma CreditHead(submitters: seq<int>, credited: seq<int>, out: seq<Slot>)
    requires InOrder(submitters, credited, out) && out != []
    ensures InOrder(submitters, credited + [out[0].thread], out[1..])
  {
    assert Threads(out) == [out[0].thread] + Threads(out[1..]);
    assert credited + ([out[0].thread] + Threads(out[1..])) == (credited + [out[0].thread]) + Threads(out[1..]);
  }

  lemma ReplyFirst(r: Ring, submitters: seq<int>, credited: seq<int>, out: seq<Slot>)
    requires IsQueue(r, submitters, credited, out)
    ensures HasRecord(r) <==> out != []
    ensures if out == [] then IsQueue(Take(r), submitters, credited, [])
            else r.slots[r.get] == out[0] && IsQueue(Take(r), submitters, credited + [out[0].thread], out[1..])
  {
    TakeRepresents(r, out);
    if out != [] {
      CreditHead(submitters, credited, out);
    }
  }

  lemma ThreadsNext(s: seq<Slot>, k: nat)
    requires k < |s|
    ensures Threads(s[..k + 1]) == Threads(s[..k]) + [s[k].thread] && s[k..][0] == s[k] && s[k..][1..] == s[k + 1..]
  {
    assert s[..k + 1] == s[..k] + [s[k]];
  }

  /** What the pool answered: accepted, refused as stale, or refused. */
  datatype Verdict = Accepted | Stale | Rejected

  /** Totals, and per-thread counts. */
  datatype Counts = Counts(submitted: int, accepted: int, rejected: int, stale: int,
                           thrSubmitted: seq<int>, thrAccepted: seq<int>, thrRejected: seq<int>)

  /** One more in the thread's own count, if there is such a thread. */
  function Bump(s: seq<int>, t: int): (s': seq<int>)
    ensures |s'| == |s|
  {
    if 0 <= t < |s| then s[t := s[t] + 1] else s
  }

  lemma BumpAt(s: seq<int>, t: int, u: int)
    requires 0 <= u < |s|
    ensures Bump(s, t)[u] == s[u] + if u == t then 1 else 0
  {}

  function CountSubmit(c: Counts, t: int): Counts {
    c.(submitted := c.submitted + 1, thrSubmitted := Bump(c.thrSubmitted, t))
  }

  /** The totals count every reply; a thread is credited only where its record was found. */
  function CountReply(c: Counts, v: Verdict, t: Option<int>): Counts {
    match v
    case Accepted =>
      c.(accepted := c.accepted + 1, thrAccepted := if t.Some? then Bump(c.thrAccepted, t.value) else c.thrAccepted)
    case Stale => c.(stale := c.stale + 1)
    case Rejected =>
      c.(rejected := c.rejected + 1, thrRejected := if t.Some? then Bump(c.thrRejected, t.value) else c.thrRejected)
  }

  /** What no thread's count shows: submissions under an id that is no thread's, and replies that
      found no record or such an id's; and how many replies found no record at all. */
  datatype Astray = Astray(submitted: int, accepted: int, rejected: int, missed: int)

  function AstraySubmit(a: Astray, t: int, threads: nat): Astray {
    if 0 <= t < threads then a else a.(submitted := a.submitted + 1)
  }

  function AstrayReply(a: Astray, v: Verdict, t: Option<int>, threads: nat): Astray {
    var b := if t.Some? then a else a.(missed := a.missed + 1);
    if t.Some? && 0 <= t.value < threads then b
    else
      match v
      case Accepted => b.(accepted := b.accepted + 1)
      case Stale => b
      case Rejected => b.(rejected := b.rejected + 1)
  }

  /** Shares are conserved, and the threads' counts add up to the totals. */
  ghost predicate CountsOk(c: Counts, a: Astray, outstanding: int) {
    && |c.thrSubmitted| == |c.thrAccepted| == |c.thrRejected|
    && c.submitted + a.missed == c.accepted + c.rejected + c.stale + outstanding
    && c.submitted == Sum(c.thrSubmitted) + a.submitted
    && c.accepted == Sum(c.thrAccepted) + a.accepted
    && c.rejected == Sum(c.thrRejected) + a.rejected
  }

  lemma {:induction false} SumOfBump(s: seq<int>, t: int)
    ensures Sum(Bump(s, t)) == Sum(s) + if 0 <= t < |s| then 1 else 0
  {
    if 0 <= t < |s| {
      SumOfIncrement(s, t);
    }
  }

  lemma SubmitKeepsCounts(c: Counts, a: Astray, outstanding: int, t: int)
    requires CountsOk(c, a, outstanding)
    ensures CountsOk(CountSubmit(c, t), AstraySubmit(a, t, |c.thrSubmitted|), outstanding + 1)
  {
    SumOfBump(c.thrSubmitted, t);
  }

  lemma ReplyKeepsCounts(c: Counts, a: Astray, outstanding: int, v: Verdict, t: Option<int>)
    requires CountsOk(c, a, outstanding)
    ensures CountsOk(CountReply(c, v, t), AstrayReply(a, v, t, |c.thrSubmitted|),
                     outstanding - if t.Some? then 1 else 0)
  {
    if t.Some? {
      SumOfBump(c.thrAccepted, t.value);
      SumOfBump(c.thrRejected, t.value);
    }
  }

  // ------------------------------------------------------------------ what each count counts

  /** One reply: the verdict, and the thread of the record it found. */
  datatype Answer = Answer(verdict: Verdict, thread: Option<int>)

  function Occurrences(s: seq<int>, u: int): nat {
    if s == [] then 0 else Occurrences(s[..|s| - 1], u) + if s[|s| - 1] == u then 1 else 0
  }

  /** The replies with this verdict. */
  function Total(replies: seq<Answer>, v: Verdict): nat {
    if replies == [] then 0
    else Total(replies[..|replies| - 1], v) + if replies[|replies| - 1].verdict == v then 1 else 0
  }

  /** Those of them that found a record of thread u. */
  function TotalOf(replies: seq<Answer>, v: Verdict, u: int): nat {
    if replies == [] then 0
    else TotalOf(replies[..|replies| - 1], v, u) + if replies[|replies| - 1] == Answer(v, Some(u)) then 1 else 0
  }

  /** The threads of the records found, in order. */
  function Found(replies: seq<Answer>): seq<int> {
    if replies == [] then []
    else
      var t := replies[|replies| - 1].thread;
      Found(replies[..|replies| - 1]) + if t.Some? then [t.value] else []
  }

  /** Thread u's own counts are of its own submissions and of the replies credited to it. */
  ghost predicate CountsOf(c: Counts, submitters: seq<int>, replies: seq<Answer>, u: int)
    requires 0 <= u < |c.thrSubmitted| == |c.thrAccepted| == |c.thrRejected|
  {
    && c.thrSubmitted[u] == Occurrences(submitters, u)
    && c.thrAccepted[u] == TotalOf(replies, Accepted, u)
    && c.thrRejected[u] == TotalOf(replies, Rejected, u)
  }

  ghost predicate CountsAre(c: Counts, submitters: seq<int>, replies: seq<Answer>) {
    && c.submitted == |submitters| && c.accepted == Total(replies, Accepted)
    && c.rejected == Total(replies, Rejected) && c.stale == Total(replies, Stale)
    && |c.thrSubmitted| == |c.thrAccepted| == |c.thrRejected|
    && forall u | 0 <= u < |c.thrSubmitted| :: CountsOf(c, submitters, replies, u)
  }

  lemma AppendCounts(submitters: seq<int>, t: int, replies: seq<Answer>, a: Answer, v: Verdict, u: int)
    ensures Occurrences(submitters + [t], u) == Occurrences(submitters, u) + if t == u then 1 else 0
    ensures Total(replies + [a], v) == Total(replies, v) + if a.verdict == v then 1 else 0
    ensures TotalOf(replies + [a], v, u) == TotalOf(replies, v, u) + if a == Answer(v, Some(u)) then 1 else 0
    ensures Found(replies + [a]) == Found(replies) + if a.thread.Some? then [a.thread.value] else []
  {
    assert (submitters + [t])[..|submitters|] == submitters && (replies + [a])[..|replies|] == replies;
  }

  lemma SubmitCounted(c: Counts, submitters: seq<int>, replies: seq<Answer>, t: int)
    requires CountsAre(c, submitters, replies)
    ensures CountsAre(CountSubmit(c, t), submitters + [t], replies)
  {
    var c' := CountSubmit(c, t);
    forall u | 0 <= u < |c'.thrSubmitted| ensures CountsOf(c', submitters + [t], replies, u) {
      assert CountsOf(c, submitters, replies, u);
      BumpAt(c.thrSubmitted, t, u);
      AppendCounts(submitters, t, replies, Answer(Stale, None), Stale, u);
    }
  }

  lemma ReplyCountedFor(c: Counts, submitters: seq<int>, replies: seq<Answer>, a: Answer, u: int)
    requires |c.thrSubmitted| == |c.thrAccepted| == |c.thrRejected| && 0 <= u < |c.thrSubmitted|
    requires CountsOf(c, submitters, replies, u)
    ensures CountsOf(CountReply(c, a.verdict, a.thread), submitters, replies + [a], u)
  {
    AppendCounts(submitters, 0, replies, a, Accepted, u);
    AppendCounts(submitters, 0, replies, a, Rejected, u);
    if a.thread.Some? {
      BumpAt(c.thrAccepted, a.thread.value, u);
      BumpAt(c.thrRejected, a.thread.value, u);
    }
  }

  lemma ReplyCounted(c: Counts, submitters: seq<int>, replies: seq<Answer>, a: Answer)
    requires CountsAre(c, submitters, replies)
    ensures CountsAre(CountReply(c, a.verdict, a.thread), submitters, replies + [a])
  {
    var c' := CountReply(c, a.verdict, a.thread);
    AppendCounts(submitters, 0, replies, a, Accepted, 0);
    AppendCounts(submitters, 0, replies, a, Rejected, 0);
    AppendCounts(submitters, 0, replies, a, Stale, 0);
    forall u | 0 <= u < |c'.thrSubmitted| ensures CountsOf(c', submitters, replies + [a], u) {
      assert CountsOf(c, submitters, replies, u);
      ReplyCountedFor(c, submitters, replies, a, u);
    }
  }

  /** `submitters` and `credited` list, in order, the thread ids of the submissions and of the records
      replies found, `replies` the verdicts with them.  Until a record is lost, `out` lists the records outstanding. */
  class Accounts {
    var ring: Ring
    var counts: Counts
    ghost var out: seq<Slot>
    ghost var submitters: seq<int>
    ghost var credited: seq<int>
    ghost var replies: seq<Answer>
    ghost var astray: Astray
    ghost var lossy: bool

    /** Every count is of what it says, the totals and each thread's, and they balance; while no record
        has been lost the ring is a queue. */
    ghost predicate Valid()
      reads this
    {
      && WellFormed(ring) && CountsOk(counts, astray, |submitters| - |credited|)
      && CountsAre(counts, submitters, replies) && credited == Found(replies)
      && (!lossy ==> IsQueue(ring, submitters, credited, out))
    }

    /** At start: the ring is zeroed and nothing is counted. */
    constructor (threads: nat)
      ensures Valid() && !lossy && out == [] && submitters == [] && credited == [] && astray == Astray(0, 0, 0, 0)
      ensures counts.submitted == 0 && |counts.thrAccepted| == threads && replies == []
    {
      var zeros := seq(threads, _ => 0);
      SumOfZeros(zeros);
      ring := Ring(seq(SIZE, _ => EMPTY), 0, 0);
      counts := Counts(0, 0, 0, 0, zeros, zeros, zeros);
      out, submitters, credited, replies, astray, lossy := [], [], [], [], Astray(0, 0, 0, 0), false;
    }

    /** update_submit_stats, by any thread id at any time.  A record is lost by overwriting the oldest
        of eight, or by a clock that reads zero. */
    method Submit(t: int, now: int)
      requires Valid()
      modifies this
      ensures Valid() && ring == Put(old(ring), Slot(t, now)) && counts == CountSubmit(old(counts), t)
      ensures submitters == old(submitters) + [t] && credited == old(credited) && replies == old(replies)
      ensures astray == AstraySubmit(old(astray), t, |old(counts).thrSubmitted|)
      ensures lossy <==> old(lossy) || now == 0 || |old(out)| == 8
      ensures !lossy ==> out == old(out) + [Slot(t, now)]
    {
      SubmitCounted(counts, submitters, replies, t);
      CountSubmission(t, |submitters| - |credited|);
      PutRecord(t, now);
    }

    method CountSubmission(t: int, ghost outstanding: int)
      requires CountsOk(counts, astray, outstanding)
      modifies this`counts, this`astray
      ensures counts == CountSubmit(old(counts), t) && CountsOk(counts, astray, outstanding + 1)
      ensures astray == AstraySubmit(old(astray), t, |old(counts).thrSubmitted|)
    {
      SubmitKeepsCounts(counts, astray, outstanding, t);
      astray := AstraySubmit(astray, t, |counts.thrSubmitted|);
      counts := CountSubmit(counts, t);
    }

    method PutRecord(t: int, now: int)
      requires WellFormed(ring) && (!lossy ==> IsQueue(ring, submitters, credited, out))
      modifies this`ring, this`out, this`submitters, this`lossy
      ensures ring == Put(old(ring), Slot(t, now)) && WellFormed(ring) && submitters == old(submitters) + [t]
      ensures lossy <==> old(lossy) || now == 0 || |old(out)| == 8
      ensures !lossy ==> out == old(out) + [Slot(t, now)] && IsQueue(ring, submitters, credited, out)
    {
      lossy := lossy || now == 0 || |out| == SIZE;
      if !lossy {
        SubmitLast(ring, submitters, credited, out, Slot(t, now));
      }
      ring := Put(ring, Slot(t, now));
      out, submitters := out + [Slot(t, now)], submitters + [t];
    }

    /** share_result: take the record, count the verdict, credit the thread. */
    method Reply(v: Verdict) returns (t: Option<int>)
      requires Valid()
      modifies this
      ensures Valid() && ring == Take(old(ring)) && counts == CountReply(old(counts), v, t)
      ensures t == if HasRecord(old(ring)) then Some(old(ring).slots[old(ring).get].thread) else None
      ensures submitters == old(submitters) && credited == old(credited) + if t.Some? then [t.value] else []
      ensures replies == old(replies) + [Answer(v, t)] && lossy == old(lossy)
      ensures astray == AstrayReply(old(astray), v, t, |old(counts).thrSubmitted|)
      ensures !lossy ==> if old(out) == [] then t == None && out == []
                         else t == Some(old(out)[0].thread) && out == old(out)[1..]
    {
      ghost var outstanding := |submitters| - |credited|;
      t := TakeRecord();
      ReplyCounted(counts, submitters, replies, Answer(v, t));
      AppendCounts(submitters, 0, replies, Answer(v, t), v, 0);
      replies := replies + [Answer(v, t)];
      CountVerdict(v, t, outstanding);
    }

    /** Its first half: take the record, if there is one. */
    method TakeRecord() returns (t: Option<int>)
      requires WellFormed(ring) && (!lossy ==> IsQueue(ring, submitters, credited, out))
      modifies this`ring, this`out, this`credited
      ensures ring == Take(old(ring)) && WellFormed(ring)
      ensures t == if HasRecord(old(ring)) then Some(old(ring).slots[old(ring).get].thread) else None
      ensures credited == old(credited) + if t.Some? then [t.value] else []
      ensures !lossy ==> IsQueue(ring, submitters, credited, out)
      ensures !lossy ==> if old(out) == [] then t == None && out == []
                         else t == Some(old(out)[0].thread) && out == old(out)[1..]
    {
      if !lossy {
        ReplyFirst(ring, submitters, credited, out);
      }
      t := None;
      if ring.slots[ring.get].time != 0 {
        t := Some(ring.slots[ring.get].thread);
        out, credited := if lossy then out else out[1..], credited + [t.value];
      }
      ring := Take(ring);
    }

    method CountVerdict(v: Verdict, t: Option<int>, ghost outstanding: int)
      requires CountsOk(counts, astray, outstanding)
      modifies this`counts, this`astray
      ensures counts == CountReply(old(counts), v, t)
      ensures astray == AstrayReply(old(astray), v, t, |old(counts).thrSubmitted|)
      ensures CountsOk(counts, astray, outstanding - if t.Some? then 1 else 0)
    {
      ReplyKeepsCounts(counts, astray, outstanding, v, t);
      astray := AstrayReply(astray, v, t, |counts.thrSubmitted|);
      counts := CountReply(counts, v, t);
    }
  }

  // ---------------------------------------------------------------------------------- runs

  datatype Event = Submit(t: int, time: int) | Reply

  function RunRing(r: Ring, events: seq<Event>): (r': Ring)
    requires WellFormed(r)
    ensures WellFormed(r')
  {
    if events == [] then r
    else
      var before := RunRing(r, events[..|events| - 1]);
      match events[|events| - 1]
      case Submit(t, time) => Put(before, Slot(t, time))
      case Reply => Take(before)
  }

  /** Who the replies of a run are credited to, as the ring has it. */
  function Credited(r: Ring, events: seq<Event>): seq<int>
    requires WellFormed(r)
  {
    if events == [] then []
    else
      var before := RunRing(r, events[..|events| - 1]);
      Credited(r, events[..|events| - 1]) +
      if events[|events| - 1].Reply? && HasRecord(before) then [before.slots[before.get].thread] else []
  }

  function Submissions(events: seq<Event>): seq<Slot> {
    if events == [] then []
    else
      Submissions(events[..|events| - 1]) +
      match events[|events| - 1]
      case Submit(t, time) => [Slot(t, time)]
      case Reply => []
  }

  function Replies(events: seq<Event>): nat {
    if events == [] then 0 else Replies(events[..|events| - 1]) + if events[|events| - 1].Reply? then 1 else 0
  }

  /** Every reply answers a submission, and at no time are more than eight unanswered. */
  ghost predicate InStep(events: seq<Event>) {
    && (forall n | 0 <= n <= |events| :: 0 <= |Submissions(events[..n])| - Replies(events[..n]) <= 8)
    && (forall i | 0 <= i < |events| && events[i].Submit? :: events[i].time != 0)
  }

  lemma InStepPrefix(events: seq<Event>, n: nat)
    requires InStep(events) && n <= |events|
    ensures InStep(events[..n])
  {
    var p := events[..n];
    forall m | 0 <= m <= |p| ensures 0 <= |Submissions(p[..m])| - Replies(p[..m]) <= SIZE {
      assert p[..m] == events[..m];
    }
  }

  /** The ring and the credits after a run that is in step. */
  ghost predicate Tracks(r: Ring, events: seq<Event>)
    requires WellFormed(r)
  {
    var s, k := Submissions(events), Replies(events);
    k <= |s| && Represents(RunRing(r, events), s[k..]) && Credited(r, events) == Threads(s[..k])
  }

  lemma SubmitTracks(r: Ring, p: seq<Event>, e: Event)
    requires WellFormed(r) && Tracks(r, p) && e.Submit? && e.time != 0 && |Submissions(p)| - Replies(p) < SIZE
    ensures Tracks(r, p + [e])
  {
    var s, k, x := Submissions(p), Replies(p), Slot(e.t, e.time);
    assert (p + [e])[..|p|] == p;
    PutRepresents(RunRing(r, p), s[k..], x);
    assert (s + [x])[k..] == s[k..] + [x] && (s + [x])[..k] == s[..k];
  }

  lemma ReplyTracks(r: Ring, p: seq<Event>, e: Event)
    requires WellFormed(r) && Tracks(r, p) && e.Reply? && |Submissions(p)| - Replies(p) > 0
    ensures Tracks(r, p + [e])
  {
    var s, k := Submissions(p), Replies(p);
    assert (p + [e])[..|p|] == p;
    TakeRepresents(RunRing(r, p), s[k..]);
    ThreadsNext(s, k);
  }

  lemma CountStep(p: seq<Event>, e: Event)
    ensures |Submissions(p + [e])| - Replies(p + [e]) == |Submissions(p)| - Replies(p) + if e.Submit? then 1 else -1
  {
    assert (p + [e])[..|p|] == p;
  }

  /** In every such run the k-th reply is credited to the k-th submitter. */
  lemma {:induction false} KthReplyKthSubmitter(r: Ring, events: seq<Event>)
    requires Represents(r, []) && InStep(events)
    ensures Tracks(r, events)
    decreases |events|
  {
    if events != [] {
      var n := |events| - 1;
      var p, e := events[..n], events[n];
      assert events == p + [e] && events[..|events|] == events;
      InStepPrefix(events, n);
      KthReplyKthSubmitter(r, p);
      CountStep(p, e);
      assert 0 <= |Submissions(events[..|events|])| - Replies(events[..|events|]) <= SIZE;
      if e.Submit? {
        SubmitTracks(r, p, e);
      } else {
        ReplyTracks(r, p, e);
      }
    }
  }

  /** The limit is exact: after such a run with anything outstanding, one more submission and a reply
      credit the oldest outstanding submitter if fewer than eight were outstanding, and otherwise the
      newcomer, whose record has taken its place. */
  lemma OverflowMiscredits(r: Ring, events: seq<Event>, t: int, time: int)
    requires Represents(r, []) && InStep(events) && time != 0 && Replies(events) < |Submissions(events)|
    ensures var s, k := Submissions(events), Replies(events);
            Credited(r, events + [Submit(t, time), Reply]) ==
            Credited(r, events) + [if |s| - k < 8 then s[k].thread else t]
  {
    var s, k := Submissions(events), Replies(events);
    KthReplyKthSubmitter(r, events);
    var before := RunRing(r, events);
    PutShows(before, s[k..], Slot(t, time));
    assert events[..|events|] == events;
    var e1, e2 := events + [Submit(t, time)], events + [Submit(t, time), Reply];
    assert e1[..|events|] == events && e2[..|events| + 1] == e1;
    assert RunRing(r, e1) == Put(before, Slot(t, time));
  }
}
