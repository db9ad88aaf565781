/** Why a request is refused: every refusal names its reason, and no accepted request has one.  The limits
    are stated as numbers. */
module HttpRefusals {
  import opened Wrappers
  import opened Bytes
  import opened HttpParse
  import opened HttpFields

  // ------------------------------------------------------------------------- helpers, outright

  /** Contains is "is a part of". */
  lemma ContainsIsPart(s: string, part: string)
    ensures Contains(s, part) <==> exists a: string, b: string :: s == a + part + b
  {
    if Contains(s, part) {
      var i :| 0 <= i <= |s| && StandsAt(part, s, i);
      assert s == s[..i] + part + s[i + |part|..];
    }
    if a: string, b: string :| s == a + part + b {
      assert s[|a|..|a| + |part|] == part;
      assert StandsAt(part, s, |a|);
    }
  }

  /** The hexadecimal digits in either case, and nothing else. */
  lemma HexValIs(c: char, v: nat)
    requires v < 16
    ensures HexVal("0123456789abcdef"[v]) == v && HexVal("0123456789ABCDEF"[v]) == v
    ensures 0 <= HexVal(c) ==>
              HexVal(c) < 16 && (c == "0123456789abcdef"[HexVal(c)] || c == "0123456789ABCDEF"[HexVal(c)])
  {}

  // ------------------------------------------------------------------------------ the limits

  /** The path of a target as sent, and its query. */
  function SentPath(target: string): string { target[..IndexOf(target, '?')] }

  function SentQuery(target: string): string {
    if '?' in target then target[IndexOf(target, '?') + 1..] else ""
  }

  predicate TargetTooLong(target: string) { |SentPath(target)| >= 512 || |SentQuery(target)| >= 512 }

  /** More than 32 lines, or 8192 bytes in them, somewhere along the block. */
  ghost predicate TooManyLines(lines: seq<string>) {
    exists n :: 0 <= n <= |lines| && (n > 32 || TotalLength(lines[..n]) > 8192)
  }

  /** The same with so many lines and bytes before. */
  ghost predicate TooManyFrom(lines: seq<string>, before: nat, bytes: nat) {
    exists n :: 0 <= n <= |lines| && (before + n > 32 || bytes + TotalLength(lines[..n]) > 8192)
  }

  lemma FirstOf(line: string, rest: seq<string>, n: nat)
    requires n <= |rest|
    ensures ([line] + rest)[..n + 1] == [line] + rest[..n]
    ensures TotalLength(([line] + rest)[..n + 1]) == |line| + TotalLength(rest[..n])
  {
    assert ([line] + rest)[..n + 1] == [line] + rest[..n];
    assert ([line] + rest[..n])[1..] == rest[..n];
  }

  lemma OneLineOver(line: string, rest: seq<string>, before: nat, bytes: nat)
    requires before + 1 > 32 || bytes + |line| > 8192
    ensures TooManyFrom([line] + rest, before, bytes)
  {
    FirstOf(line, rest, 0);
    assert rest[..0] == [];
    assert before + 1 > 32 || bytes + TotalLength(([line] + rest)[..1]) > 8192;
  }

  lemma LaterLineOver(line: string, rest: seq<string>, before: nat, bytes: nat)
    requires TooManyFrom(rest, before + 1, bytes + |line|)
    ensures TooManyFrom([line] + rest, before, bytes)
  {
    var n :| 0 <= n <= |rest| && (before + 1 + n > 32 || bytes + |line| + TotalLength(rest[..n]) > 8192);
    FirstOf(line, rest, n);
    assert before + (n + 1) > 32 || bytes + TotalLength(([line] + rest)[..n + 1]) > 8192;
  }

  // -------------------------------------------------------------------------- the header lines

  /** A header line whose Content-Length is no length. */
  predicate BadLength(line: string) {
    ':' in line && IsNamed(NameOf(line), "content-length") && !IsLength(ValueOf(line))
  }

  ghost predicate AnyLine(lines: seq<string>, bad: string -> bool) { exists i :: 0 <= i < |lines| && bad(lines[i]) }

  ghost predicate SomeBadLength(lines: seq<string>) { AnyLine(lines, BadLength) }

  lemma {:induction false} LineStops(f: Fields, line: string)
    requires ApplyLine(SetField, f, line).Stop?
    ensures ApplyLine(SetField, f, line) == Stop(Bad) && BadLength(line)
  {
    LineSets(f, NameOf(line), ValueOf(line));
  }

  /** A line is refused only as bad, and only if it is. */
  ghost predicate StopsOnly(put: FieldSetter, bad: string -> bool) {
    forall f, line | ApplyLine(put, f, line).Stop? :: ApplyLine(put, f, line) == Stop(Bad) && bad(line)
  }

  lemma FieldsStopOnly()
    ensures StopsOnly(SetField, BadLength)
  {
    forall f, line | ApplyLine(SetField, f, line).Stop?
      ensures ApplyLine(SetField, f, line) == Stop(Bad) && BadLength(line)
    {
      LineStops(f, line);
    }
  }

  /** Why one turn of the header loop stops. */
  lemma TurnStops(put: FieldSetter, bad: string -> bool, head: string, at: Place)
    requires StopsOnly(put, bad) && at.p < |head| - 2 && HeaderTurn(put, head, at).Stop?
    ensures var line, why := LineAt(head, at.p), HeaderTurn(put, head, at).why;
            && (why == Bad || why == TooLarge)
            && (why == TooLarge ==> at.lines + 1 > 32 || at.bytes + |line| > 8192)
            && (why == Bad ==> at.p + |line| == |head| || bad(line))
  {}

  lemma BlockStarts(head: string, p: nat)
    requires p < |head| - 2
    ensures BlockLines(head, p) == [LineAt(head, p)] + BlockLines(head, p + |LineAt(head, p)| + 2)
  {}

  /** No line runs past the end of the block. */
  predicate Ends(head: string) { |head| >= 2 && head[|head| - 2] == '\r' }

  lemma LineHasEnd(head: string, p: nat)
    requires Ends(head) && p < |head| - 2
    ensures p + |LineAt(head, p)| < |head|
  {
    assert head[p..][|head| - 2 - p] == '\r';
  }

  /** Why the header loop stops. */
  ghost predicate BlockFails(bad: string -> bool, why: Refusal, lines: seq<string>, before: nat, bytes: nat) {
    && (why == Bad || why == TooLarge)
    && (why == TooLarge ==> TooManyFrom(lines, before, bytes))
    && (why == Bad ==> AnyLine(lines, bad))
  }

  lemma LaterFails(bad: string -> bool, why: Refusal, line: string, rest: seq<string>, at: Place, next: Place)
    requires BlockFails(bad, why, rest, next.lines, next.bytes)
    requires next.lines == at.lines + 1 && next.bytes == at.bytes + |line|
    ensures BlockFails(bad, why, [line] + rest, at.lines, at.bytes)
  {
    if why == TooLarge {
      LaterLineOver(line, rest, at.lines, at.bytes);
    } else {
      LaterBad(bad, line, rest);
    }
  }

  lemma LaterBad(bad: string -> bool, line: string, rest: seq<string>)
    requires AnyLine(rest, bad)
    ensures AnyLine([line] + rest, bad)
  {
    var i :| 0 <= i < |rest| && bad(rest[i]);
    var lines := [line] + rest;
    assert lines[i + 1] == rest[i];
  }

  lemma NowFails(put: FieldSetter, bad: string -> bool, head: string, at: Place, rest: seq<string>)
    requires StopsOnly(put, bad) && Ends(head) && at.p < |head| - 2 && HeaderTurn(put, head, at).Stop?
    ensures BlockFails(bad, HeaderTurn(put, head, at).why, [LineAt(head, at.p)] + rest, at.lines, at.bytes)
  {
    var line := LineAt(head, at.p);
    TurnStops(put, bad, head, at);
    LineHasEnd(head, at.p);
    if HeaderTurn(put, head, at).why == TooLarge {
      OneLineOver(line, rest, at.lines, at.bytes);
    } else {
      assert bad(([line] + rest)[0]);
    }
  }

  ghost predicate FailsAt(put: FieldSetter, bad: string -> bool, head: string, at: Place)
    requires HeaderLines(put, head, at).Stop?
  {
    BlockFails(bad, HeaderLines(put, head, at).why, BlockLines(head, at.p), at.lines, at.bytes)
  }

  lemma FailsLater(put: FieldSetter, bad: string -> bool, head: string, at: Place, next: Place)
    requires at.p < |head| - 2 && HeaderTurn(put, head, at) == Next(next)
    requires HeaderLines(put, head, next).Stop? && FailsAt(put, bad, head, next)
    ensures HeaderLines(put, head, at).Stop? && FailsAt(put, bad, head, at)
  {
    TurnReadsLine(put, head, at);
    LaterFails(bad, HeaderLines(put, head, next).why, LineAt(head, at.p), BlockLines(head, next.p), at, next);
  }

  lemma FailsNow(put: FieldSetter, bad: string -> bool, head: string, at: Place)
    requires StopsOnly(put, bad) && Ends(head) && at.p < |head| - 2 && HeaderTurn(put, head, at).Stop?
    ensures HeaderLines(put, head, at).Stop? && FailsAt(put, bad, head, at)
  {
    BlockStarts(head, at.p);
    NowFails(put, bad, head, at, BlockLines(head, at.p + |LineAt(head, at.p)| + 2));
  }

  lemma {:induction false} HeaderFails(put: FieldSetter, bad: string -> bool, head: string, at: Place)
    requires StopsOnly(put, bad) && Ends(head) && HeaderLines(put, head, at).Stop?
    ensures FailsAt(put, bad, head, at)
    decreases |head| - at.p
  {
    match HeaderTurn(put, head, at)
    case Next(next) =>
      HeaderFails(put, bad, head, next);
      FailsLater(put, bad, head, at, next);
    case Stop(_) => FailsNow(put, bad, head, at);
  }

  // -------------------------------------------------------------------------- the request line

  /** The target of a request line: the word between its first two spaces, if it has two. */
  function SentTarget(line: string): Option<string> {
    if ' ' !in line then None
    else
      var rest := line[IndexOf(line, ' ') + 1..];
      if ' ' !in rest then None else Some(rest[..IndexOf(rest, ' ')])
  }

  /** Absolute, decodable and without "..". */
  predicate GoodTarget(target: string) {
    && target != "" && target[0] == '/'
    && PercentDecode(CStr(SentPath(target))).Some? && PercentDecode(CStr(SentQuery(target))).Some?
    && !Contains(DropSlashes(PercentDecode(CStr(SentPath(target))).value), "..")
  }

  lemma TargetVerdict(name: string, target: string)
    ensures ParseTarget(name, target).Next? <==> GoodTarget(target) && !TargetTooLong(target)
    ensures ParseTarget(name, target) == Stop(TooLarge) ==> TargetTooLong(target)
    ensures ParseTarget(name, target) == Stop(Bad) ==> !GoodTarget(target)
    ensures ParseTarget(name, target) != Stop(Unsupported)
  {
    if target != "" && target[0] == '/' {
      SplitVerdict(target);
    }
  }

  lemma SplitVerdict(target: string)
    ensures TargetTooLong(target) ==> SplitTarget(target) == Stop(TooLarge)
    ensures !TargetTooLong(target) ==> SplitTarget(target) == Next((CStr(SentPath(target)), CStr(SentQuery(target))))
  {
    assert CStr("") == "";
  }

  /** What is asked of a request line. */
  predicate GoodLine(line: string) { SentTarget(line).Some? && GoodTarget(SentTarget(line).value) }

  predicate LineTooLong(line: string) {
    |line| > 2048 || (SentTarget(line).Some? && TargetTooLong(SentTarget(line).value))
  }

  lemma LineVerdict(line: string)
    requires |line| <= 2048
    ensures ParseRequestLine(line).Next? <==> GoodLine(line) && !LineTooLong(line)
    ensures ParseRequestLine(line) == Stop(TooLarge) ==> LineTooLong(line)
    ensures ParseRequestLine(line) == Stop(Bad) ==> !GoodLine(line)
    ensures ParseRequestLine(line) != Stop(Unsupported)
  {
    if SentTarget(line).Some? {
      TargetVerdict(line[..IndexOf(line, ' ')], SentTarget(line).value);
    }
  }

  // ------------------------------------------------------------------------------- the request

  /** The first line of a request. */
  function FirstLine(buf: string): string
    requires HeaderEnd(buf) != -1
  {
    LineOf(buf[..HeaderEnd(buf)])
  }

  predicate LengthOver(lines: seq<string>, n: nat) {
    var length := LastValue(lines, "content-length", Any);
    length.Some? && WholeNumber(Bounded(length.value, 32)).Some? && WholeNumber(Bounded(length.value, 32)).value > n
  }

  /** Why a header block and what follows it are refused. */
  ghost predicate BlockReason(why: Refusal, line: string, lines: seq<string>, more: bool) {
    match why
    case TooLarge => LineTooLong(line) || TooManyLines(lines) || LengthOver(lines, 8192)
    case Bad =>
      || !GoodLine(line) || SomeBadLength(lines)
      || (IsNamed(MethodName(line), "post") && more && LastValue(lines, "content-length", Any).None?)
    case Unsupported => LastValue(lines, "transfer-encoding", IsChunked).Some?
  }

  ghost predicate Reason(why: Refusal, buf: string) {
    if HeaderEnd(buf) == -1 then why == TooLarge && |buf| > 10240
    else BlockReason(why, FirstLine(buf), HeaderLinesOf(buf), HeaderEnd(buf) < |buf|)
  }

  lemma SameBound(lines: seq<string>)
    ensures TooManyFrom(lines, 0, 0) ==> TooManyLines(lines)
  {
    if TooManyFrom(lines, 0, 0) {
      var n :| 0 <= n <= |lines| && (0 + n > 32 || 0 + TotalLength(lines[..n]) > 8192);
      assert n > 32 || TotalLength(lines[..n]) > 8192;
    }
  }

  lemma {:induction false} PrefixIsShorter(lines: seq<string>, n: nat)
    requires n <= |lines|
    ensures TotalLength(lines[..n]) <= TotalLength(lines)
    decreases |lines|
  {
    if n > 0 {
      PrefixIsShorter(lines[1..], n - 1);
      assert lines[..n][1..] == lines[1..][..n - 1];
    }
  }

  lemma FewLines(lines: seq<string>)
    requires lines != [] ==> |lines| <= 32 && TotalLength(lines) <= 8192
    ensures !TooManyLines(lines)
  {
    forall n | 0 <= n <= |lines| ensures n <= 32 && TotalLength(lines[..n]) <= 8192 {
      PrefixIsShorter(lines, n);
    }
  }

  /** Header lines that are accepted hold no length that is none. */
  lemma {:induction false} NoBadLength(f: Fields, lines: seq<string>)
    requires FoldLines(SetField, f, lines).Next?
    ensures !SomeBadLength(lines)
    decreases |lines|
  {
    if lines != [] {
      NoBadLength(ApplyLine(SetField, f, lines[0]).value, lines[1..]);
      GoodFirst(f, lines[0]);
      forall i | 0 <= i < |lines| ensures !BadLength(lines[i]) {
        assert i > 0 ==> lines[i] == lines[1..][i - 1];
      }
    }
  }

  lemma GoodFirst(f: Fields, line: string)
    requires ApplyLine(SetField, f, line).Next?
    ensures !BadLength(line)
  {
    if ':' in line {
      LineSets(f, NameOf(line), ValueOf(line));
    }
  }

  lemma {:induction false} HeaderEndIsBlank(buf: string, i: nat)
    requires HeaderEndFrom(buf, i) != -1
    ensures HeaderEndFrom(buf, i) >= 4 && Ends(buf[..HeaderEndFrom(buf, i)])
    decreases |buf| - i
  {
    if !BlankLineAt(buf, i) {
      HeaderEndIsBlank(buf, i + 1);
    }
  }

  lemma JoinedFails(first: Stage<Target>, rest: Stage<Fields>)
    requires Joined(first, rest).Stop?
    ensures first.Stop? ==> Joined(first, rest).why == first.why
    ensures first.Next? ==> Joined(first, rest) == Joined(Next(first.value), rest)
  {}

  /** How far a header block that is refused gets. */
  lemma HeadStops(first: LineParser, put: FieldSetter, head: string)
    requires Ends(head) && ParseHeadWith(first, put, head).Stop?
    ensures IndexOf(head, '\r') < |head|
    ensures if IndexOf(head, '\r') > 2048 then ParseHeadWith(first, put, head).why == TooLarge
            else ParseHeadWith(first, put, head) ==
                 Joined(first(head[..IndexOf(head, '\r')]),
                        HeaderLines(put, head, Place(IndexOf(head, '\r') + 2, 0, 0, NO_FIELDS)))
  {
    assert head[|head| - 2] == '\r';
  }

  lemma JoinedReason(head: string, line: string, at: Place, first: Stage<Target>)
    requires Ends(head) && |line| <= 2048 && at == Place(at.p, 0, 0, NO_FIELDS) && first == ParseRequestLine(line)
    requires Joined(first, HeaderLines(SetField, head, at)).Stop?
    ensures BlockReason(Joined(first, HeaderLines(SetField, head, at)).why, line, BlockLines(head, at.p), false)
  {
    LineVerdict(line);
    JoinedFails(first, HeaderLines(SetField, head, at));
    if first.Next? {
      RestFails(head, at, first.value);
    }
  }

  /** Why a header block is refused. */
  lemma HeadFails(head: string)
    requires Ends(head) && ParseHead(head).Stop?
    ensures '\r' in head
    ensures BlockReason(ParseHead(head).why, LineOf(head), LinesOf(head), false)
  {
    HeadStops(ParseRequestLine, SetField, head);
    var line := head[..IndexOf(head, '\r')];
    if |line| <= 2048 {
      JoinedReason(head, line, Place(IndexOf(head, '\r') + 2, 0, 0, NO_FIELDS), ParseRequestLine(line));
    }
  }

  lemma RestFails(head: string, at: Place, t: Target)
    requires Ends(head) && at == Place(at.p, 0, 0, NO_FIELDS) && Joined(Next(t), HeaderLines(SetField, head, at)).Stop?
    ensures var why, lines := Joined(Next(t), HeaderLines(SetField, head, at)).why, BlockLines(head, at.p);
            && (why == TooLarge ==> TooManyLines(lines)) && (why == Bad ==> SomeBadLength(lines))
            && (why == Unsupported ==> LastValue(lines, "transfer-encoding", IsChunked).Some?)
  {
    if HeaderLines(SetField, head, at).Stop? {
      FieldsStopOnly();
      HeaderFails(SetField, BadLength, head, at);
      SameBound(BlockLines(head, at.p));
    } else {
      BlockFields(head, at.p, HeaderLines(SetField, head, at).value);
    }
  }

  ghost predicate Fits(lines: seq<string>, f: Fields) {
    && FoldLines(SetField, NO_FIELDS, lines) == Next(f) && !f.chunked
    && (lines != [] ==> |lines| <= 32 && TotalLength(lines) <= 8192)
  }

  lemma HeadLine(head: string, t: Target, f: Fields)
    requires ParseHead(head) == Next((t, f))
    ensures |LineOf(head)| <= 2048 && ParseRequestLine(LineOf(head)) == Next(t)
  {
    HeadHalves(ParseRequestLine, SetField, head, t, f);
    HeadLineShort(head);
  }

  lemma HeadLines(head: string, t: Target, f: Fields)
    requires ParseHead(head) == Next((t, f))
    ensures Fits(LinesOf(head), f)
  {
    HeadHalves(ParseRequestLine, SetField, head, t, f);
    LinesFit(head, IndexOf(head, '\r') + 2, f);
  }

  lemma LinesFit(head: string, p: nat, f: Fields)
    requires HeaderLines(SetField, head, Place(p, 0, 0, NO_FIELDS)) == Next(f) && !f.chunked
    ensures Fits(BlockLines(head, p), f)
  {
    HeaderIsLines(SetField, head, Place(p, 0, 0, NO_FIELDS));
  }

  lemma HeadLineShort(head: string)
    requires ParseHead(head).Next?
    ensures IndexOf(head, '\r') <= 2048
  {}

  lemma LinesSay(lines: seq<string>, f: Fields)
    requires Fits(lines, f)
    ensures FieldsAre(f, lines) && !TooManyLines(lines) && !SomeBadLength(lines)
  {
    assert FieldsAre(NO_FIELDS, []);
    FoldAdds(NO_FIELDS, [], lines);
    assert [] + lines == lines;
    FewLines(lines);
    NoBadLength(NO_FIELDS, lines);
  }

  lemma LineSays(line: string, t: Target)
    requires |line| <= 2048 && ParseRequestLine(line) == Next(t)
    ensures GoodLine(line) && !LineTooLong(line) && VerbIs(t.verb, MethodName(line))
  {
    LineVerdict(line);
    LineVerb(line);
    VerbByCharacters(MethodName(line));
  }

  /** The verdict on a header block and what follows it. */
  lemma DecidedFor(head: Stage<(Target, Fields)>, rest: string)
    ensures match Decide(head, rest)
            case Incomplete => head.Next? && head.value.1.length.Some? && |rest| < head.value.1.length.value
            case Ok(r) =>
              && head == Next((r.target, r.fields)) && !(r.target.verb == Post && rest != "" && r.fields.length.None?)
              && (r.fields.length.Some? ==> r.fields.length.value <= 8192)
            case Refused(why) =>
              || head == Stop(why)
              || (head.Next? && why == TooLarge && head.value.1.length.Some? && head.value.1.length.value > 8192)
              || (head.Next? && why == Bad && head.value.0.verb == Post && rest != "" && head.value.1.length.None?)
  {}

  lemma LengthOfFields(f: Fields, lines: seq<string>, n: nat)
    requires FieldsAre(f, lines)
    ensures LengthOver(lines, n) <==> f.length.Some? && f.length.value > n
    ensures f.length.None? <==> LastValue(lines, "content-length", Any).None?
  {}

  /** Which reasons are left to a header block that is accepted. */
  lemma BlockDecided(line: string, t: Target, lines: seq<string>, f: Fields, more: bool, why: Refusal)
    requires |line| <= 2048 && ParseRequestLine(line) == Next(t) && Fits(lines, f)
    ensures BlockReason(why, line, lines, more) <==>
            || (why == TooLarge && f.length.Some? && f.length.value > 8192)
            || (why == Bad && t.verb == Post && more && f.length.None?)
  {
    LineSays(line, t);
    LinesSay(lines, f);
    LengthOfFields(f, lines, 8192);
  }

  lemma AcceptedHead(head: string, t: Target, f: Fields, more: bool, why: Refusal)
    requires ParseHead(head) == Next((t, f))
    ensures BlockReason(why, LineOf(head), LinesOf(head), more) <==>
            || (why == TooLarge && f.length.Some? && f.length.value > 8192)
            || (why == Bad && t.verb == Post && more && f.length.None?)
  {
    HeadLine(head, t, f);
    HeadLines(head, t, f);
    BlockDecided(LineOf(head), t, LinesOf(head), f, more, why);
  }

  lemma ParseIs(buf: string, e: nat)
    requires HeaderEnd(buf) == e
    ensures Parse(buf) == Decide(ParseHead(buf[..e]), buf[e..])
  {}

  lemma ReasonOfHead(why: Refusal, buf: string, head: string, e: nat)
    requires HeaderEnd(buf) == e && head == buf[..e]
    ensures Reason(why, buf) <==> BlockReason(why, LineOf(head), LinesOf(head), e < |buf|)
  {}

  lemma MoreReason(why: Refusal, line: string, lines: seq<string>)
    requires BlockReason(why, line, lines, false)
    ensures BlockReason(why, line, lines, true)
  {}

  /** A refusal has its reason. */
  lemma RefusedForReason(buf: string, why: Refusal)
    requires Parse(buf) == Refused(why)
    ensures Reason(why, buf)
  {
    if HeaderEnd(buf) != -1 {
      var e := HeaderEnd(buf);
      RefusedBlock(buf[..e], buf[e..], why, e, buf);
    }
  }

  lemma RefusedBlock(head: string, rest: string, why: Refusal, e: nat, buf: string)
    requires HeaderEnd(buf) == e && head == buf[..e] && rest == buf[e..] && Parse(buf) == Refused(why)
    ensures Reason(why, buf)
  {
    ParseIs(buf, e);
    ReasonOfHead(why, buf, head, e);
    DecidedFor(ParseHead(head), rest);
    if ParseHead(head).Next? {
      AcceptedHead(head, ParseHead(head).value.0, ParseHead(head).value.1, e < |buf|, why);
    } else {
      HeaderEndIsBlank(buf, 0);
      HeadFails(head);
      MoreReason(why, LineOf(head), LinesOf(head));
    }
  }

  /** And an accepted request has none. */
  lemma AcceptedForNoReason(buf: string, why: Refusal)
    requires Parse(buf).Ok?
    ensures !Reason(why, buf)
  {
    var e := HeaderEnd(buf);
    AcceptedBlock(buf[..e], buf[e..], why, e, buf);
  }

  lemma AcceptedBlock(head: string, rest: string, why: Refusal, e: nat, buf: string)
    requires HeaderEnd(buf) == e && head == buf[..e] && rest == buf[e..] && Parse(buf).Ok?
    ensures !Reason(why, buf)
  {
    ParseIs(buf, e);
    ReasonOfHead(why, buf, head, e);
    DecidedFor(ParseHead(head), rest);
    AcceptedHead(head, ParseHead(head).value.0, ParseHead(head).value.1, e < |buf|, why);
  }

  /** A request is waited for only while its header block is not in, and could still be, or its body is
      not. */
  lemma IncompleteMeans(buf: string)
    requires Parse(buf) == Incomplete
    ensures if HeaderEnd(buf) == -1 then |buf| <= 10240 else LengthOver(HeaderLinesOf(buf), |buf| - HeaderEnd(buf))
  {
    if HeaderEnd(buf) != -1 {
      var e := HeaderEnd(buf);
      IncompleteBlock(buf[..e], buf[e..], e, buf);
    }
  }

  lemma IncompleteBlock(head: string, rest: string, e: nat, buf: string)
    requires HeaderEnd(buf) == e && head == buf[..e] && rest == buf[e..] && Parse(buf) == Incomplete
    ensures LengthOver(LinesOf(head), |buf| - e)
  {
    ParseIs(buf, e);
    DecidedFor(ParseHead(head), rest);
    var t, f := ParseHead(head).value.0, ParseHead(head).value.1;
    HeadLines(head, t, f);
    LinesSay(LinesOf(head), f);
    LengthOfFields(f, LinesOf(head), |rest|);
  }

  // ------------------------------------------------------------------------------- the target

  /** Only slashes are dropped, all those at the end but the first character. */
  lemma {:induction false} DropSlashesIs(path: string)
    ensures var d := DropSlashes(path);
            && d <= path && (forall i | |d| <= i < |path| :: path[i] == '/')
            && (|d| > 1 ==> d[|d| - 1] != '/') && (path != "" ==> d != "")
    decreases |path|
  {
    if |path| > 1 && path[|path| - 1] == '/' {
      DropSlashesIs(path[..|path| - 1]);
    }
  }

  /** What an accepted target says: its path and query are what it sent, decoded, the path without its
      trailing slashes, and it asks for pretty output exactly if the query has that in it. */
  ghost predicate TargetSays(t: Target, name: string, target: string) {
    && GoodTarget(target)
    && t.rawVerb == Bounded(name, 16)
    && t.path == DropSlashes(PercentDecode(CStr(SentPath(target))).value)
    && t.query == PercentDecode(CStr(SentQuery(target))).value
    && (t.pretty <==> exists a: string, b: string :: t.query == a + "pretty=1" + b)
  }

  lemma TargetIsRead(name: string, target: string, t: Target)
    requires ParseTarget(name, target) == Next(t)
    ensures TargetSays(t, name, target)
  {
    TargetVerdict(name, target);
    SplitVerdict(target);
    ContainsIsPart(t.query, "pretty=1");
  }

  lemma AcceptedTarget(buf: string, r: Request)
    requires Parse(buf) == Ok(r)
    ensures HeaderEnd(buf) != -1 && SentTarget(FirstLine(buf)).Some?
    ensures TargetSays(r.target, MethodName(FirstLine(buf)), SentTarget(FirstLine(buf)).value)
  {
    AcceptedParts(ParseHead, buf, r);
    var head := buf[..HeaderEnd(buf)];
    HeadHalves(ParseRequestLine, SetField, head, r.target, r.fields);
    TargetInLine(FirstLine(buf), r.target);
  }

  lemma TargetInLine(line: string, t: Target)
    requires ParseRequestLine(line) == Next(t)
    ensures SentTarget(line).Some? && TargetSays(t, MethodName(line), SentTarget(line).value)
  {
    TargetIsRead(MethodName(line), SentTarget(line).value, t);
  }

  // ------------------------------------------------------------------------------- the length

  predicate AllSpaces(s: string) {
    forall i | 0 <= i < |s| :: s[i] == ' ' || s[i] == '\t' || s[i] == '\n' || 11 <= s[i] as int <= 12 || s[i] == '\r'
  }

  predicate AllDigits(s: string) { forall i | 0 <= i < |s| :: '0' <= s[i] <= '9' }

  function Capped(n: int): int { if n > 9223372036854775807 then 9223372036854775807 else n }

  lemma {:induction false} SkipsSpaces(ws: string, rest: string)
    requires AllSpaces(ws) && (rest != "" ==> !IsSpace(rest[0]))
    ensures SkipSpace(ws + rest) == rest
    decreases |ws|
  {
    if ws == "" {
      assert ws + rest == rest;
    } else {
      assert (ws + rest)[1..] == ws[1..] + rest;
      SkipsSpaces(ws[1..], rest);
    }
  }

  lemma {:induction false} CountsDigits(s: string)
    requires AllDigits(s)
    ensures DigitCount(s) == |s|
    decreases |s|
  {
    if s != "" {
      CountsDigits(s[1..]);
    }
  }

  lemma WholeOf(s: string, a: string, b: string, negative: bool)
    requires SkipSpace(s) == a && b != "" && AllDigits(b)
    requires a == b || (a != "" && a[0] == (if negative then '-' else '+') && a[1..] == b)
    requires a == b ==> !negative
    ensures WholeNumber(s) == Some(if negative then -Capped(Decimal(b)) else Capped(Decimal(b)))
  {
    CountsDigits(b);
    assert b[..|b|] == b;
    assert a == b ==> IsDigit(a[0]);
  }

  /** White space, a sign or none, and digits are read as that number, capped at the largest long. */
  lemma NumberIsRead(ws: string, sign: string, digits: string)
    requires AllSpaces(ws) && (sign == "" || sign == "+" || sign == "-") && digits != "" && AllDigits(digits)
    ensures WholeNumber(ws + (sign + digits)) ==
            Some(if sign == "-" then -Capped(Decimal(digits)) else Capped(Decimal(digits)))
  {
    var a := sign + digits;
    SkipsSpaces(ws, a);
    assert if sign == "" then a == digits else a[1..] == digits;
    WholeOf(ws + a, a, digits, sign == "-");
  }

  lemma {:induction false} SpacesFirst(s: string) returns (ws: string)
    ensures AllSpaces(ws) && s == ws + SkipSpace(s)
    decreases |s|
  {
    if s != "" && IsSpace(s[0]) {
      var rest := SpacesFirst(s[1..]);
      ws := [s[0]] + rest;
    } else {
      ws := "";
    }
  }

  /** And nothing else is, but the empty string, which is read as 0. */
  lemma {:induction false} NumberForm(s: string) returns (ws: string, sign: string, digits: string)
    requires WholeNumber(s).Some? && s != ""
    ensures s == ws + (sign + digits) && AllSpaces(ws) && (sign == "" || sign == "+" || sign == "-")
    ensures digits != "" && AllDigits(digits)
  {
    ws := SpacesFirst(s);
    var a := SkipSpace(s);
    if a != "" && (a[0] == '-' || a[0] == '+') {
      sign, digits := a[..1], a[1..];
    } else {
      sign, digits := "", a;
    }
    assert DigitCount(digits) == |digits|;
  }
}
