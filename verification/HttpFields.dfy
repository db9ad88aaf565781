/** What an accepted request says: the verb by the characters of the method name, and every field by the
    header lines that set it. */
module HttpFields {
  import opened Wrappers
  import opened Bytes
  import opened HttpParse

  // ----------------------------------------------------------------------------------- names

  /** The character or, of a lower-case letter, its capital. */
  predicate IsChar(c: char, lower: char) {
    c == lower || ('a' <= lower <= 'z' && c as int + 32 == lower as int)
  }

  /** The name in any mixture of cases, given in lower case. */
  predicate IsNamed(s: string, lower: string) { |s| == |lower| && forall i | 0 <= i < |s| :: IsChar(s[i], lower[i]) }

  predicate IsLowered(name: string, lower: string) {
    |name| == |lower| && forall i | 0 <= i < |name| :: Lower(name[i]) == lower[i] && !('A' <= lower[i] <= 'Z')
  }

  lemma EqualIsNamed(s: string, name: string, lower: string)
    requires IsLowered(name, lower) && CiEqual(s, name)
    ensures IsNamed(s, lower)
  {
    forall i | 0 <= i < |s| ensures IsChar(s[i], lower[i]) {
      assert Lower(s[i]) == Lower(name[i]);
    }
  }

  lemma NamedIsEqual(s: string, name: string, lower: string)
    requires IsLowered(name, lower) && IsNamed(s, lower)
    ensures CiEqual(s, name)
  {
    forall i | 0 <= i < |s| ensures Lower(s[i]) == Lower(name[i]) {
      assert IsChar(s[i], lower[i]) && Lower(name[i]) == lower[i];
    }
  }

  lemma NamedIffEqual(s: string, name: string, lower: string)
    requires IsLowered(name, lower)
    ensures CiEqual(s, name) <==> IsNamed(s, lower)
  {
    if CiEqual(s, name) {
      EqualIsNamed(s, name, lower);
    }
    if IsNamed(s, lower) {
      NamedIsEqual(s, name, lower);
    }
  }

  lemma LetterAt(s: string, lower: string, i: nat)
    requires i < |lower|
    ensures IsNamed(s, lower) ==> i < |s| && IsChar(s[i], lower[i])
  {}

  /** The verb of a method name by its characters. */
  predicate VerbIs(verb: Verb, name: string) {
    && (verb == Get <==> IsNamed(name, "get"))
    && (verb == Head <==> IsNamed(name, "head"))
    && (verb == Post <==> IsNamed(name, "post"))
    && (verb == Options <==> IsNamed(name, "options"))
  }

  lemma VerbByCharacters(s: string)
    ensures VerbIs(VerbOf(s), s)
  {
    NamedIffEqual(s, "GET", "get");
    NamedIffEqual(s, "HEAD", "head");
    NamedIffEqual(s, "POST", "post");
    NamedIffEqual(s, "OPTIONS", "options");
    LetterAt(s, "head", 0);
    LetterAt(s, "post", 0);
  }

  lemma FieldNames(s: string)
    ensures CiEqual(s, "Content-Length") <==> IsNamed(s, "content-length")
    ensures CiEqual(s, "Authorization") <==> IsNamed(s, "authorization")
  {
    NamedIffEqual(s, "Content-Length", "content-length");
    NamedIffEqual(s, "Authorization", "authorization");
  }

  lemma ShortFieldNames(s: string)
    ensures CiEqual(s, "Origin") <==> IsNamed(s, "origin")
    ensures CiEqual(s, "Upgrade") <==> IsNamed(s, "upgrade")
  {
    NamedIffEqual(s, "Origin", "origin");
    NamedIffEqual(s, "Upgrade", "upgrade");
  }

  lemma TransferEncodingName(s: string)
    ensures CiEqual(s, "Transfer-Encoding") <==> IsNamed(s, "transfer-encoding")
  {
    NamedIffEqual(s, "Transfer-Encoding", "transfer-encoding");
  }

  lemma WebSocketKeyName(s: string)
    ensures CiEqual(s, "Sec-WebSocket-Key") <==> IsNamed(s, "sec-websocket-key")
  {
    NamedIffEqual(s, "Sec-WebSocket-Key", "sec-websocket-key");
  }

  /** Of the two names of seventeen characters a line has at most one. */
  lemma OneOfTwo(s: string)
    ensures !(IsNamed(s, "transfer-encoding") && IsNamed(s, "sec-websocket-key"))
  {
    LetterAt(s, "transfer-encoding", 0);
    LetterAt(s, "sec-websocket-key", 0);
  }

  lemma Beginnings(v: string)
    ensures CiPrefix(v, "chunked") <==> |v| >= 7 && IsNamed(v[..7], "chunked")
    ensures CiPrefix(v, "Bearer ") <==> |v| >= 7 && IsNamed(v[..7], "bearer ")
    ensures CiPrefix(v, "websocket") <==> |v| >= 9 && IsNamed(v[..9], "websocket")
  {
    if |v| >= 7 {
      NamedIffEqual(v[..7], "chunked", "chunked");
      NamedIffEqual(v[..7], "Bearer ", "bearer ");
    }
    if |v| >= 9 {
      NamedIffEqual(v[..9], "websocket", "websocket");
    }
  }

  // ------------------------------------------------------------------------------- one line

  predicate IsBearer(v: string) { |v| > 7 && IsNamed(v[..7], "bearer ") }

  predicate IsChunked(v: string) { |v| >= 7 && IsNamed(v[..7], "chunked") }

  predicate IsWebSocket(v: string) { |v| >= 9 && IsNamed(v[..9], "websocket") }

  /** A length the parser takes. */
  predicate IsLength(v: string) {
    WholeNumber(Bounded(v, 32)).Some? && WholeNumber(Bounded(v, 32)).value >= 0
  }

  /** What a header line of each name sets, for every value; each other field keeps what it has. */
  lemma LineSets(f: Fields, name: string, v: string)
    ensures SetField(f, name, v).Stop? <==> IsNamed(name, "content-length") && !IsLength(v)
    ensures SetField(f, name, v).Next? ==>
              var f' := SetField(f, name, v).value;
              && f'.length == (if IsNamed(name, "content-length") then WholeNumber(Bounded(v, 32)) else f.length)
              && (f'.chunked <==> f.chunked || (IsNamed(name, "transfer-encoding") && IsChunked(v)))
              && f'.bearer == (if IsNamed(name, "authorization") && IsBearer(v) then Bounded(SkipWs(v[7..]), 256)
                               else f.bearer)
              && f'.origin == (if IsNamed(name, "origin") then Bounded(v, 256) else f.origin)
              && (f'.websocket <==> f.websocket || (IsNamed(name, "upgrade") && IsWebSocket(v)))
              && f'.wsKey == (if IsNamed(name, "sec-websocket-key") then Bounded(v, 128) else f.wsKey)
  {
    FieldNames(name);
    ShortFieldNames(name);
    TransferEncodingName(name);
    WebSocketKeyName(name);
    OneOfTwo(name);
    Beginnings(v);
  }

  // ------------------------------------------------------------------------- the whole block

  /** The lines of a header block from p on. */
  function BlockLines(head: string, p: nat): seq<string>
    decreases |head| - p
  {
    if p >= |head| - 2 then [] else [LineAt(head, p)] + BlockLines(head, p + |LineAt(head, p)| + 2)
  }

  function FoldLines(put: FieldSetter, f: Fields, lines: seq<string>): Stage<Fields>
    decreases |lines|
  {
    if lines == [] then Next(f)
    else
      match ApplyLine(put, f, lines[0])
      case Stop(v) => Stop(v)
      case Next(f') => FoldLines(put, f', lines[1..])
  }

  function TotalLength(lines: seq<string>): nat {
    if lines == [] then 0 else |lines[0]| + TotalLength(lines[1..])
  }

  /** A turn that goes on has read the first of the lines left. */
  lemma TurnReadsLine(put: FieldSetter, head: string, at: Place)
    requires at.p < |head| - 2 && HeaderTurn(put, head, at).Next?
    ensures var next := HeaderTurn(put, head, at).value;
            && BlockLines(head, at.p) == [LineAt(head, at.p)] + BlockLines(head, next.p)
            && ApplyLine(put, at.fields, LineAt(head, at.p)) == Next(next.fields)
            && next.lines == at.lines + 1 <= MAX_HEADER_LINES
            && next.bytes == at.bytes + |LineAt(head, at.p)| <= MAX_HEADER_BYTES
  {}

  lemma FoldFirst(put: FieldSetter, f: Fields, line: string, rest: seq<string>)
    requires ApplyLine(put, f, line).Next?
    ensures FoldLines(put, f, [line] + rest) == FoldLines(put, ApplyLine(put, f, line).value, rest)
    ensures TotalLength([line] + rest) == |line| + TotalLength(rest)
  {
    assert ([line] + rest)[1..] == rest;
  }

  /** A header block that is accepted is its lines, one after the other, within the limits. */
  ghost predicate IsLines(put: FieldSetter, at: Place, block: seq<string>, r: Stage<Fields>) {
    && FoldLines(put, at.fields, block) == r
    && (block != [] ==> at.lines + |block| <= MAX_HEADER_LINES && at.bytes + TotalLength(block) <= MAX_HEADER_BYTES)
  }

  lemma OneMoreLine(put: FieldSetter, at: Place, next: Place, line: string, block: seq<string>, r: Stage<Fields>)
    requires ApplyLine(put, at.fields, line) == Next(next.fields) && IsLines(put, next, block, r)
    requires next.lines == at.lines + 1 <= MAX_HEADER_LINES && next.bytes == at.bytes + |line| <= MAX_HEADER_BYTES
    ensures IsLines(put, at, [line] + block, r)
  {
    FoldFirst(put, at.fields, line, block);
    if block == [] {
      assert TotalLength(block) == 0;
    }
  }

  lemma {:induction false} HeaderIsLines(put: FieldSetter, head: string, at: Place)
    requires HeaderLines(put, head, at).Next?
    ensures IsLines(put, at, BlockLines(head, at.p), HeaderLines(put, head, at))
    decreases |head| - at.p
  {
    if at.p < |head| - 2 {
      var next := HeaderTurn(put, head, at).value;
      TurnReadsLine(put, head, at);
      HeaderIsLines(put, head, next);
      OneMoreLine(put, at, next, LineAt(head, at.p), BlockLines(head, next.p), HeaderLines(put, head, next));
    }
  }

  function NameOf(line: string): string { line[..IndexOf(line, ':')] }

  function ValueOf(line: string): string
    requires ':' in line
  {
    SkipWs(line[IndexOf(line, ':') + 1..])
  }

  type Test = string -> bool

  /** The value of the last line of this name whose value passes the test. */
  function LastValue(lines: seq<string>, name: string, test: Test): Option<string> {
    if lines == [] then None
    else
      var line := lines[|lines| - 1];
      if ':' in line && IsNamed(NameOf(line), name) && test(ValueOf(line)) then Some(ValueOf(line))
      else LastValue(lines[..|lines| - 1], name, test)
  }

  predicate Any(v: string) { true }

  /** What the lines, taken together, say of each field. */
  predicate FieldsAre(f: Fields, lines: seq<string>) {
    var length, bearer := LastValue(lines, "content-length", Any), LastValue(lines, "authorization", IsBearer);
    var origin, key := LastValue(lines, "origin", Any), LastValue(lines, "sec-websocket-key", Any);
    && f.length == (if length.Some? then WholeNumber(Bounded(length.value, 32)) else None)
    && (length.Some? ==> f.length.Some?)
    && f.bearer == (if bearer.Some? then Bounded(SkipWs(CutFrom(bearer.value, 7)), 256) else "")
    && f.origin == (if origin.Some? then Bounded(origin.value, 256) else "")
    && f.wsKey == (if key.Some? then Bounded(key.value, 128) else "")
    && (f.chunked <==> LastValue(lines, "transfer-encoding", IsChunked).Some?)
    && (f.websocket <==> LastValue(lines, "upgrade", IsWebSocket).Some?)
  }

  function CutFrom(s: string, n: nat): string { if |s| >= n then s[n..] else "" }

  lemma LastValueStep(lines: seq<string>, line: string, name: string, test: Test)
    ensures LastValue(lines + [line], name, test) ==
            if ':' in line && IsNamed(NameOf(line), name) && test(ValueOf(line)) then Some(ValueOf(line))
            else LastValue(lines, name, test)
  {
    assert (lines + [line])[..|lines|] == lines;
  }

  lemma LineAdds(f: Fields, lines: seq<string>, line: string)
    requires FieldsAre(f, lines) && ApplyLine(SetField, f, line).Next?
    ensures FieldsAre(ApplyLine(SetField, f, line).value, lines + [line])
  {
    LastValueStep(lines, line, "content-length", Any);
    LastValueStep(lines, line, "authorization", IsBearer);
    LastValueStep(lines, line, "origin", Any);
    LastValueStep(lines, line, "sec-websocket-key", Any);
    LastValueStep(lines, line, "transfer-encoding", IsChunked);
    LastValueStep(lines, line, "upgrade", IsWebSocket);
    if ':' in line {
      LineSets(f, NameOf(line), ValueOf(line));
    }
  }

  lemma {:induction false} FoldAdds(f: Fields, done: seq<string>, lines: seq<string>)
    requires FieldsAre(f, done) && FoldLines(SetField, f, lines).Next?
    ensures FieldsAre(FoldLines(SetField, f, lines).value, done + lines)
    decreases |lines|
  {
    if lines == [] {
      assert done + lines == done;
    } else {
      LineAdds(f, done, lines[0]);
      FoldAdds(ApplyLine(SetField, f, lines[0]).value, done + [lines[0]], lines[1..]);
      MoveOne(done, lines);
    }
  }

  lemma MoveOne(done: seq<string>, lines: seq<string>)
    requires lines != []
    ensures (done + [lines[0]]) + lines[1..] == done + lines
  {}

  // ------------------------------------------------------------------------------- requests

  /** The first line of a header block, and the others. */
  function LineOf(head: string): string { head[..IndexOf(head, '\r')] }

  function LinesOf(head: string): seq<string> { BlockLines(head, IndexOf(head, '\r') + 2) }

  /** The lines of the header block of a request, after its first. */
  function HeaderLinesOf(buf: string): seq<string>
    requires HeaderEnd(buf) != -1
  {
    LinesOf(buf[..HeaderEnd(buf)])
  }

  lemma JoinedHalves(first: Stage<Target>, rest: Stage<Fields>, t: Target, f: Fields)
    requires Joined(first, rest) == Next((t, f))
    ensures first == Next(t) && rest == Next(f) && !f.chunked
  {}

  lemma HeadIsJoined(first: LineParser, put: FieldSetter, head: string)
    requires ParseHeadWith(first, put, head).Next?
    ensures IndexOf(head, '\r') < |head|
    ensures ParseHeadWith(first, put, head) ==
            Joined(first(head[..IndexOf(head, '\r')]),
                   HeaderLines(put, head, Place(IndexOf(head, '\r') + 2, 0, 0, NO_FIELDS)))
  {}

  /** The two halves of a header block that is accepted. */
  lemma HeadHalves(first: LineParser, put: FieldSetter, head: string, t: Target, f: Fields)
    requires ParseHeadWith(first, put, head) == Next((t, f))
    ensures IndexOf(head, '\r') < |head| && first(head[..IndexOf(head, '\r')]) == Next(t)
    ensures HeaderLines(put, head, Place(IndexOf(head, '\r') + 2, 0, 0, NO_FIELDS)) == Next(f) && !f.chunked
  {
    HeadIsJoined(first, put, head);
    JoinedHalves(first(head[..IndexOf(head, '\r')]),
                 HeaderLines(put, head, Place(IndexOf(head, '\r') + 2, 0, 0, NO_FIELDS)), t, f);
  }

  lemma BlockFields(head: string, p: nat, f: Fields)
    requires HeaderLines(SetField, head, Place(p, 0, 0, NO_FIELDS)) == Next(f)
    ensures FieldsAre(f, BlockLines(head, p))
  {
    HeaderIsLines(SetField, head, Place(p, 0, 0, NO_FIELDS));
    assert FieldsAre(NO_FIELDS, []);
    FoldAdds(NO_FIELDS, [], BlockLines(head, p));
    assert [] + BlockLines(head, p) == BlockLines(head, p);
  }

  lemma HeadFields(head: string, t: Target, f: Fields)
    requires ParseHead(head) == Next((t, f))
    ensures FieldsAre(f, LinesOf(head)) && !f.chunked
  {
    HeadHalves(ParseRequestLine, SetField, head, t, f);
    BlockFields(head, IndexOf(head, '\r') + 2, f);
  }

  lemma LineVerb(line: string)
    requires ParseRequestLine(line).Next?
    ensures ' ' in line && ParseRequestLine(line).value.verb == VerbOf(line[..IndexOf(line, ' ')])
  {}

  lemma HeadVerb(head: string, t: Target, f: Fields)
    requires ParseHead(head) == Next((t, f))
    ensures ' ' in head && t.verb == VerbOf(head[..IndexOf(head, ' ')])
  {
    var p := IndexOf(head, '\r');
    HeadHalves(ParseRequestLine, SetField, head, t, f);
    LineVerb(head[..p]);
    IndexInPrefix(head, p, ' ');
  }

  lemma InPrefix(s: string, j: nat)
    requires j < |s|
    ensures forall i | j < i <= |s| :: s[j] in s[..i]
  {
    forall i | j < i <= |s| ensures s[j] in s[..i] {
      assert s[..i][j] == s[j];
    }
  }

  lemma {:induction false} IndexOfIs(s: string, ch: char, i: nat)
    requires i < |s| && s[i] == ch && ch !in s[..i]
    ensures IndexOf(s, ch) == i
  {
    var j := IndexOf(s, ch);
    assert ch in s;
    InPrefix(s, i);
    InPrefix(s, j);
  }

  /** What is found in a prefix is found there in the whole. */
  lemma {:induction false} IndexInPrefix(s: string, n: nat, ch: char)
    requires n <= |s| && ch in s[..n]
    ensures ch in s && IndexOf(s, ch) == IndexOf(s[..n], ch) < n && s[..IndexOf(s, ch)] == s[..n][..IndexOf(s, ch)]
  {
    var i := IndexOf(s[..n], ch);
    assert s[..i] == s[..n][..i] && s[i] == ch;
    IndexOfIs(s, ch, i);
  }

  /** What the parser around a parser of header blocks accepts. */
  lemma AcceptedParts(h: HeadParser, buf: string, r: Request)
    requires ParseWith(h, buf) == Ok(r)
    ensures HeaderEnd(buf) != -1 && h(buf[..HeaderEnd(buf)]) == Next((r.target, r.fields))
    ensures |r.body| == if r.fields.length.Some? then r.fields.length.value else 0
    ensures r.target.verb == Post && HeaderEnd(buf) < |buf| ==> r.fields.length.Some?
  {}

  /** The method name of a request: what comes before the first space. */
  function MethodName(buf: string): string { buf[..IndexOf(buf, ' ')] }

  /** The verb is that of the name, and each field is what the last line that sets it says. */
  predicate Means(t: Target, f: Fields, name: string, lines: seq<string>) {
    VerbIs(t.verb, name) && FieldsAre(f, lines) && !f.chunked
  }

  lemma HeadMeans(head: string, t: Target, f: Fields)
    requires ParseHead(head) == Next((t, f))
    ensures ' ' in head && Means(t, f, MethodName(head), LinesOf(head))
  {
    HeadFields(head, t, f);
    HeadVerb(head, t, f);
    VerbByCharacters(MethodName(head));
  }

  lemma SameName(buf: string, e: nat, head: string)
    requires e <= |buf| && head == buf[..e] && ' ' in head
    ensures MethodName(buf) == MethodName(head)
  {
    IndexInPrefix(buf, e, ' ');
  }

  lemma PrefixMeans(buf: string, e: nat, head: string, t: Target, f: Fields)
    requires e <= |buf| && head == buf[..e] && ParseHead(head) == Next((t, f))
    ensures Means(t, f, MethodName(buf), LinesOf(head))
  {
    HeadMeans(head, t, f);
    SameName(buf, e, head);
  }

  /** What an accepted request says: its verb by the characters up to the first space, and each field by
      the last header line that sets it. */
  lemma AcceptedMeans(buf: string, r: Request)
    requires Parse(buf) == Ok(r)
    ensures HeaderEnd(buf) != -1 && Means(r.target, r.fields, MethodName(buf), HeaderLinesOf(buf))
  {
    AcceptedParts(ParseHead, buf, r);
    PrefixMeans(buf, HeaderEnd(buf), buf[..HeaderEnd(buf)], r.target, r.fields);
  }

  /** How long its body is, by its last Content-Length line. */
  predicate BodyIs(name: string, lines: seq<string>, body: string, more: bool) {
    var length := LastValue(lines, "content-length", Any);
    && (length.Some? ==> WholeNumber(Bounded(length.value, 32)) == Some(|body|))
    && (length.None? ==> body == "")
    && (IsNamed(name, "post") && more ==> length.Some?)
  }

  lemma BodyLength(t: Target, f: Fields, name: string, lines: seq<string>, body: string, more: bool)
    requires Means(t, f, name, lines) && |body| == if f.length.Some? then f.length.value else 0
    requires t.verb == Post && more ==> f.length.Some?
    ensures BodyIs(name, lines, body, more)
  {}

  /** The body of an accepted request is as long as the last Content-Length line says, and a POST with
      bytes after its header block has such a line. */
  lemma AcceptedBody(buf: string, r: Request)
    requires Parse(buf) == Ok(r)
    ensures HeaderEnd(buf) != -1 && BodyIs(MethodName(buf), HeaderLinesOf(buf), r.body, HeaderEnd(buf) < |buf|)
  {
    AcceptedMeans(buf, r);
    AcceptedParts(ParseHead, buf, r);
    BodyLength(r.target, r.fields, MethodName(buf), HeaderLinesOf(buf), r.body, HeaderEnd(buf) < |buf|);
  }
}
