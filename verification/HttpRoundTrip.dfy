/** Writing a request down and parsing it gives the request back, however it is split into reads. */
module HttpRoundTrip {
  import opened Wrappers
  import opened Bytes
  import opened HttpParse
  import opened HttpServe
  import opened HttpFields

  // -------------------------------------------------------------------------------- rendering

  function ToDecimal(n: nat): (s: string)
    ensures s != "" && forall i | 0 <= i < |s| :: IsDigit(s[i])
  {
    if n < 10 then ['0' + n as char] else ToDecimal(n / 10) + ['0' + (n % 10) as char]
  }

  /** What cannot stand for itself in a path, and in a query. */
  predicate PathSpecial(c: char) { c == '%' || c == ' ' || c == '\r' || c == '?' }

  predicate QuerySpecial(c: char) { c == '%' || c == ' ' || c == '\r' }

  /** The path "/" + p and the query q as they are written. */
  function RawPath(p: string): string
    requires Clean(p)
  {
    "/" + PercentEncode(PathSpecial, p)
  }

  function RawQuery(q: string): string
    requires Clean(q)
  {
    PercentEncode(QuerySpecial, q)
  }

  function RenderTarget(p: string, q: string): string
    requires Clean(p) && Clean(q)
  {
    RawPath(p) + ['?'] + RawQuery(q)
  }

  function RenderLine(name: string, p: string, q: string): string
    requires Clean(p) && Clean(q)
  {
    name + [' '] + (RenderTarget(p, q) + [' '] + "HTTP/1.1")
  }

  function RenderLength(n: nat): string { "Content-Length" + [':'] + ([' '] + ToDecimal(n)) }

  /** A header block of two lines without carriage returns. */
  function Block(line: string, field: string): string {
    line + ['\r'] + (['\n'] + (field + ['\r'] + "\n\r\n"))
  }

  function Render(name: string, p: string, q: string, body: string): string
    requires Clean(p) && Clean(q)
  {
    Block(RenderLine(name, p, q), RenderLength(|body|)) + body
  }

  /** A method name, path, query and body that have a place in the parser's fields.  That is exactly
      what the parser can produce: see `AcceptedIsRenderable`. */
  predicate Renderable(name: string, p: string, q: string, body: string) {
    && NameOk(name) && Clean(p) && Clean(q)
    && |RawPath(p)| < MAX_PATH && |RawQuery(q)| < MAX_QUERY && |body| <= MAX_BODY
    && !Contains("/" + p, "..") && (p != "" ==> p[|p| - 1] != '/')
  }

  predicate NameOk(name: string) { |name| < 16 && ' ' !in name && '\r' !in name && '\0' !in name }

  // ---------------------------------------------------------------------------- small pieces

  /** The first occurrence in a concatenation around the character. */
  lemma IndexOfAt(a: string, ch: char, b: string)
    requires ch !in a
    ensures IndexOf(a + [ch] + b, ch) == |a|
  {
    var s := a + [ch] + b;
    var i := IndexOf(s, ch);
    assert s[|a|] == ch;
    assert forall k | 0 <= k < |a| :: s[k] == a[k];
    assert forall k | 0 <= k < i :: s[..i][k] == s[k];
  }

  /** What percent encoding adds. */
  predicate Plain(c: char) { c == '%' || '0' <= c <= '9' || 'A' <= c <= 'F' }

  lemma {:induction false} NotInEncoded(special: Special, s: string, c: char)
    requires Clean(s) && !Plain(c) && (special(c) || c == '\0')
    ensures c !in PercentEncode(special, s)
  {
    if s != "" {
      NotInEncoded(special, s[1..], c);
    }
  }

  lemma {:induction false} DecimalRoundTrip(n: nat)
    ensures Decimal(ToDecimal(n)) == n
  {
    var s := ToDecimal(n);
    if n >= 10 {
      DecimalRoundTrip(n / 10);
      assert s[..|s| - 1] == ToDecimal(n / 10);
    } else {
      assert s[..0] == "" && Decimal(s[..0]) == 0;
    }
  }

  lemma DecimalIsShort(n: nat)
    requires n < 10000
    ensures |ToDecimal(n)| <= 4
  {
    var n1 := n / 10;
    var n2 := n1 / 10;
    var n3 := n2 / 10;
    assert |ToDecimal(n3)| == 1;
    assert |ToDecimal(n2)| <= 2;
    assert |ToDecimal(n1)| <= 3;
  }

  lemma {:induction false} AllDigits(s: string)
    requires forall i | 0 <= i < |s| :: IsDigit(s[i])
    ensures DigitCount(s) == |s|
  {
    if s != "" {
      AllDigits(s[1..]);
    }
  }

  lemma NumberIsRead(n: nat)
    requires n <= MAX_BODY
    ensures WholeNumber(Bounded(ToDecimal(n), 32)) == Some(n)
  {
    var d := ToDecimal(n);
    DecimalIsShort(n);
    assert '\0' !in d;
    assert CStr(d) == d;
    assert SkipSpace(d) == d;
    AllDigits(d);
    DecimalRoundTrip(n);
    assert d[..|d|] == d;
  }

  // -------------------------------------------------------------------------------- the target

  lemma CStrOfClean(s: string)
    requires '\0' !in s
    ensures CStr(s) == s
  {}

  lemma TargetSplits(p: string, q: string)
    requires Clean(p) && Clean(q) && |RawPath(p)| < MAX_PATH && |RawQuery(q)| < MAX_QUERY
    ensures SplitTarget(RenderTarget(p, q)) == Next((RawPath(p), RawQuery(q)))
  {
    var a, b := RawPath(p), RawQuery(q);
    var t := RenderTarget(p, q);
    NotInEncoded(PathSpecial, p, '?');
    NotInEncoded(PathSpecial, p, '\0');
    NotInEncoded(QuerySpecial, q, '\0');
    IndexOfAt(a, '?', b);
    assert t[..|a|] == a && t[|a| + 1..] == b;
    CStrOfClean(a);
    CStrOfClean(b);
  }

  lemma PathDecodes(p: string)
    requires Clean(p)
    ensures PercentDecode(RawPath(p)) == Some("/" + p)
  {
    DecodeOfEncode(PathSpecial, p);
    var s := RawPath(p);
    assert s[0] == '/' && s[1..] == PercentEncode(PathSpecial, p);
  }

  function TargetOf(name: string, p: string, q: string): Target {
    Target(VerbOf(name), name, "/" + p, q, Contains(q, "pretty=1"))
  }

  lemma DecodesTo(v: Verb, name: string, rawPath: string, rawQuery: string, path: string, q: string)
    requires PercentDecode(rawPath) == Some(path) && PercentDecode(rawQuery) == Some(q)
    requires path != "" && (|path| > 1 ==> path[|path| - 1] != '/') && !Contains(path, "..")
    ensures DecodeTarget(v, name, rawPath, rawQuery) == Next(Target(v, name, path, q, Contains(q, "pretty=1")))
  {
    assert DropSlashes(path) == path;
  }

  lemma TargetIsRead(name: string, p: string, q: string, body: string)
    requires Renderable(name, p, q, body)
    ensures ParseTarget(name, RenderTarget(p, q)) == Next(TargetOf(name, p, q))
  {
    CStrOfClean(name);
    TargetSplits(p, q);
    PathDecodes(p);
    DecodeOfEncode(QuerySpecial, q);
    DecodesTo(VerbOf(name), name, RawPath(p), RawQuery(q), "/" + p, q);
    ParsesTo(name, RenderTarget(p, q), RawPath(p), RawQuery(q));
  }

  lemma ParsesTo(name: string, target: string, rawPath: string, rawQuery: string)
    requires SplitTarget(target) == Next((rawPath, rawQuery)) && target != "" && target[0] == '/'
    ensures ParseTarget(name, target) == DecodeTarget(VerbOf(name), Bounded(name, 16), rawPath, rawQuery)
  {}

  lemma LineSplits(name: string, t: string, version: string)
    requires ' ' !in name && ' ' !in t
    ensures ParseRequestLine(name + [' '] + (t + [' '] + version)) == ParseTarget(name, t)
  {
    var rest := t + [' '] + version;
    var line := name + [' '] + rest;
    IndexOfAt(name, ' ', rest);
    IndexOfAt(t, ' ', version);
    assert line[..|name|] == name && line[|name| + 1..] == rest && rest[..|t|] == t;
  }

  lemma TargetIsPlain(p: string, q: string)
    requires Clean(p) && Clean(q)
    ensures ' ' !in RenderTarget(p, q) && '\r' !in RenderTarget(p, q)
  {
    NotInEncoded(PathSpecial, p, ' ');
    NotInEncoded(QuerySpecial, q, ' ');
    NotInEncoded(PathSpecial, p, '\r');
    NotInEncoded(QuerySpecial, q, '\r');
  }

  lemma LineIsRead(name: string, p: string, q: string, body: string)
    requires Renderable(name, p, q, body)
    ensures ParseRequestLine(RenderLine(name, p, q)) == Next(TargetOf(name, p, q))
    ensures '\r' !in RenderLine(name, p, q) && |RenderLine(name, p, q)| <= MAX_REQLINE
  {
    TargetIsPlain(p, q);
    TargetIsRead(name, p, q, body);
    LineSplits(name, RenderTarget(p, q), "HTTP/1.1");
    LineIsPlain(name, RenderTarget(p, q));
  }

  lemma LineIsPlain(name: string, t: string)
    requires '\r' !in name && '\r' !in t
    ensures '\r' !in name + [' '] + (t + [' '] + "HTTP/1.1")
    ensures |name + [' '] + (t + [' '] + "HTTP/1.1")| == |name| + |t| + 10
  {}

  // ------------------------------------------------------------------------------ the header

  lemma FieldSplits(put: FieldSetter, f: Fields, name: string, v: string)
    requires ':' !in name
    ensures ApplyLine(put, f, name + [':'] + v) == put(f, name, SkipWs(v))
  {
    var line := name + [':'] + v;
    IndexOfAt(name, ':', v);
    assert line[..|name|] == name && line[|name| + 1..] == v;
  }

  lemma LengthIsSet(f: Fields, n: nat)
    requires n <= MAX_BODY
    ensures SetField(f, "Content-Length", ToDecimal(n)) == Next(f.(length := Some(n)))
  {
    NumberIsRead(n);
  }

  lemma LengthIsPlain(n: nat)
    requires n <= MAX_BODY
    ensures '\r' !in RenderLength(n) && |RenderLength(n)| <= 20 && RenderLength(n)[0] == 'C'
  {
    DecimalIsShort(n);
  }

  lemma LengthIsRead(f: Fields, n: nat)
    requires n <= MAX_BODY
    ensures ApplyLine(SetField, f, RenderLength(n)) == Next(f.(length := Some(n)))
  {
    var d := ToDecimal(n);
    var v := [' '] + d;
    assert v[1..] == d && SkipWs(v) == d;
    FieldSplits(SetField, f, "Content-Length", v);
    LengthIsSet(f, n);
  }

  lemma BlockLayout(line: string, field: string)
    ensures var b := Block(line, field);
            && |b| == |line| + |field| + 6
            && b[..|line|] == line && b[|line| + 2..] == field + ['\r'] + "\n\r\n"
            && b[|line|] == '\r' && b[|line| + 1] == '\n'
            && b[|line| + 2..|line| + 2 + |field|] == field
            && b[|line| + 2 + |field|] == '\r' && b[|line| + 3 + |field|] == '\n'
            && b[|line| + 4 + |field|] == '\r' && b[|line| + 5 + |field|] == '\n'
  {}

  lemma HeadSplits(first: LineParser, put: FieldSetter, line: string, field: string, t: Target, f: Fields)
    requires '\r' !in line && |line| <= MAX_REQLINE && first(line) == Next(t)
    requires '\r' !in field && |field| <= MAX_HEADER_BYTES && ApplyLine(put, NO_FIELDS, field) == Next(f) && !f.chunked
    ensures ParseHeadWith(first, put, Block(line, field)) == Next((t, f))
  {
    FieldsAreRead(put, line, field, f);
    FirstLine(line, field);
    HeadParses(first, put, Block(line, field), line, t, f);
  }

  lemma FirstLine(line: string, field: string)
    requires '\r' !in line
    ensures var b := Block(line, field); |line| < |b| && IndexOf(b, '\r') == |line| && b[..|line|] == line
  {
    BlockLayout(line, field);
    IndexOfAt(line, '\r', ['\n'] + (field + ['\r'] + "\n\r\n"));
  }

  lemma HeadParses(first: LineParser, put: FieldSetter, head: string, line: string, t: Target, f: Fields)
    requires |line| < |head| && IndexOf(head, '\r') == |line| <= MAX_REQLINE && head[..|line|] == line
    requires first(line) == Next(t) && !f.chunked
    requires HeaderLines(put, head, Place(|line| + 2, 0, 0, NO_FIELDS)) == Next(f)
    ensures ParseHeadWith(first, put, head) == Next((t, f))
  {
    JoinsTo(first(line), HeaderLines(put, head, Place(|line| + 2, 0, 0, NO_FIELDS)), t, f);
  }

  lemma JoinsTo(first: Stage<Target>, rest: Stage<Fields>, t: Target, f: Fields)
    requires first == Next(t) && rest == Next(f) && !f.chunked
    ensures Joined(first, rest) == Next((t, f))
  {}

  lemma SecondLine(line: string, field: string)
    requires '\r' !in field
    ensures LineAt(Block(line, field), |line| + 2) == field
  {
    BlockLayout(line, field);
    IndexOfAt(field, '\r', "\n\r\n");
  }

  lemma FieldsAreRead(put: FieldSetter, line: string, field: string, f: Fields)
    requires '\r' !in field && |field| <= MAX_HEADER_BYTES && ApplyLine(put, NO_FIELDS, field) == Next(f)
    ensures HeaderLines(put, Block(line, field), Place(|line| + 2, 0, 0, NO_FIELDS)) == Next(f)
  {
    var head, k := Block(line, field), |line| + 2;
    assert |head| == |line| + |field| + 6;
    SecondLine(line, field);
    var next := Place(k + |field| + 2, 1, |field|, f);
    assert HeaderTurn(put, head, Place(k, 0, 0, NO_FIELDS)) == Next(next);
    assert HeaderLines(put, head, next) == Next(f);
  }

  lemma HeadIsRead(name: string, p: string, q: string, body: string)
    requires Renderable(name, p, q, body)
    ensures ParseHead(Block(RenderLine(name, p, q), RenderLength(|body|))) ==
            Next((TargetOf(name, p, q), NO_FIELDS.(length := Some(|body|))))
  {
    LineIsRead(name, p, q, body);
    LengthIsRead(NO_FIELDS, |body|);
    LengthIsPlain(|body|);
    HeadSplits(ParseRequestLine, SetField, RenderLine(name, p, q), RenderLength(|body|), TargetOf(name, p, q),
               NO_FIELDS.(length := Some(|body|)));
  }

  lemma {:induction false} FirstBlankLine(buf: string, i: nat, m: nat)
    requires i <= m && BlankLineAt(buf, m) && forall k | i <= k < m :: !BlankLineAt(buf, k)
    ensures HeaderEndFrom(buf, i) == m + 4
    decreases m - i
  {
    if i < m {
      FirstBlankLine(buf, i + 1, m);
    }
  }

  lemma BlockEnds(line: string, field: string, body: string)
    requires '\r' !in line && '\r' !in field && field != "" && field[0] == 'C'
    ensures HeaderEnd(Block(line, field) + body) == |Block(line, field)|
  {
    var b := Block(line, field);
    var buf := b + body;
    BlockLayout(line, field);
    var m := |b| - 4;
    forall k | 0 <= k < m ensures !BlankLineAt(buf, k) {
      assert buf[k] == b[k];
      if k < |line| {
        assert b[k] == line[k];
      } else if k >= |line| + 2 {
        assert b[k] == b[|line| + 2..|line| + 2 + |field|][k - |line| - 2];
      } else {
        assert buf[|line| + 2] == b[|line| + 2] == b[|line| + 2..|line| + 2 + |field|][0] == 'C';
      }
    }
    FirstBlankLine(buf, 0, m);
  }

  /** A block and its body, for any parser of blocks. */
  lemma ParseOfParts(h: HeadParser, line: string, field: string, body: string, t: Target, f: Fields)
    requires '\r' !in line && '\r' !in field && field != "" && field[0] == 'C'
    requires h(Block(line, field)) == Next((t, f)) && f.length == Some(|body|) && |body| <= MAX_BODY
    ensures ParseWith(h, Block(line, field) + body) == Ok(Request(t, f, body))
    ensures HeaderEnd(Block(line, field) + body) == |line| + |field| + 6 && !LoosePost(h, Block(line, field) + body)
  {
    BlockEnds(line, field, body);
    BlockLayout(line, field);
    var b := Block(line, field);
    assert (b + body)[..|b|] == b && (b + body)[|b|..] == body && body[..|body|] == body;
  }

  function RequestOf(name: string, p: string, q: string, body: string): Request
  {
    Request(TargetOf(name, p, q), NO_FIELDS.(length := Some(|body|)), body)
  }

  lemma RenderedParts(name: string, p: string, q: string, body: string)
    requires Renderable(name, p, q, body)
    ensures ParseWith(ParseHead, Render(name, p, q, body)) == Ok(RequestOf(name, p, q, body))
    ensures HeaderEnd(Render(name, p, q, body)) <= LAST_END && !LoosePost(ParseHead, Render(name, p, q, body))
  {
    LineIsRead(name, p, q, body);
    LengthIsPlain(|body|);
    HeadIsRead(name, p, q, body);
    ParseOfParts(ParseHead, RenderLine(name, p, q), RenderLength(|body|), body, TargetOf(name, p, q),
                 NO_FIELDS.(length := Some(|body|)));
  }

  /** Every renderable request, written down, is parsed back to itself. */
  lemma ParseOfRender(name: string, p: string, q: string, body: string)
    requires Renderable(name, p, q, body)
    ensures Parse(Render(name, p, q, body)) == Ok(RequestOf(name, p, q, body))
    ensures VerbIs(RequestOf(name, p, q, body).target.verb, name)
  {
    RenderedParts(name, p, q, body);
    VerbByCharacters(name);
  }

  /** And that however its bytes arrive. */
  lemma DeliveredHoweverSplit(name: string, p: string, q: string, body: string, cuts: seq<nat>)
    requires Renderable(name, p, q, body) && Covers(cuts, Render(name, p, q, body))
    ensures ServeFrom(ParseHead, Render(name, p, q, body), cuts, 0) == Ok(RequestOf(name, p, q, body))
    ensures VerbIs(RequestOf(name, p, q, body).target.verb, name)
  {
    RenderedParts(name, p, q, body);
    VerbByCharacters(name);
    ServerVerdict(Render(name, p, q, body), cuts);
  }

  // ------------------------------------------------------- everything the parser accepts qualifies

  lemma {:induction false} PrefixEncodes(special: Special, s: string, n: nat)
    requires Clean(s) && n <= |s|
    ensures Clean(s[..n]) && |PercentEncode(special, s[..n])| <= |PercentEncode(special, s)|
  {
    if n > 0 {
      PrefixEncodes(special, s[1..], n - 1);
      assert s[..n][1..] == s[1..][..n - 1];
    }
  }

  lemma {:induction false} DropSlashesIsPrefix(p: string)
    ensures |DropSlashes(p)| <= |p| && DropSlashes(p) == p[..|DropSlashes(p)|]
    decreases |p|
  {
    if |p| > 1 && p[|p| - 1] == '/' {
      DropSlashesIsPrefix(p[..|p| - 1]);
    }
  }

  /** A decoded path, without its trailing slashes, takes no more room than it came in. */
  lemma PathFits(raw: string)
    requires Clean(raw) && raw != "" && raw[0] == '/' && PercentDecode(raw).Some?
    requires ' ' !in raw && '\r' !in raw && '?' !in raw
    ensures var d := DropSlashes(PercentDecode(raw).value);
            d != "" && d[0] == '/' && Clean(d) && Clean(d[1..]) && |RawPath(d[1..])| <= |raw|
            && (|d| > 1 ==> d[|d| - 1] != '/')
  {
    var s := PercentDecode(raw).value;
    EncodeOfDecode(PathSpecial, raw);
    assert s[0] == '/';
    DropSlashesKeeps(s);
    DropSlashesIsPrefix(s);
    PrefixEncodes(PathSpecial, s, |DropSlashes(s)|);
  }

  lemma QueryFits(raw: string)
    requires Clean(raw) && PercentDecode(raw).Some? && ' ' !in raw && '\r' !in raw
    ensures Clean(PercentDecode(raw).value) && |RawQuery(PercentDecode(raw).value)| <= |raw|
  {
    EncodeOfDecode(QuerySpecial, raw);
  }

  predicate AreBytes(s: string) { forall i | 0 <= i < |s| :: s[i] as int < 256 }

  lemma CStrIsClean(s: string)
    requires AreBytes(s)
    ensures Clean(CStr(s)) && |CStr(s)| <= |s| && forall c | c in CStr(s) :: c in s
  {}

  lemma BoundedName(name: string)
    requires ' ' !in name && '\r' !in name
    ensures NameOk(Bounded(name, 16))
  {}

  /** What is asked of a target, so that it can be written down again. */
  predicate TargetOk(t: Target) {
    && t.path != "" && t.path[0] == '/' && Renderable(t.rawVerb, t.path[1..], t.query, "")
    && t.pretty == Contains(t.query, "pretty=1")
  }

  lemma TargetIsRenderable(name: string, target: string)
    requires AreBytes(target) && ' ' !in name && '\r' !in name && ' ' !in target && '\r' !in target
    requires ParseTarget(name, target).Next?
    ensures TargetOk(ParseTarget(name, target).value)
  {
    var (p, q) := SplitTarget(target).value;
    SplitIsClean(target);
    BoundedName(name);
    DecodedIsRenderable(VerbOf(name), Bounded(name, 16), p, q);
  }

  lemma DecodedIsRenderable(verb: Verb, rawVerb: string, p: string, q: string)
    requires NameOk(rawVerb) && DecodeTarget(verb, rawVerb, p, q).Next?
    requires Clean(p) && p != "" && p[0] == '/' && ' ' !in p && '\r' !in p && '?' !in p && |p| < MAX_PATH
    requires Clean(q) && ' ' !in q && '\r' !in q && |q| < MAX_QUERY
    ensures TargetOk(DecodeTarget(verb, rawVerb, p, q).value)
  {
    PathFits(p);
    QueryFits(q);
    var t := DecodeTarget(verb, rawVerb, p, q).value;
    assert "/" + t.path[1..] == t.path;
  }

  lemma SplitIsClean(target: string)
    requires AreBytes(target) && ' ' !in target && '\r' !in target && target != "" && target[0] == '/'
    requires SplitTarget(target).Next?
    ensures var (p, q) := SplitTarget(target).value;
            && Clean(p) && p != "" && p[0] == '/' && ' ' !in p && '\r' !in p && '?' !in p && |p| < MAX_PATH
            && Clean(q) && ' ' !in q && '\r' !in q && |q| < MAX_QUERY
  {
    var n := IndexOf(target, '?');
    PieceIsClean(target, 0, n);
    assert target[0..n] == target[..n];
    if n < |target| {
      PieceIsClean(target, n + 1, |target|);
      assert target[n + 1..|target|] == target[n + 1..];
    }
  }

  lemma PieceIsClean(s: string, lo: nat, hi: nat)
    requires AreBytes(s) && ' ' !in s && '\r' !in s && lo <= hi <= |s|
    ensures var p := CStr(s[lo..hi]);
            Clean(p) && ' ' !in p && '\r' !in p && |p| <= hi - lo && forall c | c in p :: c in s[lo..hi]
  {
    CStrIsClean(s[lo..hi]);
    assert forall c | c in s[lo..hi] :: c in s;
  }

  lemma UpToSpace(s: string)
    requires AreBytes(s) && '\r' !in s
    ensures var p := s[..IndexOf(s, ' ')]; AreBytes(p) && ' ' !in p && '\r' !in p
  {}

  lemma Suffix(s: string, n: nat)
    requires AreBytes(s) && '\r' !in s && n <= |s|
    ensures AreBytes(s[n..]) && '\r' !in s[n..]
  {}

  lemma LineIsRenderable(line: string)
    requires AreBytes(line) && '\r' !in line && ParseRequestLine(line).Next?
    ensures TargetOk(ParseRequestLine(line).value)
  {
    var sp1 := IndexOf(line, ' ');
    var rest := line[sp1 + 1..];
    UpToSpace(line);
    Suffix(line, sp1 + 1);
    RestIsRenderable(line[..sp1], rest);
  }

  lemma RestIsRenderable(name: string, rest: string)
    requires AreBytes(rest) && '\r' !in rest && ' ' !in name && '\r' !in name
    requires ParseTarget(name, rest[..IndexOf(rest, ' ')]).Next?
    ensures TargetOk(ParseTarget(name, rest[..IndexOf(rest, ' ')]).value)
  {
    UpToSpace(rest);
    TargetIsRenderable(name, rest[..IndexOf(rest, ' ')]);
  }

  lemma HeadIsRenderable(head: string)
    requires AreBytes(head) && ParseHead(head).Next?
    ensures TargetOk(ParseHead(head).value.0)
  {
    LineIsRenderable(head[..IndexOf(head, '\r')]);
  }

  /** The method name, path, query and body of every accepted request are renderable. */
  lemma AcceptedIsRenderable(buf: string)
    requires AreBytes(buf) && Parse(buf).Ok?
    ensures var r := Parse(buf).request;
            TargetOk(r.target) && Renderable(r.target.rawVerb, r.target.path[1..], r.target.query, r.body)
  {
    AcceptedIsSafe(buf);
    HeadIsRenderable(buf[..HeaderEnd(buf)]);
    DecidedKeepsTarget(ParseHead(buf[..HeaderEnd(buf)]), buf[HeaderEnd(buf)..]);
  }

  lemma DecidedKeepsTarget(head: Stage<(Target, Fields)>, rest: string)
    requires Decide(head, rest).Ok?
    ensures head.Next? && Decide(head, rest).request.target == head.value.0
  {}

  /** Writing a request down again, by its method name. */
  function Rewritten(r: Request): string
    requires TargetOk(r.target)
  {
    Render(r.target.rawVerb, r.target.path[1..], r.target.query, r.body)
  }

  /** So whatever was accepted can be written down and is read again as the same method name, path,
      query and body. */
  lemma AcceptedSurvives(buf: string)
    requires AreBytes(buf) && Parse(buf).Ok?
    ensures var r := Parse(buf).request;
            TargetOk(r.target) && Parse(Rewritten(r)) ==
              Ok(Request(r.target.(verb := VerbOf(r.target.rawVerb)), NO_FIELDS.(length := Some(|r.body|)), r.body))
  {
    AcceptedIsRenderable(buf);
    RequestSurvives(Parse(buf).request);
  }

  lemma RequestSurvives(r: Request)
    requires TargetOk(r.target) && Renderable(r.target.rawVerb, r.target.path[1..], r.target.query, r.body)
    ensures Parse(Rewritten(r)) ==
              Ok(Request(r.target.(verb := VerbOf(r.target.rawVerb)), NO_FIELDS.(length := Some(|r.body|)), r.body))
  {
    PathAfterSlash(r.target.path);
    ParseOfRender(r.target.rawVerb, r.target.path[1..], r.target.query, r.body);
  }

  lemma PathAfterSlash(path: string)
    requires path != "" && path[0] == '/'
    ensures "/" + path[1..] == path
  {}
}
