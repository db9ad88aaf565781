/** The receive loop of api_http.c around the parser, the loops inside the parser, and what the
    parser promises.

    A client's stream is what it has sent by the time the connection goes quiet or closes; `cuts`
    are the lengths of the buffer after each read.  A prefix read before is a first cut.  What is
    said of reads holds whatever the parser `h` of header blocks is; the server's is `ParseHead`. */
module HttpServe {
  import opened Wrappers
  import opened Bytes
  import opened HttpParse

  const BUFFER := MAX_REQLINE + MAX_HEADER_BYTES + MAX_BODY + 8

  /** A header block that ends here or before is never given up on for its length. */
  const LAST_END := MAX_REQLINE + MAX_HEADER_BYTES + 1

  // --------------------------------------------------------------------------- loops in the parser

  /** The search for the blank line. */
  method FindHeaderEnd(buf: string) returns (e: int)
    ensures e == HeaderEnd(buf)
  {
    var i := 0;
    while i + 3 < |buf|
      invariant HeaderEndFrom(buf, i) == HeaderEnd(buf)
    {
      if buf[i] == '\r' && buf[i + 1] == '\n' && buf[i + 2] == '\r' && buf[i + 3] == '\n' {
        return i + 4;
      }
      i := i + 1;
    }
    e := -1;
  }

  predicate NulFree(s: string) { forall i | 0 <= i < |s| :: s[i] != '\0' }

  /** What decoding the whole of s is, with `done` already written and s[i..] still to read. */
  ghost predicate DecodedSoFar(s: string, i: nat, done: string) {
    i <= |s| && PercentDecode(s) == match PercentDecode(s[i..]) case None => None case Some(t) => Some(done + t)
  }

  lemma DecodeStart(s: string)
    ensures DecodedSoFar(s, 0, "")
  {
    assert s[0..] == s;
    match PercentDecode(s)
    case Some(t) => assert "" + t == t;
    case None =>
  }

  lemma DecodeStep(s: string, i: nat, done: string)
    requires DecodedSoFar(s, i, done) && i < |s|
    ensures s[i] != '%' ==> DecodedSoFar(s, i + 1, done + [s[i]])
    ensures s[i] == '%' && Escape(s[i..]) == -1 ==> PercentDecode(s) == None
    ensures s[i] == '%' && Escape(s[i..]) != -1 ==>
              i + 3 <= |s| && DecodedSoFar(s, i + 3, done + [Escape(s[i..]) as char])
  {
    var r := s[i..];
    if s[i] != '%' {
      assert r[1..] == s[i + 1..];
      Regroup(done, s[i], PercentDecode(r[1..]));
    } else if Escape(r) != -1 {
      assert r[3..] == s[i + 3..];
      Regroup(done, Escape(r) as char, PercentDecode(r[3..]));
    }
  }

  lemma Regroup(done: string, c: char, rest: Option<string>)
    ensures rest.Some? ==> done + ([c] + rest.value) == done + [c] + rest.value
  {}

  /** api_http_percent_decode, in place on a C string: reads never pass the terminator. */
  method PercentDecodeInPlace(a: array<char>, ghost s: string) returns (ok: bool)
    requires |s| < a.Length && a[..|s|] == s && a[|s|] == '\0' && NulFree(s)
    modifies a
    ensures ok <==> PercentDecode(s).Some?
    ensures ok ==> var d := PercentDecode(s).value; |d| <= |s| && a[..|d|] == d && a[|d|] == '\0'
  {
    var o, i := 0, 0;
    DecodeStart(s);
    assert a[..0] == "";
    while a[i] != '\0'
      invariant 0 <= o <= i <= |s| && DecodedSoFar(s, i, a[..o])
      invariant forall k | i <= k < |s| :: a[k] == s[k]
      invariant a[|s|] == '\0'
      decreases |s| - i
    {
      DecodeStep(s, i, a[..o]);
      ghost var before := a[..o];
      if a[i] == '%' {
        var v := EscapeAt(a, i, s);
        if v == -1 {
          return false;
        }
        a[o] := v as char;
        i := i + 3;
      } else {
        a[o] := a[i];
        i := i + 1;
      }
      o := o + 1;
      assert a[..o] == before + [a[o - 1]];
    }
    assert s[i..] == "";
    a[o] := '\0';
    ok := true;
  }

  /** The two hex digits after a percent sign; the second is looked at only if the first is one. */
  method EscapeAt(a: array<char>, i: nat, ghost s: string) returns (v: int)
    requires i < |s| < a.Length && a[|s|] == '\0' && NulFree(s) && s[i] == '%'
    requires forall k | i <= k < |s| :: a[k] == s[k]
    ensures v == Escape(s[i..])
  {
    var hi := HexVal(a[i + 1]);
    var lo := -1;
    if hi >= 0 {
      lo := HexVal(a[i + 2]);
    }
    if lo < 0 {
      return -1;
    }
    v := hi * 16 + lo;
    if v == 0 {
      return -1;
    }
  }

  // -------------------------------------------------------------------------- percent encoding

  function HexDigit(v: nat): char
    requires v < 16
  {
    if v < 10 then '0' + v as char else 'A' + (v - 10) as char
  }

  /** Bytes that a C string can hold. */
  predicate Clean(s: string) { forall i | 0 <= i < |s| :: 0 < s[i] as int < 256 }

  type Special = char -> bool

  /** Percent encoding of the bytes that are special; the others stand for themselves. */
  function PercentEncode(special: Special, s: string): string
    requires Clean(s)
  {
    if s == "" then ""
    else
      (if special(s[0]) then ['%', HexDigit(s[0] as int / 16), HexDigit(s[0] as int % 16)] else [s[0]])
      + PercentEncode(special, s[1..])
  }

  lemma HexRoundTrip(v: nat)
    requires v < 16
    ensures HexVal(HexDigit(v)) == v
  {}

  /** Any NUL-free byte string survives encoding and decoding, whatever is escaped as long as the
      percent sign is. */
  lemma {:induction false} DecodeOfEncode(special: Special, s: string)
    requires Clean(s) && special('%')
    ensures PercentDecode(PercentEncode(special, s)) == Some(s)
  {
    if s != "" {
      DecodeOfEncode(special, s[1..]);
      var c, e := s[0] as int, PercentEncode(special, s);
      assert [s[0]] + s[1..] == s;
      if special(s[0]) {
        HexRoundTrip(c / 16);
        HexRoundTrip(c % 16);
        assert e[3..] == PercentEncode(special, s[1..]);
        assert Escape(e) == c;
      } else {
        assert e[1..] == PercentEncode(special, s[1..]);
      }
    }
  }

  /** Escaping no more than has to be is shortest: what decodes to s is at least as long. */
  lemma {:induction false} EncodeOfDecode(special: Special, raw: string)
    requires PercentDecode(raw).Some? && Clean(raw)
    requires forall i | 0 <= i < |raw| :: special(raw[i]) ==> raw[i] == '%'
    ensures var s := PercentDecode(raw).value; Clean(s) && |PercentEncode(special, s)| <= |raw|
    decreases |raw|
  {
    if raw != "" {
      var n := if raw[0] == '%' then 3 else 1;
      EncodeOfDecode(special, raw[n..]);
      var s, rest := PercentDecode(raw).value, PercentDecode(raw[n..]).value;
      assert s == [s[0]] + rest;
      assert s[1..] == rest;
    }
  }

  // ----------------------------------------------------------------------------- the serve loop

  /** The verdict once the reads cuts[k..] are made. */
  function ServeFrom(h: HeadParser, s: string, cuts: seq<nat>, k: nat): Verdict
    requires k <= |cuts| && forall i | 0 <= i < |cuts| :: cuts[i] <= |s|
    decreases |cuts| - k
  {
    if k == |cuts| then Incomplete
    else
      var v := ParseWith(h, s[..cuts[k]]);
      if v != Incomplete then v else if cuts[k] >= BUFFER then Refused(TooLarge) else ServeFrom(h, s, cuts, k + 1)
  }

  /** Reads that take in all of the stream that fits the buffer, each at least one byte. */
  ghost predicate Covers(cuts: seq<nat>, s: string) {
    && |cuts| > 0 && cuts[|cuts| - 1] == |s| <= BUFFER
    && (forall i | 0 <= i < |cuts| :: 0 < cuts[i] <= |s|)
    && (forall i, j | 0 <= i < j < |cuts| :: cuts[i] < cuts[j])
  }

  /** One read into the buffer, and the parse of what is there now. */
  method ReadAndParse(h: HeadParser, buf: array<char>, s: string, len: nat, n: nat) returns (st: Verdict)
    requires len <= n <= |s| && n <= buf.Length && buf[..len] == s[..len]
    modifies buf
    ensures buf[..n] == s[..n] && st == ParseWith(h, s[..n])
  {
    forall i | len <= i < n {
      buf[i] := s[i];
    }
    assert buf[..n] == s[..n];
    st := ParseWith(h, buf[..n]);
  }

  /** The receive loop of api_http_serve_prefixed, into a buffer of fixed size. */
  method Serve(h: HeadParser, s: string, cuts: seq<nat>) returns (st: Verdict)
    requires Covers(cuts, s)
    ensures st == ServeFrom(h, s, cuts, 0)
  {
    var buf := new char[BUFFER](_ => '\0');
    var len, k := 0, 0;
    st := Incomplete;
    while st == Incomplete
      invariant 0 <= k <= |cuts| && len == (if k == 0 then 0 else cuts[k - 1]) && buf[..len] == s[..len]
      invariant st == Incomplete && len < BUFFER ==> ServeFrom(h, s, cuts, k) == ServeFrom(h, s, cuts, 0)
      invariant st == Incomplete && len >= BUFFER ==> ServeFrom(h, s, cuts, 0) == Refused(TooLarge)
      invariant st != Incomplete ==> st == ServeFrom(h, s, cuts, 0)
      decreases |cuts| - k, st == Incomplete
    {
      if len >= BUFFER {
        st := Refused(TooLarge);
        break;
      }
      if k == |cuts| {
        break;
      }
      st := ReadAndParse(h, buf, s, len, cuts[k]);
      len := cuts[k];
      k := k + 1;
    }
  }

  // ----------------------------------------------------------- does the way bytes arrive matter?

  /** The header block a prefix shows is the whole stream's, or none yet. */
  lemma {:induction false} PrefixHeaderEnd(s: string, c: nat, i: nat)
    requires c <= |s|
    ensures var e := HeaderEndFrom(s, i); HeaderEndFrom(s[..c], i) == if e != -1 && e <= c then e else -1
    decreases |s| - i
  {
    if i + 3 < |s| {
      if i + 3 < c {
        assert BlankLineAt(s[..c], i) == BlankLineAt(s, i);
      }
      PrefixHeaderEnd(s, c, i + 1);
    }
  }

  /** A POST with bytes after the header block and no Content-Length. */
  predicate LoosePost(h: HeadParser, s: string) {
    var e := HeaderEnd(s);
    e != -1 && e < |s| &&
    match h(s[..e])
    case Next(tf) => tf.0.verb == Post && tf.1.length == None
    case Stop(_) => false
  }

  /** What a prefix is parsed as, when its header block is complete. */
  lemma PrefixParse(h: HeadParser, s: string, c: nat)
    requires c <= |s| && HeaderEnd(s) != -1 && HeaderEnd(s) <= c && !LoosePost(h, s)
    ensures ParseWith(h, s[..c]) == Incomplete || ParseWith(h, s[..c]) == ParseWith(h, s)
    ensures ParseWith(h, s) == Incomplete ==> ParseWith(h, s[..c]) == Incomplete
  {
    var e, p := HeaderEnd(s), s[..c];
    var head := h(s[..e]);
    assert ParseWith(h, s) == Decide(head, s[e..]);
    assert ParseWith(h, p) == Decide(head, s[e..][..c - e]) by {
      PrefixHeaderEnd(s, c, 0);
      assert p[..e] == s[..e] && p[e..] == s[e..][..c - e];
    }
    PrefixDecide(head, s[e..], c - e);
  }

  lemma PrefixDecide(head: Stage<(Target, Fields)>, rest: string, n: nat)
    requires n <= |rest|
    requires head.Next? && head.value.0.verb == Post && head.value.1.length == None ==> rest == ""
    ensures Decide(head, rest[..n]) == Incomplete || Decide(head, rest[..n]) == Decide(head, rest)
    ensures Decide(head, rest) == Incomplete ==> Decide(head, rest[..n]) == Incomplete
  {
    if head.Next? {
      PrefixBody(head.value.0, head.value.1, rest, n);
    }
  }

  lemma PrefixBody(t: Target, f: Fields, rest: string, n: nat)
    requires n <= |rest| && (t.verb == Post && f.length == None ==> rest == "")
    ensures ParseBody(t, f, rest[..n]) == Incomplete || ParseBody(t, f, rest[..n]) == ParseBody(t, f, rest)
    ensures ParseBody(t, f, rest) == Incomplete ==> ParseBody(t, f, rest[..n]) == Incomplete
  {
    if f.length.Some? && f.length.value <= n {
      assert rest[..n][..f.length.value] == rest[..f.length.value];
    }
  }

  /** The verdict when everything arrives at once. */
  function Whole(h: HeadParser, s: string): Verdict {
    if ParseWith(h, s) == Incomplete && |s| >= BUFFER then Refused(TooLarge) else ParseWith(h, s)
  }

  /** The streams whose verdict depends on how they arrive: a POST body without Content-Length, or a
      header block that ends past the bound and yet would be accepted, or refused for another
      reason, if it came at once. */
  predicate Ambiguous(h: HeadParser, s: string) {
    HeaderEnd(s) != -1 && (LoosePost(h, s) || (HeaderEnd(s) > LAST_END && Whole(h, s) != Refused(TooLarge)))
  }

  lemma PrefixVerdict(h: HeadParser, s: string, c: nat)
    requires !Ambiguous(h, s) && c < |s| <= BUFFER
    ensures ParseWith(h, s[..c]) == Incomplete || ParseWith(h, s[..c]) == Whole(h, s)
  {
    PrefixHeaderEnd(s, c, 0);
    if HeaderEnd(s) != -1 && HeaderEnd(s) <= c {
      PrefixParse(h, s, c);
    }
  }

  lemma ServeTurn(h: HeadParser, s: string, cuts: seq<nat>, k: nat, v: Verdict)
    requires Covers(cuts, s) && k < |cuts| && v == ParseWith(h, s[..cuts[k]])
    ensures ServeFrom(h, s, cuts, k) ==
            if v != Incomplete then v else if cuts[k] >= BUFFER then Refused(TooLarge)
            else if k == |cuts| - 1 then Incomplete else ServeFrom(h, s, cuts, k + 1)
  {}

  lemma {:induction false} ServeIsWhole(h: HeadParser, s: string, cuts: seq<nat>, k: nat)
    requires !Ambiguous(h, s) && Covers(cuts, s) && k < |cuts|
    ensures ServeFrom(h, s, cuts, k) == Whole(h, s)
    decreases |cuts| - k
  {
    ServeTurn(h, s, cuts, k, ParseWith(h, s[..cuts[k]]));
    if k == |cuts| - 1 {
      assert s[..cuts[k]] == s;
    } else {
      assert cuts[k] < cuts[|cuts| - 1];
      PrefixVerdict(h, s, cuts[k]);
      ServeIsWhole(h, s, cuts, k + 1);
    }
  }

  /** For every other stream, however it is split into reads, the serve loop reaches the verdict and
      the request of the whole. */
  lemma SplittingIrrelevant(h: HeadParser, s: string, cuts: seq<nat>)
    requires Covers(cuts, s) && !Ambiguous(h, s)
    ensures ServeFrom(h, s, cuts, 0) == Whole(h, s)
  {
    ServeIsWhole(h, s, cuts, 0);
  }

  /** Within the bound the verdict of the whole is the parser's: the buffer is never too small. */
  lemma WholeIsParse(h: HeadParser, s: string)
    requires |s| <= BUFFER && HeaderEnd(s) <= LAST_END
    ensures Whole(h, s) == ParseWith(h, s)
  {
    var e := HeaderEnd(s);
    if e != -1 && |s| == BUFFER {
      EnoughToDecide(h(s[..e]), s[e..]);
    }
  }

  /** With as many bytes as the longest body there is always a verdict. */
  lemma EnoughToDecide(head: Stage<(Target, Fields)>, rest: string)
    requires |rest| >= MAX_BODY
    ensures Decide(head, rest) != Incomplete
  {}

  /** The server's own case: a header block within the bound, or none, and no POST body without
      Content-Length. */
  lemma ServerVerdict(s: string, cuts: seq<nat>)
    requires Covers(cuts, s) && HeaderEnd(s) <= LAST_END && !LoosePost(ParseHead, s)
    ensures ServeFrom(ParseHead, s, cuts, 0) == Parse(s)
  {
    SplittingIrrelevant(ParseHead, s, cuts);
    WholeIsParse(ParseHead, s);
  }

  /** For each of these streams some split gives another verdict. */
  lemma SplittingMatters(h: HeadParser, s: string) returns (cuts: seq<nat>)
    requires |s| <= BUFFER && Ambiguous(h, s)
    ensures Covers(cuts, s) && ServeFrom(h, s, cuts, 0) != Whole(h, s)
  {
    var e := HeaderEnd(s);
    if LoosePost(h, s) {
      cuts := [e, |s|];
      PrefixHeaderEnd(s, e, 0);
      assert s[..e][..e] == s[..e] && s[..e][e..] == "";
    } else {
      cuts := [LAST_END, |s|];
      PrefixHeaderEnd(s, LAST_END, 0);
    }
    assert ParseWith(h, s[..cuts[0]]) != Incomplete;
  }

  // ---------------------------------------------------------------------- what an accepted request is

  lemma {:induction false} DropSlashesKeeps(p: string)
    requires p != "" && p[0] == '/'
    ensures var d := DropSlashes(p); d != "" && d[0] == '/' && |d| <= |p| && (|d| > 1 ==> d[|d| - 1] != '/')
    decreases |p|
  {
    if |p| > 1 && p[|p| - 1] == '/' {
      DropSlashesKeeps(p[..|p| - 1]);
    }
  }

  lemma {:induction false} DecodeShortens(s: string)
    ensures PercentDecode(s).Some? ==> |PercentDecode(s).value| <= |s|
    decreases |s|
  {
    if s != "" {
      if s[0] == '%' {
        if Escape(s) != -1 { DecodeShortens(s[3..]); }
      } else {
        DecodeShortens(s[1..]);
      }
    }
  }

  /** An accepted path is absolute, free of "..", without trailing slash, and within its field. */
  predicate SafeTarget(t: Target) {
    && t.path != "" && t.path[0] == '/' && |t.path| < MAX_PATH && !Contains(t.path, "..")
    && (|t.path| > 1 ==> t.path[|t.path| - 1] != '/') && |t.query| < MAX_QUERY
  }

  lemma TargetIsSafe(name: string, target: string)
    requires ParseTarget(name, target).Next?
    ensures SafeTarget(ParseTarget(name, target).value)
  {
    var pq := SplitTarget(target).value;
    var p, q := PercentDecode(pq.0).value, PercentDecode(pq.1).value;
    DecodeShortens(pq.0);
    DecodeShortens(pq.1);
    assert pq.0 != "" && pq.0[0] == '/';
    assert p[0] == '/';
    DropSlashesKeeps(p);
  }

  lemma HeadIsSafe(head: string)
    requires ParseHead(head).Next?
    ensures SafeTarget(ParseHead(head).value.0) && !ParseHead(head).value.1.chunked
  {
    var line := head[..IndexOf(head, '\r')];
    var sp1 := IndexOf(line, ' ');
    var rest := line[sp1 + 1..];
    TargetIsSafe(line[..sp1], rest[..IndexOf(rest, ' ')]);
  }

  /** The request was accepted with a body of the declared length, within its field. */
  predicate SafeRequest(r: Request, rest: string) {
    && SafeTarget(r.target) && !r.fields.chunked && |r.body| <= MAX_BODY && r.body <= rest
    && |r.body| == if r.fields.length.Some? then r.fields.length.value else 0
  }

  lemma BodyIsSafe(t: Target, f: Fields, rest: string)
    requires SafeTarget(t) && !f.chunked && ParseBody(t, f, rest).Ok?
    ensures SafeRequest(ParseBody(t, f, rest).request, rest)
  {}

  lemma DecidedIsSafe(head: Stage<(Target, Fields)>, rest: string)
    requires head.Next? ==> SafeTarget(head.value.0) && !head.value.1.chunked
    requires Decide(head, rest).Ok?
    ensures SafeRequest(Decide(head, rest).request, rest)
  {
    BodyIsSafe(head.value.0, head.value.1, rest);
  }

  /** Whatever is accepted has a safe target and, right after the header block, its body. */
  lemma AcceptedIsSafe(buf: string)
    requires Parse(buf).Ok?
    ensures HeaderEnd(buf) != -1 && SafeRequest(Parse(buf).request, buf[HeaderEnd(buf)..])
  {
    var head := buf[..HeaderEnd(buf)];
    if ParseHead(head).Next? {
      HeadIsSafe(head);
    }
    DecidedIsSafe(ParseHead(head), buf[HeaderEnd(buf)..]);
  }
}
