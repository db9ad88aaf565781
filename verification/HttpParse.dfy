/** The request parser of api_http.c, as a function of the bytes received so far. */
module HttpParse {
  import opened Wrappers
  import opened Bytes

  const MAX_REQLINE := 2048
  const MAX_HEADER_BYTES := 8192
  const MAX_HEADER_LINES := 32
  const MAX_BODY := 8192
  const MAX_PATH := 512
  const MAX_QUERY := 512
  const LONG_MAX := 0x7fff_ffff_ffff_ffff

  datatype Verb = Get | Head | Post | Options | Other

  /** What the header lines set. */
  datatype Fields = Fields(length: Option<nat>, chunked: bool, bearer: string,
                           origin: string, websocket: bool, wsKey: string)

  /** What the request line sets. */
  datatype Target = Target(verb: Verb, rawVerb: string, path: string, query: string, pretty: bool)

  datatype Request = Request(target: Target, fields: Fields, body: string)

  /** 400, 413, 501. */
  datatype Refusal = Bad | TooLarge | Unsupported

  datatype Verdict = Incomplete | Refused(why: Refusal) | Ok(request: Request)

  /** A stage of parsing: go on with a value, or stop. */
  datatype Stage<+T> = Next(value: T) | Stop(why: Refusal)

  // ---------------------------------------------------------------------------------- helpers

  function Lower(c: char): char { if 'A' <= c <= 'Z' then c - 'A' + 'a' else c }

  /** ci_equal over the whole of two strings. */
  predicate CiEqual(a: string, b: string) { |a| == |b| && forall i | 0 <= i < |a| :: Lower(a[i]) == Lower(b[i]) }

  predicate CiPrefix(s: string, prefix: string) { |s| >= |prefix| && CiEqual(s[..|prefix|], prefix) }

  predicate StandsAt(part: string, s: string, i: int) { 0 <= i <= |s| - |part| && s[i..i + |part|] == part }

  /** strstr finds it. */
  predicate Contains(s: string, part: string) { exists i | 0 <= i <= |s| :: StandsAt(part, s, i) }

  /** The C string at the start of the bytes. */
  function CStr(s: string): string { s[..IndexOf(s, '\0')] }

  /** copy_bounded into a field of the given size, read back as a C string. */
  function Bounded(s: string, size: nat): string
    requires size > 0
  {
    CStr(if |s| >= size then s[..size - 1] else s)
  }

  function SkipWs(s: string): string { if s != "" && (s[0] == ' ' || s[0] == '\t') then SkipWs(s[1..]) else s }

  function HexVal(c: char): int {
    if '0' <= c <= '9' then c as int - '0' as int
    else if 'a' <= c <= 'f' then c as int - 'a' as int + 10
    else if 'A' <= c <= 'F' then c as int - 'A' as int + 10
    else -1
  }

  /** The byte of the escape at the start of s, or -1 if it is malformed or %00. */
  function Escape(s: string): (v: int)
    requires s != "" && s[0] == '%'
    ensures v == -1 || (0 < v < 256 && |s| >= 3)
  {
    if |s| < 3 || HexVal(s[1]) < 0 || HexVal(s[2]) < 0 then -1
    else
      var v := HexVal(s[1]) * 16 + HexVal(s[2]);
      if v == 0 then -1 else v
  }

  /** Percent decoding of a C string. */
  function PercentDecode(s: string): Option<string> {
    if s == "" then Some("")
    else if s[0] == '%' then
      if Escape(s) == -1 then None else Prepend(Escape(s) as char, PercentDecode(s[3..]))
    else Prepend(s[0], PercentDecode(s[1..]))
  }

  function Prepend(c: char, rest: Option<string>): Option<string> {
    match rest
    case None => None
    case Some(t) => Some([c] + t)
  }

  // -------------------------------------------------------------------------------- header end

  predicate BlankLineAt(buf: string, i: nat) {
    i + 3 < |buf| && buf[i] == '\r' && buf[i + 1] == '\n' && buf[i + 2] == '\r' && buf[i + 3] == '\n'
  }

  /** The index after the first blank line from i on, or -1. */
  function HeaderEndFrom(buf: string, i: nat): (e: int)
    ensures e == -1 || i + 4 <= e <= |buf|
    decreases |buf| - i
  {
    if i + 3 >= |buf| then -1 else if BlankLineAt(buf, i) then i + 4 else HeaderEndFrom(buf, i + 1)
  }

  function HeaderEnd(buf: string): int { HeaderEndFrom(buf, 0) }

  // ------------------------------------------------------------------------------ request line

  function VerbOf(s: string): Verb {
    if CiEqual(s, "GET") then Get else if CiEqual(s, "HEAD") then Head
    else if CiEqual(s, "POST") then Post else if CiEqual(s, "OPTIONS") then Options else Other
  }

  function DropSlashes(path: string): string {
    if |path| > 1 && path[|path| - 1] == '/' then DropSlashes(path[..|path| - 1]) else path
  }

  /** Path and query of a target, within their limits. */
  function SplitTarget(target: string): Stage<(string, string)> {
    var q := IndexOf(target, '?');
    if q >= MAX_PATH then Stop(TooLarge)
    else if q < |target| && |target| - q - 1 >= MAX_QUERY then Stop(TooLarge)
    else Next((CStr(target[..q]), if q < |target| then CStr(target[q + 1..]) else ""))
  }

  function DecodeTarget(verb: Verb, rawVerb: string, rawPath: string, rawQuery: string): Stage<Target> {
    match (PercentDecode(rawPath), PercentDecode(rawQuery))
    case (Some(p), Some(q)) =>
      var path := DropSlashes(p);
      if Contains(path, "..") then Stop(Bad) else Next(Target(verb, rawVerb, path, q, Contains(q, "pretty=1")))
    case _ => Stop(Bad)
  }

  function ParseTarget(name: string, target: string): Stage<Target> {
    if target == "" || target[0] != '/' then Stop(Bad)
    else
      match SplitTarget(target)
      case Stop(v) => Stop(v)
      case Next(pq) => DecodeTarget(VerbOf(name), Bounded(name, 16), pq.0, pq.1)
  }

  function ParseRequestLine(line: string): Stage<Target> {
    var sp1 := IndexOf(line, ' ');
    if sp1 == |line| then Stop(Bad)
    else
      var rest := line[sp1 + 1..];
      var sp2 := IndexOf(rest, ' ');
      if sp2 == |rest| then Stop(Bad) else ParseTarget(line[..sp1], rest[..sp2])
  }

  // -------------------------------------------------------------------------------- header lines

  predicate IsSpace(c: char) { c == ' ' || 9 <= c as int <= 13 }

  function SkipSpace(s: string): string { if s != "" && IsSpace(s[0]) then SkipSpace(s[1..]) else s }

  predicate IsDigit(c: char) { '0' <= c <= '9' }

  function DigitCount(s: string): (n: nat)
    ensures n <= |s| && forall i | 0 <= i < n :: IsDigit(s[i])
  {
    if s != "" && IsDigit(s[0]) then 1 + DigitCount(s[1..]) else 0
  }

  function Decimal(s: string): int
    requires forall i | 0 <= i < |s| :: IsDigit(s[i])
  {
    if s == "" then 0 else Decimal(s[..|s| - 1]) * 10 + (s[|s| - 1] as int - '0' as int)
  }

  /** strtol that has to use up the whole string; the empty string gives 0. */
  function WholeNumber(s: string): Option<int> {
    var a := SkipSpace(s);
    var signed := a != "" && (a[0] == '-' || a[0] == '+');
    var b := if signed then a[1..] else a;
    var n := DigitCount(b);
    if n == 0 then (if s == "" then Some(0) else None)
    else if n < |b| then None
    else
      var v := if Decimal(b) > LONG_MAX then LONG_MAX else Decimal(b);
      Some(if signed && a[0] == '-' then -v else v)
  }

  /** What a named field sets. */
  function SetField(f: Fields, name: string, v: string): Stage<Fields> {
    if CiEqual(name, "Content-Length") then
      match WholeNumber(Bounded(v, 32))
      case Some(n) => if n < 0 then Stop(Bad) else Next(f.(length := Some(n)))
      case None => Stop(Bad)
    else if CiEqual(name, "Transfer-Encoding") then
      Next(if CiPrefix(v, "chunked") then f.(chunked := true) else f)
    else if CiEqual(name, "Authorization") then
      Next(if |v| > 7 && CiPrefix(v, "Bearer ") then f.(bearer := Bounded(SkipWs(v[7..]), 256)) else f)
    else if CiEqual(name, "Origin") then Next(f.(origin := Bounded(v, 256)))
    else if CiEqual(name, "Upgrade") then
      Next(if CiPrefix(v, "websocket") then f.(websocket := true) else f)
    else if CiEqual(name, "Sec-WebSocket-Key") then Next(f.(wsKey := Bounded(v, 128)))
    else Next(f)
  }

  type FieldSetter = (Fields, string, string) -> Stage<Fields>

  /** One header line: name, colon, value; a line without a colon is skipped.  What the fields mean
      is a parameter, here and below. */
  function ApplyLine(put: FieldSetter, f: Fields, line: string): Stage<Fields> {
    var c := IndexOf(line, ':');
    if c == |line| then Next(f) else put(f, line[..c], SkipWs(line[c + 1..]))
  }

  /** The header line that starts at p: up to the next carriage return. */
  function LineAt(head: string, p: nat): string
    requires p <= |head|
  {
    head[p..][..IndexOf(head[p..], '\r')]
  }

  /** Where the header loop is: the next line's place, the lines and bytes so far, and what they set. */
  datatype Place = Place(p: nat, lines: nat, bytes: nat, fields: Fields)

  /** One turn of the header loop. */
  function HeaderTurn(put: FieldSetter, head: string, at: Place): (r: Stage<Place>)
    requires at.p <= |head|
    ensures r.Next? ==> at.p < r.value.p
  {
    var line := LineAt(head, at.p);
    if at.p + |line| == |head| then Stop(Bad)
    else if at.lines + 1 > MAX_HEADER_LINES || at.bytes + |line| > MAX_HEADER_BYTES then Stop(TooLarge)
    else
      match ApplyLine(put, at.fields, line)
      case Stop(v) => Stop(v)
      case Next(f) => Next(Place(at.p + |line| + 2, at.lines + 1, at.bytes + |line|, f))
  }

  /** The header loop over the block. */
  function HeaderLines(put: FieldSetter, head: string, at: Place): Stage<Fields>
    decreases |head| - at.p
  {
    if at.p >= |head| - 2 then Next(at.fields)
    else
      match HeaderTurn(put, head, at)
      case Stop(v) => Stop(v)
      case Next(next) => HeaderLines(put, head, next)
  }

  const NO_FIELDS := Fields(None, false, "", "", false, "")

  type LineParser = string -> Stage<Target>

  /** The request line and the header lines together; a chunked body is never guessed at. */
  function Joined(first: Stage<Target>, rest: Stage<Fields>): Stage<(Target, Fields)> {
    match first
    case Stop(v) => Stop(v)
    case Next(t) =>
      match rest
      case Stop(v) => Stop(v)
      case Next(f) => if f.chunked then Stop(Unsupported) else Next((t, f))
  }

  function ParseHeadWith(first: LineParser, put: FieldSetter, head: string): Stage<(Target, Fields)> {
    var eol := IndexOf(head, '\r');
    if eol == |head| then Stop(Bad)
    else if eol > MAX_REQLINE then Stop(TooLarge)
    else Joined(first(head[..eol]), HeaderLines(put, head, Place(eol + 2, 0, 0, NO_FIELDS)))
  }

  /** The whole header block, up to and including the blank line. */
  function ParseHead(head: string): Stage<(Target, Fields)> {
    ParseHeadWith(ParseRequestLine, SetField, head)
  }

  // ---------------------------------------------------------------------------------- the parser

  /** The body stage, on what follows the header block. */
  function ParseBody(t: Target, f: Fields, rest: string): Verdict {
    match f.length
    case Some(n) =>
      if n > MAX_BODY then Refused(TooLarge)
      else if |rest| < n then Incomplete
      else Ok(Request(t, f, rest[..n]))
    case None => if t.verb == Post && rest != "" then Refused(Bad) else Ok(Request(t, f, ""))
  }

  function Decide(head: Stage<(Target, Fields)>, rest: string): Verdict {
    match head
    case Stop(v) => Refused(v)
    case Next(tf) => ParseBody(tf.0, tf.1, rest)
  }

  type HeadParser = string -> Stage<(Target, Fields)>

  /** The parser around a parser of header blocks. */
  function ParseWith(h: HeadParser, buf: string): Verdict {
    var e := HeaderEnd(buf);
    if e == -1 then (if |buf| > MAX_REQLINE + MAX_HEADER_BYTES then Refused(TooLarge) else Incomplete)
    else Decide(h(buf[..e]), buf[e..])
  }

  /** api_http_parse. */
  function Parse(buf: string): Verdict { ParseWith(ParseHead, buf) }
}
