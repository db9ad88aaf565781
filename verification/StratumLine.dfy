/** The stratum receive buffer of util.c: a growing C string to which received chunks are appended
    and from which lines are cut in place.  Characters are byte values; a NUL ends the string. */
module StratumLine {

  import opened Wrappers
  import opened Bytes

  const RBUFSIZE := 2048
  const NEWLINE := 10

  // --------------------------------------------------------------------------- on abstract text

  /** How many newlines the text starts with. */
  function Leading(s: Text): (k: nat)
    ensures k <= |s| && (forall i | 0 <= i < k :: s[i] == NEWLINE) && (k < |s| ==> s[k] != NEWLINE)
  {
    if s != [] && s[0] == NEWLINE then 1 + Leading(s[1..]) else 0
  }

  /** The lines of a stream: what stands before each byte 10. */
  function Lines(s: Text): seq<Text>
    decreases |s|
  {
    var i := IndexOf(s, 10);
    if i == |s| then [] else [s[..i]] + Lines(s[i + 1..])
  }

  function Flat(chunks: seq<Text>): Text { if chunks == [] then [] else chunks[0] + Flat(chunks[1..]) }

  /** The receive loop: append chunks until there is a newline or nothing more comes. */
  function Fill(text: Text, chunks: seq<Text>): (r: (Text, seq<Text>))
    ensures r.0 + Flat(r.1) == text + Flat(chunks)
    ensures NEWLINE in r.0 || r.1 == []
    decreases |chunks|
  {
    if NEWLINE in text || chunks == [] then (text, chunks)
    else
      assert text + Flat(chunks) == text + chunks[0] + Flat(chunks[1..]);
      Fill(text + chunks[0], chunks[1..])
  }

  /** strtok and the move of what is left: skip k newlines, the token runs to the next newline, and
      the rest is taken to start one place after the token's length.  For k > 0 that is not where
      the rest starts; the string then ends where strtok has put its NUL. */
  function Cut(text: Text): (r: (Option<Text>, Text))
    ensures |r.1| <= |text| && (r.0.Some? ==> |r.1| < |text| && r.0.value != [])
  {
    var k := Leading(text);
    if k == |text| then (None, text)
    else (Some(Token(text, k)), Rest(text, k, IndexOf(text[k..], NEWLINE)))
  }

  /** The token that starts at k. */
  function Token(text: Text, k: nat): Text
    requires k <= |text|
  {
    text[k..k + IndexOf(text[k..], NEWLINE)]
  }

  function Rest(text: Text, k: nat, len: nat): Text
    requires k + len <= |text|
  {
    if |text| <= len + 1 then [] else if k == 0 then text[len + 1..] else text[len + 1..k + len]
  }

  /** stratum_recv_line, on text and chunks to come. */
  function Recv(text: Text, chunks: seq<Text>): (r: (Option<Text>, Text, seq<Text>))
    ensures r.0.Some? ==> |r.1| + |Flat(r.2)| < |text| + |Flat(chunks)| && r.0.value != []
  {
    var f := Fill(text, chunks);
    assert |f.0 + Flat(f.1)| == |text + Flat(chunks)|;
    if NEWLINE !in f.0 then (None, f.0, f.1)
    else
      var c := Cut(f.0);
      (c.0, c.1, f.1)
  }

  /** All the lines that repeated calls return. */
  function RecvAll(text: Text, chunks: seq<Text>): seq<Text>
    decreases |text| + |Flat(chunks)|
  {
    var r := Recv(text, chunks);
    if r.0.None? then [] else [r.0.value] + RecvAll(r.1, r.2)
  }

  predicate NoEmptyLines(s: Text) { forall i | 0 <= i < |Lines(s)| :: Lines(s)[i] != [] }

  /** The first newline of a whole is that of its first part, if there is one in it. */
  lemma IndexOfConcat(a: Text, b: Text)
    requires NEWLINE in a
    ensures IndexOf(a + b, NEWLINE) == IndexOf(a, NEWLINE)
  {
    var i, j := IndexOf(a, NEWLINE), IndexOf(a + b, NEWLINE);
    assert (a + b)[i] == a[i] && NEWLINE in a + b;
    assert forall k | 0 <= k < i :: a[..i][k] == a[k] == (a + b)[k];
    assert forall k | 0 <= k < j :: (a + b)[..j][k] == (a + b)[k];
  }

  /** One call: the first line of what is pending, however it is split, and the rest stays pending. */
  lemma RecvIsFirstLine(text: Text, chunks: seq<Text>)
    requires NEWLINE in text + Flat(chunks) && (text + Flat(chunks))[0] != NEWLINE
    ensures var s, r := text + Flat(chunks), Recv(text, chunks);
            var i := IndexOf(s, NEWLINE);
            r.0 == Some(s[..i]) && r.1 + Flat(r.2) == s[i + 1..]
  {
    var f := Fill(text, chunks);
    assert f.0 + Flat(f.1) == text + Flat(chunks);
    CutIsFirstLine(f.0, Flat(f.1));
  }

  /** The same for text with a newline in it and whatever comes after. */
  lemma CutIsFirstLine(t: Text, rest: Text)
    requires NEWLINE in t && t[0] != NEWLINE
    ensures var i := IndexOf(t + rest, NEWLINE);
            i < |t + rest| && Cut(t).0 == Some((t + rest)[..i]) && Cut(t).1 + rest == (t + rest)[i + 1..]
  {
    IndexOfConcat(t, rest);
    var i := IndexOf(t, NEWLINE);
    assert t[0..] == t && Leading(t) == 0;
    SplitConcat(t, rest, i);
  }

  lemma SplitConcat(t: Text, rest: Text, i: nat)
    requires i < |t|
    ensures (t + rest)[..i] == t[..i] && (t + rest)[i + 1..] == t[i + 1..] + rest
  {}

  /** For every chunking, repeated calls return exactly the stream's lines, in order, if and only if
      the stream has no empty line. */
  lemma {:induction false} RecvAllIsLines(text: Text, chunks: seq<Text>)
    ensures RecvAll(text, chunks) == Lines(text + Flat(chunks)) <==> NoEmptyLines(text + Flat(chunks))
    decreases |text| + |Flat(chunks)|
  {
    var s := text + Flat(chunks);
    if NoEmptyLines(s) {
      if NEWLINE in s {
        var i := IndexOf(s, NEWLINE);
        assert Lines(s)[0] == s[..i];
        RecvIsFirstLine(text, chunks);
        var r := Recv(text, chunks);
        TailLines(s);
        RecvAllIsLines(r.1, r.2);
      }
    } else {
      AllNonempty(text, chunks);
    }
  }

  lemma LinesTail(all: seq<Text>, head: seq<Text>, tail: seq<Text>)
    requires all == head + tail && forall k | 0 <= k < |all| :: all[k] != []
    ensures forall k | 0 <= k < |tail| :: tail[k] != []
  {
    forall k | 0 <= k < |tail| ensures tail[k] != [] {
      assert all[|head| + k] == tail[k];
    }
  }

  lemma TailLines(s: Text)
    requires NoEmptyLines(s) && NEWLINE in s
    ensures NoEmptyLines(s[IndexOf(s, NEWLINE) + 1..])
  {
    var i := IndexOf(s, NEWLINE);
    LinesTail(Lines(s), [s[..i]], Lines(s[i + 1..]));
  }

  lemma {:induction false} AllNonempty(text: Text, chunks: seq<Text>)
    ensures forall i | 0 <= i < |RecvAll(text, chunks)| :: RecvAll(text, chunks)[i] != []
    decreases |text| + |Flat(chunks)|
  {
    var r := Recv(text, chunks);
    if r.0.Some? {
      AllNonempty(r.1, r.2);
    }
  }

  /** After an empty line the next line is returned but the line after that is lost. */
  lemma EmptyLineLosesNext(a: int, b: int)
    requires a != NEWLINE && b != NEWLINE
    ensures RecvAll([NEWLINE, a, NEWLINE, b, NEWLINE], []) == [[a]]
  {
    var t := [NEWLINE, a, NEWLINE, b, NEWLINE];
    assert t[1..][0] == a && Leading(t[1..]) == 0 && Leading(t) == 1;
    assert t[1..][1..][0] == NEWLINE;
    assert IndexOf(t[1..], NEWLINE) == 1 + IndexOf(t[1..][1..], NEWLINE) == 1;
    assert NEWLINE in t;
    assert Cut(t) == (Some(t[1..2]), t[2..2]);
    assert t[1..2] == [a] && t[2..2] == [];
    assert Recv(t, []) == (Some([a]), [], []);
    assert Recv([], []).0 == None;
    assert RecvAll([], []) == [];
  }

  // --------------------------------------------------------------------- reads and timeouts

  /** What one turn of the receive loop meets: the bytes read (none when the read would block), and
      whether the 60 seconds are over after it. */
  datatype Read = Read(data: Text, late: bool)

  /** What is appended of it: strlen and strcpy stop at a NUL. */
  function Shown(r: Read): Text { r.data[..IndexOf(r.data, 0)] }

  function Chunks(turns: seq<Read>): (c: seq<Text>)
    ensures |c| == |turns| && forall i | 0 <= i < |turns| :: c[i] == Shown(turns[i])
  {
    if turns == [] then [] else [Shown(turns[0])] + Chunks(turns[1..])
  }

  /** The receive loop: at least one turn, until there is a newline, time is up, or a read fails,
      which is where the reads end. */
  function Receive(text: Text, turns: seq<Read>): (r: (Text, seq<Read>, bool))
    ensures r.0 + Flat(Chunks(r.1)) == text + Flat(Chunks(turns))
    decreases |turns|
  {
    if turns == [] then (text, [], false)
    else
      var t := text + Shown(turns[0]);
      assert text + Flat(Chunks(turns)) == t + Flat(Chunks(turns[1..]));
      if turns[0].late || NEWLINE in t then (t, turns[1..], true) else Receive(t, turns[1..])
  }

  /** stratum_recv_line: `ready` is whether the socket has anything to read within its first wait. */
  function RecvTimed(text: Text, ready: bool, turns: seq<Read>): (r: (Option<Text>, Text, seq<Read>))
    ensures r.0.Some? ==>
              |r.1| + |Flat(Chunks(r.2))| < |text| + |Flat(Chunks(turns))| && r.0.value != []
  {
    if NEWLINE in text then (Cut(text).0, Cut(text).1, turns)
    else if !ready then (None, text, turns)
    else
      var f := Receive(text, turns);
      assert |f.0 + Flat(Chunks(f.1))| == |text + Flat(Chunks(turns))|;
      if !f.2 then (None, f.0, f.1) else (Cut(f.0).0, Cut(f.0).1, f.1)
  }

  /** All the lines that repeated calls return, until one returns none. */
  function RecvAllTimed(text: Text, turns: seq<Read>): seq<Text>
    decreases |text| + |Flat(Chunks(turns))|
  {
    var r := RecvTimed(text, true, turns);
    if r.0.None? then [] else [r.0.value] + RecvAllTimed(r.1, r.2)
  }

  /** No call's time runs out in the middle of a line: a late read completes one. */
  predicate Prompt(turns: seq<Read>) {
    forall i | 0 <= i < |turns| :: turns[i].late ==> NEWLINE in Shown(turns[i])
  }

  lemma {:induction false} PromptReceive(text: Text, turns: seq<Read>)
    requires Prompt(turns) && NEWLINE !in text
    ensures var f, g := Receive(text, turns), Fill(text, Chunks(turns));
            f.0 == g.0 && Chunks(f.1) == g.1 && Prompt(f.1) && (f.2 <==> NEWLINE in g.0)
    decreases |turns|
  {
    if turns != [] {
      var t := text + Shown(turns[0]);
      assert Chunks(turns)[1..] == Chunks(turns[1..]);
      if NEWLINE !in t {
        PromptReceive(t, turns[1..]);
      }
    }
  }

  /** Without such timeouts a call is a call on chunks. */
  lemma PromptRecv(text: Text, turns: seq<Read>)
    requires Prompt(turns)
    ensures var r, q := RecvTimed(text, true, turns), Recv(text, Chunks(turns));
            r.0 == q.0 && r.1 == q.1 && Chunks(r.2) == q.2 && Prompt(r.2)
  {
    if NEWLINE !in text {
      PromptReceive(text, turns);
    }
  }

  lemma {:induction false} PromptRecvAll(text: Text, turns: seq<Read>)
    requires Prompt(turns)
    ensures RecvAllTimed(text, turns) == RecvAll(text, Chunks(turns))
    decreases |text| + |Flat(Chunks(turns))|
  {
    PromptRecv(text, turns);
    var r := RecvTimed(text, true, turns);
    if r.0.Some? {
      PromptRecvAll(r.1, r.2);
    }
  }

  /** However a stream arrives, as long as no call runs out of time in the middle of a line: the lines come
      out exactly, in order, if and only if none is empty. */
  lemma SessionIsLines(text: Text, turns: seq<Read>)
    requires Prompt(turns)
    ensures var s := text + Flat(Chunks(turns)); RecvAllTimed(text, turns) == Lines(s) <==> NoEmptyLines(s)
  {
    PromptRecvAll(text, turns);
    RecvAllIsLines(text, Chunks(turns));
  }

  /** A call whose time runs out in the middle of a line returns what there is of it as a line, and
      nothing stays pending of it: the rest of the line comes as a line of its own. */
  lemma LateReadSplitsLine(text: Text, turns: seq<Read>)
    requires NEWLINE !in text && turns != [] && turns[0].late && NEWLINE !in Shown(turns[0])
    ensures var t := text + Shown(turns[0]);
            RecvTimed(text, true, turns) == if t == [] then (None, [], turns[1..]) else (Some(t), [], turns[1..])
  {
    var t := text + Shown(turns[0]);
    assert Receive(text, turns) == (t, turns[1..], true);
    if t != [] {
      assert NEWLINE !in t;
      assert Leading(t) == 0 && t[0..] == t && IndexOf(t, NEWLINE) == |t| && t[0..|t|] == t;
    }
  }

  /** So one timeout in the middle of a line, and everything after it prompt and without an empty
      line: the line comes out in two parts, which are not the stream's lines. */
  lemma TimeoutBreaksLine(text: Text, turns: seq<Read>)
    requires NEWLINE !in text && turns != [] && turns[0].late && NEWLINE !in Shown(turns[0])
    requires text + Shown(turns[0]) != [] && Prompt(turns[1..]) && NoEmptyLines(Flat(Chunks(turns[1..])))
    ensures RecvAllTimed(text, turns) == [text + Shown(turns[0])] + Lines(Flat(Chunks(turns[1..])))
    ensures RecvAllTimed(text, turns) != Lines(text + Flat(Chunks(turns)))
  {
    var t, rest := text + Shown(turns[0]), Flat(Chunks(turns[1..]));
    LateReadSplitsLine(text, turns);
    var none: Text := [];
    assert none + rest == rest;
    SessionIsLines(none, turns[1..]);
    assert text + Flat(Chunks(turns)) == t + rest;
    LongerFirstLine(t, rest);
  }

  lemma NotBlankFirst(s: Text)
    ensures s != [] && s[0] == NEWLINE ==> !NoEmptyLines(s)
  {
    if s != [] && s[0] == NEWLINE {
      assert Lines(s)[0] == s[..0] == [];
    }
  }

  lemma LongerFirstLine(t: Text, rest: Text)
    requires NEWLINE !in t && NoEmptyLines(rest)
    ensures Lines(t + rest) == [] || Lines(t + rest)[0] != t
  {
    var i := IndexOf(t + rest, NEWLINE);
    if i < |t + rest| {
      NotBlankFirst(rest);
      assert rest[0] == (t + rest)[|t|] && |(t + rest)[..i]| == i;
    }
  }

  // ---------------------------------------------------------------------------- on the buffer

  predicate NulFree(s: Text) { forall i | 0 <= i < |s| :: s[i] != 0 }

  /** The C string at the start of the buffer. */
  predicate IsString(buf: seq<int>, text: Text) {
    |text| < |buf| && buf[..|text|] == text && buf[|text|] == 0 && NulFree(text)
  }

  lemma StringAt(buf: seq<int>, text: Text, i: nat)
    requires IsString(buf, text) && i <= |text|
    ensures i < |text| ==> buf[i] == text[i]
    ensures buf[i] == 0 <==> i == |text|
  {
    assert i < |text| ==> buf[..|text|][i] == buf[i];
  }

  lemma TokenText(b: seq<int>, text: Text, k: nat, j: nat)
    requires IsString(b, text) && k <= j <= |text|
    ensures b[k..j] == text[k..j]
  {
    forall i | k <= i < j ensures b[i] == text[i] {
      StringAt(b, text, i);
    }
  }

  /** What the buffer holds after strtok's NUL (b1) and the move (b2). */
  lemma MovedString(b: seq<int>, b1: seq<int>, b2: seq<int>, text: Text, rest: Text, k: nat, j: nat)
    requires IsString(b, text) && |text| + 1 < |b| == |b2| && k <= j <= |text| && |text| > j - k + 1
    requires b1 == if j < |text| then b[j := 0] else b
    requires forall i | 0 <= i < |text| - (j - k) + 1 :: b2[i] == b1[j - k + 1 + i]
    requires rest == Rest(text, k, j - k)
    ensures IsString(b2, rest)
  {
    var from := j - k + 1;
    forall i | 0 <= i < |rest| ensures b2[i] == rest[i] {
      StringAt(b, text, from + i);
    }
    assert b2[..|rest|] == rest;
    StringAt(b, text, |text|);
  }

  class Buffer {
    var buf: array<int>
    ghost var text: Text

    /** The string and one byte more fit: strlen + 1 stays below the size. */
    ghost predicate Valid()
      reads this, buf
    {
      IsString(buf[..], text) && |text| + 1 < buf.Length
    }

    /** As stratum_connect leaves it. */
    constructor ()
      ensures Valid() && text == [] && fresh(buf)
    {
      buf := new int[RBUFSIZE](_ => 0);
      text := [];
    }

    method Strlen() returns (n: nat)
      requires Valid()
      ensures n == |text|
    {
      n := 0;
      StringAt(buf[..], text, n);
      while buf[n] != 0
        invariant n <= |text| && (buf[n] == 0 <==> n == |text|)
        decreases |text| - n
      {
        n := n + 1;
        StringAt(buf[..], text, n);
      }
    }

    /** strstr for a newline. */
    method HasNewline() returns (found: bool)
      requires Valid()
      ensures found == (NEWLINE in text)
    {
      var i := 0;
      StringAt(buf[..], text, i);
      while buf[i] != 0 && buf[i] != NEWLINE
        invariant i <= |text| && NEWLINE !in text[..i]
        invariant i < |text| ==> buf[i] == text[i]
        invariant buf[i] == 0 <==> i == |text|
        decreases |text| - i
      {
        i := i + 1;
        StringAt(buf[..], text, i);
      }
      found := buf[i] == NEWLINE;
    }

    /** stratum_buffer_append. */
    method Append(s: Text)
      requires Valid() && NulFree(s)
      modifies this, buf
      ensures Valid() && text == old(text) + s && (buf == old(buf) || fresh(buf))
    {
      var before := Strlen();
      var n := before + |s| + 1;
      if n >= buf.Length {
        Grow(n + (RBUFSIZE - n % RBUFSIZE));
      }
      forall i | 0 <= i < |s| {
        buf[before + i] := s[i];
      }
      buf[before + |s|] := 0;
      assert buf[..before] == old(buf[..])[..before];
      text := text + s;
      assert buf[..|text|] == text;
    }

    /** realloc to a larger size. */
    method Grow(size: nat)
      requires Valid() && size >= buf.Length
      modifies this`buf
      ensures Valid() && fresh(buf) && buf.Length == size && buf[..old(buf.Length)] == old(buf[..])
    {
      var bigger := new int[size](_ => 0);
      forall i | 0 <= i < buf.Length {
        bigger[i] := buf[i];
      }
      assert bigger[..|text|] == buf[..|text|] == text;
      buf := bigger;
    }

    /** The first scan of strtok: past the leading newlines. */
    method SkipNewlines() returns (k: nat)
      requires Valid()
      ensures k == Leading(text)
    {
      k := 0;
      StringAt(buf[..], text, k);
      assert text[0..] == text;
      while buf[k] == NEWLINE
        invariant k <= |text| && k + Leading(text[k..]) == Leading(text)
        invariant (k < |text| ==> buf[k] == text[k]) && (buf[k] == 0 <==> k == |text|)
        decreases |text| - k
      {
        assert text[k..][1..] == text[k + 1..];
        k := k + 1;
        StringAt(buf[..], text, k);
      }
    }

    /** The second: to the next newline or the end. */
    method TokenEnd(k: nat) returns (j: nat)
      requires Valid() && k <= |text|
      ensures j == k + IndexOf(text[k..], NEWLINE)
    {
      j := k;
      StringAt(buf[..], text, j);
      while buf[j] != 0 && buf[j] != NEWLINE
        invariant k <= j <= |text| && j + IndexOf(text[j..], NEWLINE) == k + IndexOf(text[k..], NEWLINE)
        invariant (j < |text| ==> buf[j] == text[j]) && (buf[j] == 0 <==> j == |text|)
        decreases |text| - j
      {
        assert text[j..][1..] == text[j + 1..];
        j := j + 1;
        StringAt(buf[..], text, j);
      }
    }

    /** The end of stratum_recv_line: strtok, copy, and the move that brings the rest to the front. */
    method TakeLine() returns (line: Option<Text>)
      requires Valid()
      modifies this`text, buf
      ensures Valid() && line == Cut(old(text)).0 && text == Cut(old(text)).1
    {
      var buflen := Strlen();
      var k := SkipNewlines();
      if k == buflen {
        return None;
      }
      var j := TokenEnd(k);
      var token := CopyToken(k, j);
      line := Some(token);
      DropToken(k, j, buflen);
    }

    method CopyToken(k: nat, j: nat) returns (token: Text)
      requires Valid() && k <= |text| && j == k + IndexOf(text[k..], NEWLINE)
      ensures token == Token(text, k)
    {
      TokenText(buf[..], text, k, j);
      token := buf[k..j];
    }

    /** The NUL that strtok writes and the move, which reads up to one byte past the terminator;
        `Valid` keeps that inside the buffer. */
    method DropToken(k: nat, j: nat, buflen: nat)
      requires Valid() && buflen == |text| && k <= j <= |text|
      modifies this`text, buf
      ensures Valid() && text == Rest(old(text), k, j - k)
    {
      ghost var b := buf[..];
      var len := j - k;
      if j < buflen {
        buf[j] := 0;
      }
      ghost var b1 := buf[..];
      if buflen > len + 1 {
        MoveDown(len + 1, buflen - len + 1);
        MovedString(b, b1, buf[..], text, Rest(text, k, len), k, j);
      } else {
        buf[0] := 0;
      }
      text := Rest(text, k, len);
    }

    /** memmove to the front. */
    method MoveDown(from: nat, count: nat)
      requires from + count <= buf.Length
      modifies buf
      ensures forall i | 0 <= i < count :: buf[i] == old(buf[from + i])
      ensures forall i | count <= i < buf.Length :: buf[i] == old(buf[i])
    {
      forall i | 0 <= i < count {
        buf[i] := buf[from + i];
      }
    }

    /** stratum_recv_line: `ready` is the first wait for the socket, `turns` what the turns of its
        loop meet; where they end, a read fails. */
    method RecvLine(ready: bool, turns: seq<Read>) returns (line: Option<Text>, later: seq<Read>)
      requires Valid()
      modifies this, buf
      ensures Valid() && (buf == old(buf) || fresh(buf))
      ensures (line, text, later) == RecvTimed(old(text), ready, turns)
    {
      later := turns;
      var found := HasNewline();
      if !found {
        if !ready {
          return None, later;
        }
        var ret;
        ret, later := ReceiveLoop(turns);
        if !ret {
          return None, later;
        }
      }
      line := TakeLine();
    }

    /** Its do-while loop. */
    method ReceiveLoop(turns: seq<Read>) returns (ret: bool, later: seq<Read>)
      requires Valid()
      modifies this, buf
      ensures Valid() && (buf == old(buf) || fresh(buf))
      ensures (text, later, ret) == Receive(old(text), turns)
    {
      later, ret := turns, true;
      var more := true;
      while more
        invariant Valid() && (buf == old(buf) || fresh(buf))
        invariant if more then ret && Receive(text, later) == Receive(old(text), turns)
                  else (text, later, ret) == Receive(old(text), turns)
        decreases |later|, more
      {
        if later == [] {
          ret := false;
          break;
        }
        var late := later[0].late;
        AppendRead(later[0]);
        later := later[1..];
        var found := HasNewline();
        more := !late && !found;
      }
    }

    method AppendRead(r: Read)
      requires Valid()
      modifies this, buf
      ensures Valid() && text == old(text) + Shown(r) && (buf == old(buf) || fresh(buf))
    {
      var shown := r.data[..IndexOf(r.data, 0)];
      assert forall i | 0 <= i < |shown| :: shown[i] in shown;
      Append(shown);
    }
  }
}
