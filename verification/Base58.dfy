/** Base58 decoding (b58dec in util.c): a multi-precision multiply-and-add over 32-bit words, most
    significant first, written out as big-endian bytes. */
module Base58 {
  import opened Radix
  import opened Words

  const DIGITS := "123456789ABCDEFGHJKLMNPQRSTUVWXYZ" + "abcdefghijkmnopqrstuvwxyz"

  /** Written in the digits of an alphabet. */
  predicate IsIn(s: string, alphabet: string) { forall i | 0 <= i < |s| :: s[i] in alphabet }

  /** The least index of ch in the alphabet, from k on. */
  function DigitFrom(alphabet: string, ch: char, k: nat): (d: nat)
    requires k <= |alphabet| && ch in alphabet[k..]
    ensures k <= d < |alphabet| && alphabet[d] == ch && ch !in alphabet[k..d]
    decreases |alphabet| - k
  {
    if alphabet[k] == ch then k else DigitFrom(alphabet, ch, k + 1)
  }

  function Digit(alphabet: string, ch: char): nat requires ch in alphabet { DigitFrom(alphabet, ch, 0) }

  /** The number a string stands for. */
  function ValueIn(s: string, alphabet: string): nat
    requires IsIn(s, alphabet)
  {
    if s == [] then 0 else ValueIn(s[..|s| - 1], alphabet) * 58 + Digit(alphabet, s[|s| - 1])
  }

  /** The runs of digits and letters the alphabet is made of. */
  function RunAt(i: nat): int
    requires i < 58
  {
    if i < 9 then '1' as int + i
    else if i < 17 then 'A' as int + (i - 9)
    else if i < 22 then 'J' as int + (i - 17)
    else if i < 33 then 'P' as int + (i - 22)
    else if i < 44 then 'a' as int + (i - 33)
    else 'm' as int + (i - 44)
  }

  /** The alphabet cut into its runs. */
  lemma AlphabetRuns(i: nat)
    requires i < 58
    ensures |DIGITS| == 58 && DIGITS[i] as int == RunAt(i)
  {
    if i < 9 {
      assert DIGITS[i] == "123456789ABCDEFGHJKLMNPQRSTUVWXYZ"[i];
    }
  }

  predicate IsBase58(c: char) {
    '1' <= c <= '9' || ('A' <= c <= 'Z' && c != 'I' && c != 'O') || ('a' <= c <= 'z' && c != 'l')
  }

  /** The place of a character in its run. */
  lemma RunHas(c: char) returns (i: nat)
    requires IsBase58(c)
    ensures i < 58 && RunAt(i) == c as int
  {
    var n := c as int;
    if c <= '9' {
      i := n - '1' as int;
    } else if c <= 'Z' {
      i := if c < 'I' then n - 'A' as int + 9 else if c < 'O' then n - 'J' as int + 17 else n - 'P' as int + 22;
    } else {
      i := if c < 'l' then n - 'a' as int + 33 else n - 'm' as int + 44;
    }
  }

  lemma RunIs(i: nat)
    requires i < 58
    ensures 0 <= RunAt(i) < 128 && IsBase58(RunAt(i) as char)
    ensures forall j | i < j < 58 :: RunAt(i) < RunAt(j)
  {}

  /** The alphabet holds each digit and letter but 0, I, O and l once, in ascending order, so a digit's
      value is the number of those before it. */
  lemma AlphabetIs(i: nat, j: nat, c: char)
    ensures |DIGITS| == 58 && (i < j < 58 ==> DIGITS[i] < DIGITS[j])
    ensures c in DIGITS <==>
            '1' <= c <= '9' || ('A' <= c <= 'Z' && c != 'I' && c != 'O') || ('a' <= c <= 'z' && c != 'l')
  {
    AlphabetRuns(0);
    if i < j < 58 {
      AlphabetRuns(i);
      AlphabetRuns(j);
      RunIs(i);
    }
    if IsBase58(c) {
      var k := RunHas(c);
      AlphabetRuns(k);
      assert DIGITS[k] == c;
    }
    if c in DIGITS {
      AlphabetHas(c);
    }
  }

  lemma AlphabetHas(c: char)
    requires c in DIGITS
    ensures IsBase58(c)
  {
    var k: nat :| k < |DIGITS| && DIGITS[k] == c;
    AlphabetRuns(k);
    RunIs(k);
  }

  predicate IsB58(s: string) { IsIn(s, DIGITS) }

  function B58Value(s: string): nat requires IsB58(s) { ValueIn(s, DIGITS) }

  // ----------------------------------------------------------------- one digit: times 58, plus c

  /** The carry out and the new words. */
  function MulAdd(s: seq<int>, c: int): (r: (int, seq<int>))
    ensures |r.1| == |s|
  {
    if s == [] then (c, [])
    else
      var t := s[|s| - 1] * 58 + c;
      var r := MulAdd(s[..|s| - 1], t / WORD);
      (r.0, r.1 + [t % WORD])
  }

  /** It multiplies by 58 and adds c: the words and the carry together lose nothing. */
  lemma {:induction false} MulAddIsExact(s: seq<int>, c: int)
    requires IsBase(s, WORD) && 0 <= c < 58
    ensures var r := MulAdd(s, c);
            IsBase(r.1, WORD) && 0 <= r.0 < 58 && r.0 * Pow(WORD, |s|) + Value(r.1, WORD) == Value(s, WORD) * 58 + c
  {
    if s != [] {
      var front, last := s[..|s| - 1], s[|s| - 1];
      var t := last * 58 + c;
      MulAddIsExact(front, t / WORD);
      var r := MulAdd(front, t / WORD);
      var words := r.1 + [t % WORD];
      assert words[..|words| - 1] == r.1;
      CarryOver(r.0, Pow(WORD, |front|), Value(r.1, WORD), Value(front, WORD), last, c);
    }
  }

  lemma CarryOver(carry: int, p: int, high: int, was: int, last: int, c: int)
    requires carry * p + high == was * 58 + (last * 58 + c) / WORD
    ensures carry * (WORD * p) + (high * WORD + (last * 58 + c) % WORD) == (was * WORD + last) * 58 + c
  {
    var t := last * 58 + c;
    assert (carry * p) * WORD == carry * (WORD * p);
    assert t == t / WORD * WORD + t % WORD;
  }

  // ------------------------------------------------------------------- the exit after each digit

  /** What the words stay below: 256^rem in the first word. */
  function Limit(binsz: nat): nat
    requires binsz > 0
  {
    Pow(256, binsz % 4) * Pow(WORD, (binsz + 3) / 4 - 1)
  }

  /** outi[0] & remmask, with remmask = 0xffffffff << (8 * rem), is nonzero. */
  predicate MaskHits(word: int, rem: nat)
    requires rem < 4
  {
    word >= if rem == 0 then 1 else if rem == 1 then 0x100 else if rem == 2 then 0x1_0000 else 0x100_0000
  }

  /** "No carry and nothing under the mask" is "below the limit". */
  lemma FitsIffBelowLimit(carry: int, words: seq<int>, binsz: nat)
    requires binsz > 0 && |words| == (binsz + 3) / 4 && IsBase(words, WORD) && carry >= 0
    ensures (carry == 0 && !MaskHits(words[0], binsz % 4))
            <==> carry * Pow(WORD, |words|) + Value(words, WORD) < Limit(binsz)
  {
    ValueHead(words, WORD);
    ValueBound(words[1..], WORD);
    MaskIsBound(words[0], binsz % 4);
    TopWordDecides(carry, words[0], Value(words[1..], WORD), Pow(WORD, |words| - 1), Pow(256, binsz % 4));
  }

  lemma TopWordDecides(carry: int, top: int, rest: int, p: int, q: int)
    requires carry >= 0 && 0 <= top < WORD && 0 <= rest < p && 0 < q <= WORD
    ensures (carry == 0 && top < q) <==> carry * (WORD * p) + (top * p + rest) < q * p
  {
    if carry > 0 {
      MulMono(1, carry, WORD * p);
      MulMono(q, WORD, p);
      MulMono(0, top, p);
    } else if top < q {
      MulMono(top + 1, q, p);
    } else {
      MulMono(q, top, p);
    }
  }

  lemma SmallPowers(base: nat)
    ensures Pow(base, 0) == 1 && Pow(base, 1) == base && Pow(base, 2) == base * base
            && Pow(base, 3) == base * (base * base)
    ensures Pow(base, 4) == base * (base * (base * base))
  {}

  lemma MaskIsBound(word: int, rem: nat)
    requires rem < 4
    ensures MaskHits(word, rem) <==> word >= Pow(256, rem)
    ensures 0 < Pow(256, rem) <= WORD
  {
    SmallPowers(256);
  }

  /** Where the size is no multiple of four the limit is all that the bytes can hold; where it is, the
      first word is lost. */
  lemma LimitInBytes(binsz: nat)
    requires binsz > 0
    ensures Limit(binsz) == Pow(256, if binsz % 4 != 0 then binsz else binsz - 4)
  {
    var k, rem := (binsz + 3) / 4 - 1, binsz % 4;
    assert 4 * k + rem == if rem != 0 then binsz else binsz - 4;
    WordPowers(k);
    PowAdd(256, rem, 4 * k);
  }

  lemma {:induction false} WordPowers(k: nat)
    ensures Pow(WORD, k) == Pow(256, 4 * k)
  {
    if k > 0 {
      WordPowers(k - 1);
      PowAdd(256, 4, 4 * (k - 1));
      SmallPowers(256);
    }
  }

  /** The value only grows with further digits, so leaving early loses no string that fits. */
  lemma {:induction false} PrefixIsSmaller(s: string, alphabet: string, i: nat)
    requires IsIn(s, alphabet) && i <= |s|
    ensures ValueIn(s[..i], alphabet) <= ValueIn(s, alphabet)
    decreases |s| - i
  {
    if i < |s| {
      PrefixIsSmaller(s, alphabet, i + 1);
      assert s[..i + 1][..i] == s[..i];
    } else {
      assert s[..i] == s;
    }
  }

  // ----------------------------------------------------------------------------------- b58dec

  /** The search of b58digits, which stops at the terminator. */
  method FindDigit(alphabet: string, ch: char) returns (c: nat)
    ensures ch in alphabet ==> c == Digit(alphabet, ch)
    ensures ch !in alphabet <==> c == |alphabet|
  {
    c := 0;
    while c < |alphabet| && alphabet[c] != ch
      invariant c <= |alphabet| && ch !in alphabet[..c]
      invariant ch in alphabet ==> ch in alphabet[c..] && DigitFrom(alphabet, ch, c) == Digit(alphabet, ch)
    {
      c := c + 1;
    }
  }

  method MulAddWords(outi: array<int>, digit: int) returns (c: int)
    requires IsBase(outi[..], WORD) && 0 <= digit < 58
    modifies outi
    ensures c == MulAdd(old(outi[..]), digit).0 && outi[..] == MulAdd(old(outi[..]), digit).1
  {
    c := digit;
    ghost var was := outi[..];
    assert was[..outi.Length] == was;
    var j := outi.Length;
    while j > 0
      invariant 0 <= j <= outi.Length && 0 <= c < 58
      invariant outi[..j] == was[..j]
      invariant MulAdd(was[..j], c).0 == MulAdd(was, digit).0
      invariant MulAdd(was[..j], c).1 + outi[j..] == MulAdd(was, digit).1
    {
      j := j - 1;
      assert outi[j] == was[j] by { assert outi[j] == outi[..j + 1][j]; }
      var t := outi[j] * 58 + c;
      assert 0 <= t < 0x1_0000_0000_0000_0000;
      ghost var tail := outi[j + 1..];
      MulAddStep(was, j, c, tail);
      c := t / WORD;
      outi[j] := t % WORD;
      assert outi[j..] == [t % WORD] + tail;
      assert outi[..j] == was[..j];
    }
    assert outi[0..] == outi[..] && was[..0] == [];
  }

  lemma MulAddStep(s: seq<int>, j: nat, c: int, tail: seq<int>)
    requires j < |s|
    ensures var t := s[j] * 58 + c;
            MulAdd(s[..j + 1], c).0 == MulAdd(s[..j], t / WORD).0 &&
            MulAdd(s[..j + 1], c).1 + tail == MulAdd(s[..j], t / WORD).1 + ([t % WORD] + tail)
  {
    assert s[..j + 1][..j] == s[..j] && s[..j + 1][j] == s[j];
  }

  /** be32enc. */
  method PutWord(bin: array<int>, pos: nat, word: int)
    requires pos + 4 <= bin.Length && 0 <= word < WORD
    modifies bin
    ensures bin[..pos] == old(bin[..pos]) && bin[pos + 4..] == old(bin[pos + 4..])
    ensures bin[pos..pos + 4] == [word / 0x100_0000, word / 0x1_0000 % 256, word / 0x100 % 256, word % 256]
  {
    bin[pos] := word / 0x100_0000;
    bin[pos + 1] := word / 0x1_0000 % 256;
    bin[pos + 2] := word / 0x100 % 256;
    bin[pos + 3] := word % 256;
  }

  lemma WordBytes(word: int)
    requires 0 <= word < WORD
    ensures var b := [word / 0x100_0000, word / 0x1_0000 % 256, word / 0x100 % 256, word % 256];
            IsBase(b, 256) && b[0] * 0x100_0000 + b[1] * 0x1_0000 + b[2] * 0x100 + b[3] == word
  {
    var w1 := word / 0x100;
    var w2 := w1 / 0x100;
    assert word / 0x1_0000 == w2;
    assert word / 0x100_0000 == w2 / 0x100;
  }

  /** Appending a word's bytes appends the word. */
  lemma AppendWord(done: seq<int>, words: seq<int>, b: seq<int>, word: int)
    requires |b| == 4 && b[0] * 0x100_0000 + b[1] * 0x1_0000 + b[2] * 0x100 + b[3] == word
    requires Value(done, 256) == Value(words, WORD)
    ensures Value(done + b, 256) == Value(words + [word], WORD)
  {
    ValueAppend(done, b[0], 256);
    ValueAppend(done + [b[0]], b[1], 256);
    ValueAppend(done + [b[0]] + [b[1]], b[2], 256);
    ValueAppend(done + [b[0]] + [b[1]] + [b[2]], b[3], 256);
    assert done + b == done + [b[0]] + [b[1]] + [b[2]] + [b[3]];
    ValueAppend(words, word, WORD);
  }

  /** The bytes of the first word that the size leaves room for. */
  method PutFirst(bin: array<int>, word: int, rem: nat) returns (j: nat)
    requires rem < 4 && rem <= bin.Length && 0 <= word < WORD && (rem > 0 ==> !MaskHits(word, rem))
    modifies bin
    ensures j == (if rem == 0 then 0 else 1) && bin[rem..] == old(bin[rem..])
    ensures IsBase(bin[..rem], 256) && (rem > 0 ==> Value(bin[..rem], 256) == word)
  {
    var pos := 0;
    j := 0;
    if rem == 3 {
      bin[pos] := word / 0x1_0000 % 256;
      pos := pos + 1;
    }
    if rem >= 2 {
      bin[pos] := word / 0x100 % 256;
      pos := pos + 1;
    }
    if rem >= 1 {
      bin[pos] := word % 256;
      j := 1;
    }
    FewDigits(bin[..rem]);
    if rem > 0 {
      FewBytes(word, rem);
    }
  }

  /** A word that the mask lets through is in its low rem bytes. */
  lemma FewBytes(word: int, rem: nat)
    requires 0 <= word && 0 < rem < 4 && !MaskHits(word, rem)
    ensures rem == 1 ==> word % 256 == word
    ensures rem == 2 ==> word / 0x100 % 256 * 256 + word % 256 == word
    ensures rem == 3 ==> (word / 0x1_0000 % 256 * 256 + word / 0x100 % 256) * 256 + word % 256 == word
  {
    assert word / 0x1_0000 == word / 0x100 / 0x100;
  }

  lemma FewDigits(s: seq<int>)
    ensures |s| == 1 ==> Value(s, 256) == s[0]
    ensures |s| == 2 ==> Value(s, 256) == s[0] * 256 + s[1]
    ensures |s| == 3 ==> Value(s, 256) == (s[0] * 256 + s[1]) * 256 + s[2]
  {
    if 1 <= |s| <= 3 {
      assert s[..1][..0] == [] && Value(s[..1], 256) == s[0];
      if |s| >= 2 {
        assert s[..2][..1] == s[..1];
        assert s[..|s|] == s;
      } else {
        assert s[..1] == s;
      }
    }
  }

  /** The words as big-endian bytes. */
  method PutWords(bin: array<int>, outi: seq<int>, binsz: nat)
    requires 0 < binsz <= bin.Length && |outi| == (binsz + 3) / 4 && IsBase(outi, WORD)
    requires binsz % 4 > 0 ==> !MaskHits(outi[0], binsz % 4)
    modifies bin
    ensures bin[binsz..] == old(bin[binsz..])
    ensures IsBase(bin[..binsz], 256) && Value(bin[..binsz], 256) == Value(outi, WORD)
  {
    var rem := binsz % 4;
    var j := PutFirst(bin, outi[0], rem);
    FirstWords(outi, bin[..rem]);
    WordsLeft(binsz, |outi|);
    assert bin[binsz..] == bin[rem..][binsz - rem..];
    assert old(bin[binsz..]) == old(bin[rem..])[binsz - rem..];
    PutRest(bin, outi, binsz, rem, j);
  }

  /** The loop over the whole words. */
  method PutRest(bin: array<int>, outi: seq<int>, binsz: nat, pos0: nat, j0: nat)
    requires binsz <= bin.Length && IsBase(outi, WORD) && j0 <= |outi| && pos0 == binsz - 4 * (|outi| - j0)
    requires IsBase(bin[..pos0], 256) && Value(bin[..pos0], 256) == Value(outi[..j0], WORD)
    modifies bin
    ensures bin[binsz..] == old(bin[binsz..])
    ensures IsBase(bin[..binsz], 256) && Value(bin[..binsz], 256) == Value(outi, WORD)
  {
    var pos, j := pos0, j0;
    while j < |outi|
      invariant 0 <= j <= |outi| && pos == binsz - 4 * (|outi| - j)
      invariant bin[binsz..] == old(bin[binsz..])
      invariant IsBase(bin[..pos], 256) && Value(bin[..pos], 256) == Value(outi[..j], WORD)
    {
      PutNext(bin, pos, outi, j, binsz);
      pos := pos + 4;
      j := j + 1;
    }
    assert outi[..j] == outi;
  }

  /** The bytes before the first whole word, and how many words those take. */
  lemma WordsLeft(binsz: nat, words: nat)
    requires words == (binsz + 3) / 4
    ensures binsz % 4 == binsz - 4 * (words - if binsz % 4 == 0 then 0 else 1)
  {}

  lemma FirstWords(outi: seq<int>, first: seq<int>)
    requires |outi| > 0
    ensures first == [] ==> Value(first, 256) == Value(outi[..0], WORD)
    ensures Value(outi[..1], WORD) == outi[0]
  {
    assert outi[..1] == [] + [outi[0]];
    ValueAppend([], outi[0], WORD);
  }

  method PutNext(bin: array<int>, pos: nat, outi: seq<int>, j: nat, binsz: nat)
    requires pos + 4 <= binsz <= bin.Length && j < |outi| && 0 <= outi[j] < WORD
    requires IsBase(bin[..pos], 256) && Value(bin[..pos], 256) == Value(outi[..j], WORD)
    modifies bin
    ensures bin[binsz..] == old(bin[binsz..])
    ensures IsBase(bin[..pos + 4], 256) && Value(bin[..pos + 4], 256) == Value(outi[..j + 1], WORD)
  {
    ghost var done := bin[..pos];
    PutWord(bin, pos, outi[j]);
    WordBytes(outi[j]);
    ghost var b := bin[pos..pos + 4];
    AppendWord(done, outi[..j], b, outi[j]);
    assert bin[..pos + 4] == done + b;
    assert outi[..j + 1] == outi[..j] + [outi[j]];
    assert bin[binsz..] == bin[pos + 4..][binsz - pos - 4..];
    assert old(bin[binsz..]) == old(bin[pos + 4..])[binsz - pos - 4..];
  }

  /** b58dec: true exactly for the Base58 strings whose value is below the limit, and then the first
      binsz bytes are that value; on failure nothing is written. */
  method B58Dec(bin: array<int>, binsz: nat, b58: string) returns (rc: bool)
    requires 0 < binsz <= bin.Length
    modifies bin
    ensures rc <==> IsB58(b58) && B58Value(b58) < Limit(binsz)
    ensures rc ==> IsBase(bin[..binsz], 256) && Value(bin[..binsz], 256) == B58Value(b58)
    ensures bin[binsz..] == old(bin[binsz..])
    ensures !rc ==> bin[..] == old(bin[..])
  {
    rc := Decode(bin, binsz, b58, DIGITS);
  }

  method Decode(bin: array<int>, binsz: nat, b58: string, alphabet: string) returns (rc: bool)
    requires 0 < binsz <= bin.Length && |alphabet| == 58
    modifies bin
    ensures rc <==> IsIn(b58, alphabet) && ValueIn(b58, alphabet) < Limit(binsz)
    ensures rc ==> IsBase(bin[..binsz], 256) && Value(bin[..binsz], 256) == ValueIn(b58, alphabet)
    ensures bin[binsz..] == old(bin[binsz..])
    ensures !rc ==> bin[..] == old(bin[..])
  {
    var outi := new int[(binsz + 3) / 4](_ => 0);
    ZeroWords(outi[..], alphabet, binsz);
    var i := 0;
    while i < |b58|
      invariant 0 <= i <= |b58| && bin[..] == old(bin[..])
      invariant Decoded(outi[..], b58[..i], alphabet, binsz)
    {
      var c := FindDigit(alphabet, b58[i]);
      if c == |alphabet| {
        return false;
      }
      ghost var was := outi[..];
      c := MulAddWords(outi, c);
      OneDigit(was, outi[..], c, b58, alphabet, i, binsz);
      if c != 0 || MaskHits(outi[0], binsz % 4) {
        return false;
      }
      i := i + 1;
    }
    assert b58[..i] == b58;
    PutWords(bin, outi[..], binsz);
    rc := true;
  }

  /** The words hold the value of the digits read so far, and it fits. */
  ghost predicate Decoded(words: seq<int>, read: string, alphabet: string, binsz: nat) {
    && binsz > 0 && |words| == (binsz + 3) / 4
    && IsIn(read, alphabet) && IsBase(words, WORD) && !MaskHits(words[0], binsz % 4)
    && Value(words, WORD) == ValueIn(read, alphabet) < Limit(binsz)
  }

  lemma OneDigit(was: seq<int>, words: seq<int>, carry: int, b58: string, alphabet: string, i: nat, binsz: nat)
    requires i < |b58| && Decoded(was, b58[..i], alphabet, binsz) && b58[i] in alphabet && |alphabet| == 58
    requires carry == MulAdd(was, Digit(alphabet, b58[i])).0 && words == MulAdd(was, Digit(alphabet, b58[i])).1
    ensures if carry == 0 && !MaskHits(words[0], binsz % 4) then Decoded(words, b58[..i + 1], alphabet, binsz)
            else !(IsIn(b58, alphabet) && ValueIn(b58, alphabet) < Limit(binsz))
  {
    StringStep(b58, alphabet, i);
    WordsStep(was, Digit(alphabet, b58[i]), binsz);
  }

  lemma WordsStep(was: seq<int>, d: int, binsz: nat)
    requires binsz > 0 && |was| == (binsz + 3) / 4 && IsBase(was, WORD) && 0 <= d < 58
    ensures var r := MulAdd(was, d);
            IsBase(r.1, WORD) &&
            ((r.0 == 0 && !MaskHits(r.1[0], binsz % 4)) <==> Value(was, WORD) * 58 + d < Limit(binsz)) &&
            (r.0 == 0 ==> Value(r.1, WORD) == Value(was, WORD) * 58 + d)
  {
    MulAddIsExact(was, d);
    FitsIffBelowLimit(MulAdd(was, d).0, MulAdd(was, d).1, binsz);
  }

  lemma {:induction false} StringStep(b58: string, alphabet: string, i: nat)
    requires i < |b58| && IsIn(b58[..i], alphabet) && b58[i] in alphabet
    ensures IsIn(b58[..i + 1], alphabet)
    ensures ValueIn(b58[..i + 1], alphabet) == ValueIn(b58[..i], alphabet) * 58 + Digit(alphabet, b58[i])
    ensures IsIn(b58, alphabet) ==> ValueIn(b58[..i + 1], alphabet) <= ValueIn(b58, alphabet)
  {
    var next := b58[..i + 1];
    assert next[..i] == b58[..i] && next[i] == b58[i];
    if IsIn(b58, alphabet) {
      PrefixIsSmaller(b58, alphabet, i + 1);
    }
  }

  lemma ZeroWords(s: seq<int>, alphabet: string, binsz: nat)
    requires binsz > 0 && |s| == (binsz + 3) / 4 && forall i | 0 <= i < |s| :: s[i] == 0
    ensures Decoded(s, [], alphabet, binsz)
  {
    ZeroValue(s, WORD);
    FitsIffBelowLimit(0, s, binsz);
  }
}
