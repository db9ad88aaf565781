/** Bech32 decoding (bech32_decode in util.c) and the checksum of BIP 173, section "Checksum".

    The 30-bit checksum register is a sequence of bits, least significant first; characters are byte
    values. */
module Bech32 {
  import opened BitVectors

  // ------------------------------------------------------------------------------ the checksum

  type Chk = s: seq<bool> | |s| == 30 witness Zeros(30)

  /** The low k bits of n. */
  function BitsOf(n: nat, k: nat): (r: Bits)
    ensures |r| == k
  {
    if k == 0 then [] else [n % 2 == 1] + BitsOf(n / 2, k - 1)
  }

  function Generator(j: nat): nat {
    if j == 0 then 0x3b6a57b2 else if j == 1 then 0x26508e6d else if j == 2 then 0x1ea119fa
    else if j == 3 then 0x3d4233dd else 0x2a1462b3
  }

  function Masked(on: bool, j: nat, width: nat): (r: Bits)
    ensures |r| == width
  {
    if on then BitsOf(Generator(j), width) else Zeros(width)
  }

  /** The generators that the top five bits select. */
  function Mixed(b: Bits, width: nat): (r: Bits)
    requires |b| == 5
    ensures |r| == width
  {
    Xor(Xor(Xor(Xor(Masked(b[0], 0, width), Masked(b[1], 1, width)), Masked(b[2], 2, width)), Masked(b[3], 3, width)),
        Masked(b[4], 4, width))
  }

  /** bech32_polymod_step. */
  function Step(pre: Chk): Chk {
    Xor(Zeros(5) + pre[..25], Mixed(pre[25..], |pre|))
  }

  /** One more 5-bit value. */
  function Absorb(chk: Chk, v: nat): Chk {
    Xor(Step(chk), BitsOf(v, |chk|))
  }

  type Absorber = (Chk, nat) -> Chk

  /** The register after values are absorbed one by one, whatever absorbing one does. */
  function Fold(absorb: Absorber, chk: Chk, values: seq<nat>): Chk
    decreases |values|
  {
    if values == [] then chk else Fold(absorb, absorb(chk, values[0]), values[1..])
  }

  function Polymod(chk: Chk, values: seq<nat>): Chk { Fold(Absorb, chk, values) }

  /** The low five bits of the generators, which form an invertible matrix. */
  lemma GeneratorLow(j: nat, width: nat)
    requires j < 5 && width >= 5
    ensures BitsOf(Generator(j), width)[..5] ==
            if j == 0 then [false, true, false, false, true] else if j == 1 then [true, false, true, true, false]
            else if j == 2 then [false, true, false, true, true] else if j == 3 then [true, false, true, true, true]
            else [true, true, false, false, true]
  {
    FirstFive(Generator(j), width);
    LowDigits(j);
  }

  lemma LowDigits(j: nat)
    requires j < 5
    ensures var n := Generator(j);
            && (n % 2 == 1 <==> j == 1 || j == 3 || j == 4)
            && (n / 2 % 2 == 1 <==> j == 0 || j == 2 || j == 4)
            && (n / 2 / 2 % 2 == 1 <==> j == 1 || j == 3)
            && (n / 2 / 2 / 2 % 2 == 1 <==> j == 1 || j == 2 || j == 3)
            && (n / 2 / 2 / 2 / 2 % 2 == 1 <==> j == 0 || j == 2 || j == 3 || j == 4)
  {}

  lemma FirstFive(n: nat, k: nat)
    requires k >= 5
    ensures BitsOf(n, k)[..5] ==
            [n % 2 == 1, n / 2 % 2 == 1, n / 2 / 2 % 2 == 1, n / 2 / 2 / 2 % 2 == 1, n / 2 / 2 / 2 / 2 % 2 == 1]
  {
    var r1 := BitsOf(n / 2, k - 1);
    var r2 := BitsOf(n / 2 / 2, k - 2);
    var r3 := BitsOf(n / 2 / 2 / 2, k - 3);
    var r4 := BitsOf(n / 2 / 2 / 2 / 2, k - 4);
    assert BitsOf(n, k) == [n % 2 == 1] + r1;
    assert r1 == [n / 2 % 2 == 1] + r2;
    assert r2 == [n / 2 / 2 % 2 == 1] + r3;
    assert r3 == [n / 2 / 2 / 2 % 2 == 1] + r4;
  }

  /** The low five bits of Mixed, as a function of the five selecting bits. */
  lemma MixedLow(b: Bits, width: nat)
    requires |b| == 5 && width >= 5
    ensures var m := Mixed(b, width);
            && m[0] == ((b[1] != b[3]) != b[4])
            && m[1] == ((b[0] != b[2]) != b[4])
            && m[2] == (b[1] != b[3])
            && m[3] == ((b[1] != b[2]) != b[3])
            && m[4] == (((b[0] != b[2]) != b[3]) != b[4])
  {
    MaskedLow(b[0], 0, width);
    MaskedLow(b[1], 1, width);
    MaskedLow(b[2], 2, width);
    MaskedLow(b[3], 3, width);
    MaskedLow(b[4], 4, width);
  }

  lemma MaskedLow(on: bool, j: nat, width: nat)
    requires j < 5 && width >= 5
    ensures var m := Masked(on, j, width);
            && m[0] == (on && (j == 1 || j == 3 || j == 4))
            && m[1] == (on && (j == 0 || j == 2 || j == 4))
            && m[2] == (on && (j == 1 || j == 3))
            && m[3] == (on && (j == 1 || j == 2 || j == 3))
            && m[4] == (on && (j == 0 || j == 2 || j == 3 || j == 4))
  {
    GeneratorLow(j, width);
    var m := Masked(on, j, width);
    if on {
      assert m[0] == m[..5][0] && m[1] == m[..5][1] && m[2] == m[..5][2] && m[3] == m[..5][3] && m[4] == m[..5][4];
    }
  }

  lemma MixedDetermines(b: Bits, c: Bits, width: nat)
    requires |b| == |c| == 5 && width >= 5 && Mixed(b, width)[..5] == Mixed(c, width)[..5]
    ensures b == c
  {
    MixedLow(b, width);
    MixedLow(c, width);
    var m, n := Mixed(b, width), Mixed(c, width);
    assert forall i | 0 <= i < 5 :: m[i] == m[..5][i] == n[..5][i] == n[i];
    assert m[0] == n[0] && m[1] == n[1] && m[2] == n[2] && m[3] == n[3] && m[4] == n[4];
  }

  /** The low five bits of the result are those of the mixed-in part, which thus shows itself. */
  lemma ShiftedXor(a: Bits, b: Bits, m: Bits, n: Bits)
    requires |a| == |b| == 25 && |m| == |n| == 30 && Xor(Zeros(5) + a, m) == Xor(Zeros(5) + b, n)
    ensures m[..5] == n[..5]
    ensures m == n ==> a == b
  {
    var x, y := Xor(Zeros(5) + a, m), Xor(Zeros(5) + b, n);
    forall i | 0 <= i < 5 ensures m[i] == n[i] {
      assert x[i] == y[i];
    }
    forall i | 0 <= i < 25 && m == n ensures a[i] == b[i] {
      assert x[5 + i] == y[5 + i];
    }
  }

  /** The polymod step loses nothing of the register. */
  lemma StepInjective(x: Chk, y: Chk)
    requires Step(x) == Step(y)
    ensures x == y
  {
    StepParts(x[..25], x[25..], y[..25], y[25..]);
    SamePieces(x, y, 25);
  }

  lemma SamePieces(x: Bits, y: Bits, n: nat)
    requires n <= |x| && n <= |y| && x[..n] == y[..n] && x[n..] == y[n..]
    ensures x == y
  {
    assert x == x[..n] + x[n..] && y == y[..n] + y[n..];
  }

  lemma StepParts(a: Bits, p: Bits, b: Bits, q: Bits)
    requires |a| == |b| == 25 && |p| == |q| == 5
    requires Xor(Zeros(5) + a, Mixed(p, 30)) == Xor(Zeros(5) + b, Mixed(q, 30))
    ensures a == b && p == q
  {
    ShiftedXor(a, b, Mixed(p, 30), Mixed(q, 30));
    MixedDetermines(p, q, 30);
  }

  lemma XorCancels(m: Bits, a: Bits, b: Bits)
    requires |a| == |b| == |m| && Xor(m, a) == Xor(m, b)
    ensures a == b
  {
    forall i | 0 <= i < |a| ensures a[i] == b[i] {
      assert Xor(m, a)[i] == Xor(m, b)[i];
    }
  }

  lemma XorInjective(a: Bits, b: Bits, m: Bits)
    requires |a| == |b| == |m| && Xor(a, m) == Xor(b, m)
    ensures a == b
  {
    forall i | 0 <= i < |a| ensures a[i] == b[i] {
      assert Xor(a, m)[i] == Xor(b, m)[i];
    }
  }

  lemma BitsDetermineSymbol(v: nat, w: nat, width: nat)
    requires v < 32 && w < 32 && width >= 5 && BitsOf(v, width) == BitsOf(w, width)
    ensures v == w
  {
    FirstFive(v, width);
    FirstFive(w, width);
    SymbolFromBits(v);
    SymbolFromBits(w);
    var a, b := BitsOf(v, width)[..5], BitsOf(w, width)[..5];
    assert a[0] == b[0] && a[1] == b[1] && a[2] == b[2] && a[3] == b[3] && a[4] == b[4];
  }

  lemma SymbolFromBits(v: nat)
    requires v < 32
    ensures v == v % 2 + 2 * (v / 2 % 2) + 4 * (v / 2 / 2 % 2) + 8 * (v / 2 / 2 / 2 % 2) + 16 * (v / 2 / 2 / 2 / 2 % 2)
  {}

  /** A different register stays different, and a different symbol makes it different. */
  lemma AbsorbInjective(x: Chk, y: Chk, v: nat)
    requires Absorb(x, v) == Absorb(y, v)
    ensures x == y
  {
    XorInjective(Step(x), Step(y), BitsOf(v, |x|));
    StepInjective(x, y);
  }

  lemma SymbolMatters(x: Chk, v: nat, w: nat)
    requires v < 32 && w < 32 && Absorb(x, v) == Absorb(x, w)
    ensures v == w
  {
    XorCancels(Step(x), BitsOf(v, |x|), BitsOf(w, |x|));
    BitsDetermineSymbol(v, w, |x|);
  }

  lemma {:induction false} PolymodInjective(x: Chk, y: Chk, values: seq<nat>)
    requires Polymod(x, values) == Polymod(y, values)
    ensures x == y
    decreases |values|
  {
    if values != [] {
      PolymodInjective(Absorb(x, values[0]), Absorb(y, values[0]), values[1..]);
      AbsorbInjective(x, y, values[0]);
    }
  }

  lemma {:induction false} FoldConcat(absorb: Absorber, x: Chk, a: seq<nat>, b: seq<nat>)
    ensures Fold(absorb, x, a + b) == Fold(absorb, Fold(absorb, x, a), b)
    decreases |a|
  {
    if a == [] {
      assert a + b == b;
    } else {
      assert (a + b)[1..] == a[1..] + b;
      FoldConcat(absorb, absorb(x, a[0]), a[1..], b);
    }
  }

  lemma FoldAppend(absorb: Absorber, x: Chk, a: seq<nat>, v: nat)
    ensures Fold(absorb, x, a + [v]) == absorb(Fold(absorb, x, a), v)
  {
    FoldConcat(absorb, x, a, [v]);
    assert [v][1..] == [];
    assert Fold(absorb, Fold(absorb, x, a), [v]) == Fold(absorb, absorb(Fold(absorb, x, a), v), []);
  }

  lemma PolymodConcat(x: Chk, a: seq<nat>, b: seq<nat>)
    ensures Polymod(x, a + b) == Polymod(Polymod(x, a), b)
  {
    FoldConcat(Absorb, x, a, b);
  }

  lemma PolymodAppend(x: Chk, a: seq<nat>, v: nat)
    ensures Polymod(x, a + [v]) == Absorb(Polymod(x, a), v)
  {
    FoldAppend(Absorb, x, a, v);
  }

  /** Changing one value changes the checksum. */
  lemma OneValueMatters(x: Chk, values: seq<nat>, k: nat, w: nat)
    requires k < |values| && values[k] < 32 && w < 32 && values[k] != w
    ensures Polymod(x, values[k := w]) != Polymod(x, values)
  {
    var a, b := values[..k], values[k + 1..];
    assert values == (a + [values[k]]) + b && values[k := w] == (a + [w]) + b;
    PolymodConcat(x, a + [values[k]], b);
    PolymodConcat(x, a + [w], b);
    PolymodAppend(x, a, values[k]);
    PolymodAppend(x, a, w);
    var p := Polymod(x, a);
    if Polymod(x, values[k := w]) == Polymod(x, values) {
      PolymodInjective(Absorb(p, values[k]), Absorb(p, w), b);
      SymbolMatters(p, values[k], w);
    }
  }

  // ---------------------------------------------------------------------------------- strings

  /** A reverse lookup of data characters: a value below 32, or -1, for every 7-bit character; the
      separator has no value. */
  predicate IsTable(rev: seq<int>) {
    |rev| == 128 && rev[ONE] == -1 && forall i | 0 <= i < 128 :: -1 <= rev[i] < 32
  }

  type Table = rev: seq<int> | IsTable(rev) witness seq(128, _ => -1)

  /** The value of a data character, -1 for none. */
  function CharValue(rev: Table, ch: int): (v: int)
    requires 0 <= ch < 256
    ensures -1 <= v < 32
  {
    if ch >= 128 then -1 else rev[ch]
  }

  const ONE := 49

  predicate IsLower(ch: int) { 97 <= ch <= 122 }

  predicate IsUpper(ch: int) { 65 <= ch <= 90 }

  predicate HasLower(s: seq<int>) { s != [] && (HasLower(s[..|s| - 1]) || IsLower(s[|s| - 1])) }

  predicate HasUpper(s: seq<int>) { s != [] && (HasUpper(s[..|s| - 1]) || IsUpper(s[|s| - 1])) }

  function ToLower(ch: int): int { if IsUpper(ch) then ch + 32 else ch }

  predicate IsString(s: seq<int>) { forall i | 0 <= i < |s| :: 0 < s[i] < 256 }

  /** The index of the last '1', or -1. */
  function LastOne(s: seq<int>): (p: int)
    ensures -1 <= p < |s|
  {
    if s == [] then -1 else if s[|s| - 1] == ONE then |s| - 1 else LastOne(s[..|s| - 1])
  }

  predicate HrpOk(s: seq<int>) { forall i | 0 <= i < |s| :: 33 <= s[i] <= 126 }

  predicate DataOk(rev: Table, s: seq<int>) { IsString(s) && forall i | 0 <= i < |s| :: CharValue(rev, s[i]) != -1 }

  function Lowered(s: seq<int>): seq<int> {
    if s == [] then [] else Lowered(s[..|s| - 1]) + [ToLower(s[|s| - 1])]
  }

  /** The human-readable part enters the checksum as high bits, a zero, low bits. */
  function HighBits(s: seq<int>): seq<nat>
    requires HrpOk(s)
  {
    if s == [] then [] else HighBits(s[..|s| - 1]) + [ToLower(s[|s| - 1]) / 32]
  }

  function LowBits(s: seq<int>): seq<nat>
    requires HrpOk(s)
  {
    if s == [] then [] else LowBits(s[..|s| - 1]) + [s[|s| - 1] % 32]
  }

  function DataValues(rev: Table, s: seq<int>): (r: seq<nat>)
    requires DataOk(rev, s)
    ensures |r| == |s| && forall i | 0 <= i < |s| :: r[i] == CharValue(rev, s[i])
  {
    if s == [] then [] else DataValues(rev, s[..|s| - 1]) + [CharValue(rev, s[|s| - 1])]
  }

  function HrpValues(hrp: seq<int>): seq<nat>
    requires HrpOk(hrp)
  {
    HighBits(hrp) + [0] + LowBits(hrp)
  }

  /** The number 1, where the register starts and where it must end. */
  function One(): Chk { [true] + Zeros(29) }

  /** The register after the whole string. */
  function Residue(rev: Table, hrp: seq<int>, data: seq<int>): Chk
    requires HrpOk(hrp) && DataOk(rev, data)
  {
    Polymod(One(), HrpValues(hrp) + DataValues(rev, data))
  }

  predicate ChecksumOk(rev: Table, hrp: seq<int>, data: seq<int>)
    requires HrpOk(hrp) && DataOk(rev, data)
  {
    Residue(rev, hrp, data) == One()
  }

  /** Length and place of the separator. */
  predicate ShapeOk(s: seq<int>) {
    8 <= |s| <= 90 && 1 <= LastOne(s) && |s| - 1 - LastOne(s) >= 6
  }

  predicate MixedCase(s: seq<int>) { HasLower(s) && HasUpper(s) }

  /** What is asked of the two parts around the separator. */
  predicate PartsOk(rev: Table, s: seq<int>, pos: int)
    requires 0 <= pos < |s|
  {
    HrpOk(s[..pos]) && DataOk(rev, s[pos + 1..]) && !MixedCase(s) && ChecksumOk(rev, s[..pos], s[pos + 1..])
  }

  /** The strings accepted, for the character table at hand. */
  predicate Accepts(rev: Table, s: seq<int>)
    requires IsString(s)
  {
    ShapeOk(s) && PartsOk(rev, s, LastOne(s))
  }

  // ----------------------------------------------------------------------- error detection

  lemma {:induction false} LastOneIs(s: seq<int>, pos: nat)
    requires pos < |s| && s[pos] == ONE && forall i | pos < i < |s| :: s[i] != ONE
    ensures LastOne(s) == pos
    decreases |s|
  {
    if pos < |s| - 1 {
      LastOneIs(s[..|s| - 1], pos);
    }
  }

  lemma {:induction false} AfterLastOne(s: seq<int>)
    requires LastOne(s) >= 0
    ensures s[LastOne(s)] == ONE && forall i | LastOne(s) < i < |s| :: s[i] != ONE
    decreases |s|
  {
    if s[|s| - 1] != ONE {
      AfterLastOne(s[..|s| - 1]);
    }
  }

  /** If a string is accepted, replacing any one data character by a character of another value is
      detected. */
  lemma SubstitutionDetected(rev: Table, s: seq<int>, k: nat, ch: int)
    requires IsString(s) && Accepts(rev, s) && LastOne(s) < k < |s| && 0 < ch < 256
    requires CharValue(rev, ch) != -1 && CharValue(rev, ch) != CharValue(rev, s[k])
    ensures IsString(s[k := ch]) && !Accepts(rev, s[k := ch])
  {
    SamePosition(rev, s, k, ch);
    ChangedPart(rev, s[..LastOne(s)], s[LastOne(s) + 1..], k - LastOne(s) - 1, ch);
    assert s[k := ch][..LastOne(s)] == s[..LastOne(s)];
    assert s[k := ch][LastOne(s) + 1..] == s[LastOne(s) + 1..][k - LastOne(s) - 1 := ch];
  }

  lemma SamePosition(rev: Table, s: seq<int>, k: nat, ch: int)
    requires LastOne(s) < k < |s| && LastOne(s) >= 0 && 0 < ch < 256 && CharValue(rev, ch) != -1
    ensures LastOne(s[k := ch]) == LastOne(s)
  {
    AfterLastOne(s);
    LastOneIs(s[k := ch], LastOne(s));
  }

  lemma ChangedPart(rev: Table, hrp: seq<int>, data: seq<int>, k: nat, ch: int)
    requires HrpOk(hrp) && DataOk(rev, data) && ChecksumOk(rev, hrp, data) && k < |data| && 0 < ch < 256
    requires CharValue(rev, ch) != -1 && CharValue(rev, ch) != CharValue(rev, data[k])
    ensures DataOk(rev, data[k := ch]) && !ChecksumOk(rev, hrp, data[k := ch])
  {
    UpdatedValues(rev, data, k, ch);
    ChecksumCatches(One(), HrpValues(hrp), DataValues(rev, data), k, CharValue(rev, ch));
  }

  lemma UpdatedValues(rev: Table, data: seq<int>, k: nat, ch: int)
    requires DataOk(rev, data) && k < |data| && 0 < ch < 256 && CharValue(rev, ch) != -1
    ensures DataOk(rev, data[k := ch]) && DataValues(rev, data[k := ch])
            == DataValues(rev, data)[k := CharValue(rev, ch)]
  {}

  lemma ChecksumCatches(x: Chk, hrp: seq<nat>, values: seq<nat>, k: nat, w: nat)
    requires k < |values| && values[k] < 32 && w < 32 && values[k] != w
    ensures Polymod(x, hrp + values[k := w]) != Polymod(x, hrp + values)
  {
    PolymodConcat(x, hrp, values);
    PolymodConcat(x, hrp, values[k := w]);
    OneValueMatters(Polymod(x, hrp), values, k, w);
  }

  /** bech32_charset_rev, sixteen entries at a time; upper and lower case share their rows. */
  const NONE_ROW: seq<int> := [-1, -1, -1, -1, -1, -1, -1, -1, -1, -1, -1, -1, -1, -1, -1, -1]
  const DIGIT_ROW: seq<int> := [15, -1, 10, 17, 21, 20, 26, 30, 7, 5, -1, -1, -1, -1, -1, -1]
  const LETTER_ROW_1: seq<int> := [-1, 29, -1, 24, 13, 25, 9, 8, 23, -1, 18, 22, 31, 27, 19, -1]
  const LETTER_ROW_2: seq<int> := [1, 0, 3, 16, 11, 28, 12, 14, 6, 4, 2, -1, -1, -1, -1, -1]

  const CHARSET_REV: seq<int> :=
    (NONE_ROW + NONE_ROW + NONE_ROW + DIGIT_ROW) + (LETTER_ROW_1 + LETTER_ROW_2) + (LETTER_ROW_1 + LETTER_ROW_2)

  predicate IsRow(row: seq<int>) { |row| == 16 && forall i | 0 <= i < 16 :: -1 <= row[i] < 32 }

  lemma CharsetRows()
    ensures IsRow(NONE_ROW) && IsRow(DIGIT_ROW) && IsRow(LETTER_ROW_1) && IsRow(LETTER_ROW_2) && DIGIT_ROW[1] == -1
  {}

  lemma CharsetIsTable()
    ensures IsTable(CHARSET_REV)
  {
    CharsetRows();
    RowsMakeTable(NONE_ROW, DIGIT_ROW, LETTER_ROW_1, LETTER_ROW_2);
  }

  lemma RowsMakeTable(a: seq<int>, b: seq<int>, c: seq<int>, d: seq<int>)
    requires IsRow(a) && IsRow(b) && IsRow(c) && IsRow(d) && b[1] == -1
    ensures IsTable((a + a + a + b) + (c + d) + (c + d))
  {
    var top := a + a + a + b;
    assert top[ONE] == b[1];
  }

  /** The table the program has. */
  function CharsetTable(): Table {
    CharsetIsTable();
    CHARSET_REV
  }

  /** The promise of BIP 173 for the program's own table: of a string it accepts, no data character
      can be replaced by another of the 32 without its being noticed. */
  lemma ErrorDetected(s: seq<int>, k: nat, ch: int)
    requires IsString(s) && Accepts(CharsetTable(), s) && LastOne(s) < k < |s| && 0 < ch < 256
    requires CharValue(CharsetTable(), ch) != -1
    requires CharValue(CharsetTable(), ch) != CharValue(CharsetTable(), s[k])
    ensures IsString(s[k := ch]) && !Accepts(CharsetTable(), s[k := ch])
  {
    SubstitutionDetected(CharsetTable(), s, k, ch);
  }
}
