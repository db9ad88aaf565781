/** One AES round twice over: the NEON emulation of simd-utils/simd-neon-aes.h and the table-driven
    little-endian round of compat/aes_helper.c, both against the round of FIPS 197, for any S-box. */
module Aes {
  import opened BitVectors

  type Byte = b: Bits | |b| == 8 witness Zeros(8)
  type Word = w: Bits | |w| == 32 witness Zeros(32)
  type SBox = Byte -> Byte

  /** A column of the state, row by row. */
  datatype Column = Column(r0: Byte, r1: Byte, r2: Byte, r3: Byte)

  /** The 128-bit state: byte 4c + r of the register is row r of column c. */
  datatype State = State(c0: Column, c1: Column, c2: Column, c3: Column)

  // ------------------------------------------------------------------- FIPS 197, section 5.1

  /** x^4 + x^3 + x + 1, the reduction polynomial without x^8. */
  const REDUCTION: Byte := [true, true, false, true, true, false, false, false]

  /** Multiplication by x modulo x^8 + x^4 + x^3 + x + 1 (section 4.2.1). */
  function Double(a: Byte): Byte {
    if a[7] then Xor(Shl(a, 1), REDUCTION) else Shl(a, 1)
  }

  function Triple(a: Byte): Byte { Xor(Double(a), a) }

  function SubColumn(sbox: SBox, c: Column): Column { Column(sbox(c.r0), sbox(c.r1), sbox(c.r2), sbox(c.r3)) }

  function SubBytes(sbox: SBox, s: State): State {
    State(SubColumn(sbox, s.c0), SubColumn(sbox, s.c1), SubColumn(sbox, s.c2), SubColumn(sbox, s.c3))
  }

  /** Row r of column c comes from column c + r. */
  function ShiftRows(s: State): State {
    State(Column(s.c0.r0, s.c1.r1, s.c2.r2, s.c3.r3), Column(s.c1.r0, s.c2.r1, s.c3.r2, s.c0.r3),
          Column(s.c2.r0, s.c3.r1, s.c0.r2, s.c1.r3), Column(s.c3.r0, s.c0.r1, s.c1.r2, s.c2.r3))
  }

  function Xor4(a: Byte, b: Byte, c: Byte, d: Byte): Byte { Xor(Xor(Xor(a, b), c), d) }

  function MixByte(a0: Byte, a1: Byte, a2: Byte, a3: Byte): Byte {
    Xor4(Double(a0), Triple(a1), a2, a3)
  }

  /** A column times {03}x^3 + {01}x^2 + {01}x + {02} modulo x^4 + 1. */
  function MixColumn(c: Column): Column {
    Column(MixByte(c.r0, c.r1, c.r2, c.r3), MixByte(c.r1, c.r2, c.r3, c.r0),
           MixByte(c.r2, c.r3, c.r0, c.r1), MixByte(c.r3, c.r0, c.r1, c.r2))
  }

  function MixColumns(s: State): State {
    State(MixColumn(s.c0), MixColumn(s.c1), MixColumn(s.c2), MixColumn(s.c3))
  }

  function XorColumn(a: Column, b: Column): Column {
    Column(Xor(a.r0, b.r0), Xor(a.r1, b.r1), Xor(a.r2, b.r2), Xor(a.r3, b.r3))
  }

  function AddRoundKey(s: State, k: State): State {
    State(XorColumn(s.c0, k.c0), XorColumn(s.c1, k.c1), XorColumn(s.c2, k.c2), XorColumn(s.c3, k.c3))
  }

  function Round(sbox: SBox, s: State, k: State): State {
    AddRoundKey(MixColumns(ShiftRows(SubBytes(sbox, s))), k)
  }

  function LastRound(sbox: SBox, s: State, k: State): State {
    AddRoundKey(ShiftRows(SubBytes(sbox, s)), k)
  }

  // --------------------------------------------------------------------------- 32-bit lanes

  /** A column as a little-endian word, and back. */
  function ToWord(c: Column): Word { c.r0 + c.r1 + c.r2 + c.r3 }

  /** ( w >> 8r ) & 0xFF. */
  function ByteOf(w: Word, r: nat): Byte
    requires r < 4
  {
    w[8 * r..8 * r + 8]
  }

  function ToColumn(w: Word): Column { Column(ByteOf(w, 0), ByteOf(w, 1), ByteOf(w, 2), ByteOf(w, 3)) }

  lemma WordOfColumn(c: Column)
    ensures ToColumn(ToWord(c)) == c
  {
    var w := ToWord(c);
    assert w[0..8] == c.r0 && w[8..16] == c.r1 && w[16..24] == c.r2 && w[24..32] == c.r3;
  }

  // -------------------------------------------------------------------------- NEON emulation

  /** Byte i of a vector register. */
  function ByteAt(s: State, i: nat): Byte
    requires i < 16
  {
    var c := if i < 4 then s.c0 else if i < 8 then s.c1 else if i < 12 then s.c2 else s.c3;
    if i % 4 == 0 then c.r0 else if i % 4 == 1 then c.r1 else if i % 4 == 2 then c.r2 else c.r3
  }

  /** vqtbl1q_u8 with the constant permutation V128_AES_EMU_SR. */
  function Shuffle(t: State): State {
    State(Column(ByteAt(t, 0), ByteAt(t, 5), ByteAt(t, 10), ByteAt(t, 15)),
          Column(ByteAt(t, 4), ByteAt(t, 9), ByteAt(t, 14), ByteAt(t, 3)),
          Column(ByteAt(t, 8), ByteAt(t, 13), ByteAt(t, 2), ByteAt(t, 7)),
          Column(ByteAt(t, 12), ByteAt(t, 1), ByteAt(t, 6), ByteAt(t, 11)))
  }

  /** vshrq_n_s8( x, 7 ) & 0x1b: the sign bit copied to every position, then masked. */
  function MaskedReduction(x: Byte): Byte {
    seq(8, i requires 0 <= i < 8 => x[7] && REDUCTION[i])
  }

  /** v128_aes_emu_xtime, on one byte and on one column. */
  function EmuXtime(x: Byte): Byte { Xor(Shl(x, 1), MaskedReduction(x)) }

  function EmuXtimeColumn(c: Column): Column {
    Column(EmuXtime(c.r0), EmuXtime(c.r1), EmuXtime(c.r2), EmuXtime(c.r3))
  }

  /** vsriq_n_u32( a, b, n ): b shifted right by n, its top n bits taken from a. */
  function Vsri(a: Word, b: Word, n: nat): Word
    requires n <= 32
  {
    b[n..] + a[32 - n..]
  }

  /** V128_AES_EMU_ROR8 on one lane. */
  function Ror8(c: Column): Column { ToColumn(Vsri(Shl(ToWord(c), 24), ToWord(c), 8)) }

  /** V128_AES_EMU_ROR16 on one lane: vrev32q_u16 exchanges the two halves. */
  function Ror16(c: Column): Column { ToColumn(ToWord(c)[16..] + ToWord(c)[..16]) }

  /** The last three lines of v128_aes_emu_enc, on one column. */
  function EmuMix(a: Column, k: Column): Column {
    var d := XorColumn(a, Ror8(a));
    var u := XorColumn(d, Ror16(d));
    XorColumn(XorColumn(EmuXtimeColumn(d), u), XorColumn(a, k))
  }

  /** v128_aes_emu_enc. */
  function EmuEnc(sbox: SBox, v: State, k: State): State {
    var a := Shuffle(SubBytes(sbox, v));
    State(EmuMix(a.c0, k.c0), EmuMix(a.c1, k.c1), EmuMix(a.c2, k.c2), EmuMix(a.c3, k.c3))
  }

  /** v128_aes_emu_enclast. */
  function EmuEncLast(sbox: SBox, v: State, k: State): State {
    AddRoundKey(Shuffle(SubBytes(sbox, v)), k)
  }

  // ------------------------------------------------------------------------- table-driven round

  datatype Words = Words(w0: Word, w1: Word, w2: Word, w3: Word)

  function ToWords(s: State): Words { Words(ToWord(s.c0), ToWord(s.c1), ToWord(s.c2), ToWord(s.c3)) }

  /** The four tables: SubBytes for a byte of row i, and MixColumns for the column it ends in. */
  datatype Tables = Tables(t0: Byte -> Word, t1: Byte -> Word, t2: Byte -> Word, t3: Byte -> Word)

  ghost predicate BuiltFrom(t: Tables, sbox: SBox) {
    forall x: Byte ::
      && t.t0(x) == ToWord(Column(Double(sbox(x)), sbox(x), sbox(x), Triple(sbox(x))))
      && t.t1(x) == ToWord(Column(Triple(sbox(x)), Double(sbox(x)), sbox(x), sbox(x)))
      && t.t2(x) == ToWord(Column(sbox(x), Triple(sbox(x)), Double(sbox(x)), sbox(x)))
      && t.t3(x) == ToWord(Column(sbox(x), sbox(x), Triple(sbox(x)), Double(sbox(x))))
  }

  /** One output word without its key. */
  function TableColumn(t: Tables, x0: Word, x1: Word, x2: Word, x3: Word): Word {
    Xor(Xor(Xor(t.t0(ByteOf(x0, 0)), t.t1(ByteOf(x1, 1))), t.t2(ByteOf(x2, 2))), t.t3(ByteOf(x3, 3)))
  }

  /** AES_ROUND_NOKEY_LE. */
  function TableRoundNoKey(t: Tables, x: Words): Words {
    Words(TableColumn(t, x.w0, x.w1, x.w2, x.w3), TableColumn(t, x.w1, x.w2, x.w3, x.w0),
          TableColumn(t, x.w2, x.w3, x.w0, x.w1), TableColumn(t, x.w3, x.w0, x.w1, x.w2))
  }

  /** AES_ROUND_LE. */
  function TableRound(t: Tables, x: Words, k: Words): Words {
    var y := TableRoundNoKey(t, x);
    Words(Xor(y.w0, k.w0), Xor(y.w1, k.w1), Xor(y.w2, k.w2), Xor(y.w3, k.w3))
  }

  // ------------------------------------------------------------------- the emulation is a round

  /** Bit by bit: every bit moves up, and x^8 = x^4 + x^3 + x + 1. */
  lemma DoubleIsTimesX(a: Byte)
    ensures Double(a) == [a[7], a[0] != a[7], a[1], a[2] != a[7], a[3] != a[7], a[4], a[5], a[6]]
  {}

  lemma XtimeIsDouble(x: Byte)
    ensures EmuXtime(x) == Double(x)
  {}

  lemma Rotations(c: Column)
    ensures Ror8(c) == Column(c.r1, c.r2, c.r3, c.r0)
    ensures Ror16(c) == Column(c.r2, c.r3, c.r0, c.r1)
  {
    var w := ToWord(c);
    var r8, r16 := Column(c.r1, c.r2, c.r3, c.r0), Column(c.r2, c.r3, c.r0, c.r1);
    assert Vsri(Shl(w, 24), w, 8) == ToWord(r8);
    assert w[16..] + w[..16] == ToWord(r16);
    WordOfColumn(r8);
    WordOfColumn(r16);
  }

  /** The factored MixColumns of the emulation, on the four bytes of a column. */
  lemma FactoredMix(a0: Byte, a1: Byte, a2: Byte, a3: Byte, k: Byte)
    ensures Xor(Xor(Double(Xor(a0, a1)), Xor(Xor(a0, a1), Xor(a2, a3))), Xor(a0, k)) ==
            Xor(MixByte(a0, a1, a2, a3), k)
  {
    DoubleIsLinear(a0, a1);
    Regroup(Double(a0), Double(a1), a0, a1, a2, a3, k);
  }

  lemma DoubleIsLinear(a: Byte, b: Byte)
    ensures Double(Xor(a, b)) == Xor(Double(a), Double(b))
  {}

  lemma Regroup(x0: Byte, x1: Byte, a0: Byte, a1: Byte, a2: Byte, a3: Byte, k: Byte)
    ensures Xor(Xor(Xor(x0, x1), Xor(Xor(a0, a1), Xor(a2, a3))), Xor(a0, k)) == Xor(Xor4(x0, Xor(x1, a1), a2, a3), k)
  {}

  lemma EmuMixIsMixColumn(a: Column, k: Column)
    ensures EmuMix(a, k) == XorColumn(MixColumn(a), k)
  {
    Rotations(a);
    var d := XorColumn(a, Ror8(a));
    Rotations(d);
    XtimeIsDouble(d.r0);
    XtimeIsDouble(d.r1);
    XtimeIsDouble(d.r2);
    XtimeIsDouble(d.r3);
    FactoredMix(a.r0, a.r1, a.r2, a.r3, k.r0);
    FactoredMix(a.r1, a.r2, a.r3, a.r0, k.r1);
    FactoredMix(a.r2, a.r3, a.r0, a.r1, k.r2);
    FactoredMix(a.r3, a.r0, a.r1, a.r2, k.r3);
  }

  /** v128_aes_emu_enc and v128_aes_emu_enclast are the rounds of FIPS 197, for every state, key
      and S-box. */
  lemma EmuIsRound(sbox: SBox, v: State, k: State)
    ensures EmuEnc(sbox, v, k) == Round(sbox, v, k)
    ensures EmuEncLast(sbox, v, k) == LastRound(sbox, v, k)
  {
    var a := ShiftRows(SubBytes(sbox, v));
    assert Shuffle(SubBytes(sbox, v)) == a;
    EmuMixIsMixColumn(a.c0, k.c0);
    EmuMixIsMixColumn(a.c1, k.c1);
    EmuMixIsMixColumn(a.c2, k.c2);
    EmuMixIsMixColumn(a.c3, k.c3);
  }

  // -------------------------------------------------------------- the table round is a round

  lemma XorWords(a: Column, b: Column)
    ensures Xor(ToWord(a), ToWord(b)) == ToWord(XorColumn(a, b))
  {}

  lemma RotateXor(a: Byte, b: Byte, c: Byte, d: Byte)
    ensures Xor4(a, b, c, d) == Xor4(b, c, d, a)
  {}

  /** Row by row, for any bytes in the places of the doubles (x) and the triples (y). */
  lemma XorRows(s: Column, x: Column, y: Column)
    ensures XorColumn(XorColumn(XorColumn(Column(x.r0, s.r0, s.r0, y.r0), Column(y.r1, x.r1, s.r1, s.r1)),
                                Column(s.r2, y.r2, x.r2, s.r2)), Column(s.r3, s.r3, y.r3, x.r3))
            == Column(Xor4(x.r0, y.r1, s.r2, s.r3), Xor4(x.r1, y.r2, s.r3, s.r0),
                      Xor4(x.r2, y.r3, s.r0, s.r1), Xor4(x.r3, y.r0, s.r1, s.r2))
  {
    RotateXor(s.r0, x.r1, y.r2, s.r3);
    RotateXor(s.r0, s.r1, x.r2, y.r3);
    RotateXor(s.r1, x.r2, y.r3, s.r0);
    RotateXor(x.r3, y.r0, s.r1, s.r2);
  }

  lemma TableXors(s0: Byte, s1: Byte, s2: Byte, s3: Byte)
    ensures XorColumn(XorColumn(XorColumn(Column(Double(s0), s0, s0, Triple(s0)),
                                          Column(Triple(s1), Double(s1), s1, s1)),
                                Column(s2, Triple(s2), Double(s2), s2)),
                      Column(s3, s3, Triple(s3), Double(s3)))
            == MixColumn(Column(s0, s1, s2, s3))
  {
    XorRows(Column(s0, s1, s2, s3), Column(Double(s0), Double(s1), Double(s2), Double(s3)),
            Column(Triple(s0), Triple(s1), Triple(s2), Triple(s3)));
  }

  /** Four lookups and three xors are MixColumns of SubBytes of four bytes. */
  lemma TableColumnIsMix(t: Tables, sbox: SBox, x0: Word, x1: Word, x2: Word, x3: Word)
    requires BuiltFrom(t, sbox)
    ensures TableColumn(t, x0, x1, x2, x3) ==
            ToWord(MixColumn(Column(sbox(ByteOf(x0, 0)), sbox(ByteOf(x1, 1)),
                                    sbox(ByteOf(x2, 2)), sbox(ByteOf(x3, 3)))))
  {
    var s0, s1, s2, s3 := sbox(ByteOf(x0, 0)), sbox(ByteOf(x1, 1)), sbox(ByteOf(x2, 2)), sbox(ByteOf(x3, 3));
    var a, b := Column(Double(s0), s0, s0, Triple(s0)), Column(Triple(s1), Double(s1), s1, s1);
    var c, d := Column(s2, Triple(s2), Double(s2), s2), Column(s3, s3, Triple(s3), Double(s3));
    XorWords(a, b);
    XorWords(XorColumn(a, b), c);
    XorWords(XorColumn(XorColumn(a, b), c), d);
    TableXors(s0, s1, s2, s3);
  }

  /** AES_ROUND_LE is the round of FIPS 197 for any S-box its tables are built from, and
      AES_ROUND_NOKEY_LE the same without its last step. */
  lemma TableIsRound(t: Tables, sbox: SBox, s: State, k: State)
    requires BuiltFrom(t, sbox)
    ensures TableRound(t, ToWords(s), ToWords(k)) == ToWords(Round(sbox, s, k))
    ensures TableRoundNoKey(t, ToWords(s)) == ToWords(MixColumns(ShiftRows(SubBytes(sbox, s))))
  {
    WordOfColumn(s.c0);
    WordOfColumn(s.c1);
    WordOfColumn(s.c2);
    WordOfColumn(s.c3);
    var x := ToWords(s);
    TableColumnIsMix(t, sbox, x.w0, x.w1, x.w2, x.w3);
    TableColumnIsMix(t, sbox, x.w1, x.w2, x.w3, x.w0);
    TableColumnIsMix(t, sbox, x.w2, x.w3, x.w0, x.w1);
    TableColumnIsMix(t, sbox, x.w3, x.w0, x.w1, x.w2);
    var m := MixColumns(ShiftRows(SubBytes(sbox, s)));
    XorWords(m.c0, k.c0);
    XorWords(m.c1, k.c1);
    XorWords(m.c2, k.c2);
    XorWords(m.c3, k.c3);
  }

  /** The two implementations agree. */
  lemma RoundsAgree(t: Tables, sbox: SBox, s: State, k: State)
    requires BuiltFrom(t, sbox)
    ensures ToWords(EmuEnc(sbox, s, k)) == TableRound(t, ToWords(s), ToWords(k))
  {
    EmuIsRound(sbox, s, k);
    TableIsRound(t, sbox, s, k);
  }

  // ---------------------------------------------------------------- the tiled S-box lookup

  /** vqtbl4q_u8: 64 entries, zero above. */
  function Vqtbl4(table: seq<Byte>, base: nat, index: nat): Byte
    requires base + 64 <= |table|
  {
    if index < 64 then table[base + index] else Zeros(8)
  }

  /** vsubq_u8, one lane: subtraction modulo 256. */
  function Sub64(x: nat): nat
    requires x < 256
  {
    if x < 64 then x + 192 else x - 64
  }

  /** v128_aes_emu_sub_bytes_table, one lane, with vorrq_u8 of the four lookups. */
  function Or(a: Byte, b: Byte): Byte { seq(8, i requires 0 <= i < 8 => a[i] || b[i]) }

  function TiledLookup(table: seq<Byte>, x: nat): Byte
    requires |table| == 256 && x < 256
  {
    var x1 := Sub64(x);
    var x2 := Sub64(x1);
    var x3 := Sub64(x2);
    Or(Or(Vqtbl4(table, 0, x), Vqtbl4(table, 64, x1)), Or(Vqtbl4(table, 128, x2), Vqtbl4(table, 192, x3)))
  }

  /** Indices that go negative wrap out of range, so exactly one of the four lookups hits. */
  lemma TilesCoverTheTable(table: seq<Byte>, x: nat)
    requires |table| == 256 && x < 256
    ensures TiledLookup(table, x) == table[x]
  {}
}
