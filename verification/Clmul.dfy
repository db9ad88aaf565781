/** Carryless multiplication for cores without PMULL64 (simd-utils/simd-neon-clmul.h): a 64 x 64
    product assembled from byte products, against multiplication in GF(2)[x].

    A vector register is the sequence of its bits, least significant first, so that bit i is the
    coefficient of x^i and byte k is bits 8k..8k+7. */
module Clmul {
  import opened BitVectors

  // ------------------------------------------------------------- multiplication in GF(2)[x]

  /** f(0) + ... + f(n - 1) in GF(2). */
  ghost function XorSum(f: int -> bool, n: nat): bool {
    if n == 0 then false else XorSum(f, n - 1) != f(n - 1)
  }

  /** Bits outside the sequence are zero. */
  predicate At(a: Bits, i: int) { 0 <= i < |a| && a[i] }

  /** The coefficient of x^e in the product of a and b: the sum of b_v a_(e - v). */
  ghost function Coefficient(a: Bits, b: Bits, e: int): bool {
    XorSum(v => At(b, v) && At(a, e - v), |b|)
  }

  /** The product of two polynomials, reduced modulo x^n. */
  ghost function Product(a: Bits, b: Bits, n: nat): (p: Bits)
    ensures |p| == n
  {
    seq(n, e => Coefficient(a, b, e))
  }

  // ------------------------------------------------------------------------- NEON operations

  function Byte(v: Bits, k: nat): (b: Bits)
    requires 8 * k + 8 <= |v|
    ensures |b| == 8
  {
    v[8 * k..8 * k + 8]
  }

  /** vmull_p8( a, b_dup ), where every byte of b_dup is b: eight 16-bit byte products. */
  ghost function VmullP8(a: Bits, b: Bits): (p: seq<Bits>)
    requires |a| == 64 && |b| == 8
    ensures |p| == 8 && forall k | 0 <= k < 8 :: p[k] == Product(Byte(a, k), b, 16)
  {
    seq(8, k requires 0 <= k < 8 => Product(Byte(a, k), b, 16))
  }

  /** vmovn_u16: the low byte of each lane. */
  function VmovnU16(p: seq<Bits>): (r: Bits)
    requires |p| == 8 && forall k | 0 <= k < 8 :: |p[k]| == 16
    ensures |r| == 64 && forall i | 0 <= i < 64 :: r[i] == p[i / 8][i % 8]
  {
    seq(64, i requires 0 <= i < 64 => p[i / 8][i % 8])
  }

  /** vshrn_n_u16( p, 8 ): the high byte of each lane. */
  function VshrnU16By8(p: seq<Bits>): (r: Bits)
    requires |p| == 8 && forall k | 0 <= k < 8 :: |p[k]| == 16
    ensures |r| == 64 && forall i | 0 <= i < 64 :: r[i] == p[i / 8][8 + i % 8]
  {
    seq(64, i requires 0 <= i < 64 => p[i / 8][8 + i % 8])
  }

  /** vextq_u8( x, y, n ): bytes n..15 of x, then bytes 0..n-1 of y. */
  function VextqU8(x: Bits, y: Bits, n: nat): (r: Bits)
    requires |x| == |y| == 128 && n <= 16
    ensures |r| == 128
  {
    x[8 * n..] + y[..8 * n]
  }

  // ------------------------------------------------------------------------- the emulation

  /** v128_pmull_emu_col. */
  ghost function EmuCol(a: Bits, b: Bits): (r: Bits)
    requires |a| == 64 && |b| == 8
    ensures |r| == 128
  {
    var p := VmullP8(a, b);
    var lo := VmovnU16(p) + Zeros(64);
    var hi := VshrnU16By8(p) + Zeros(64);
    Xor(lo, VextqU8(Zeros(128), hi, 15))
  }

  /** V128_PMULL_EMU_COL( a, b, j ); column 0 is not shifted. */
  ghost function Column(a: Bits, b: Bits, j: nat): (r: Bits)
    requires |a| == |b| == 64 && j < 8
    ensures |r| == 128
  {
    var c := EmuCol(a, Byte(b, j));
    if j == 0 then c else VextqU8(Zeros(128), c, 16 - j)
  }

  /** v128_pmull_emu: a balanced tree of xors. */
  ghost function Emu(a: Bits, b: Bits): (r: Bits)
    requires |a| == |b| == 64
    ensures |r| == 128
  {
    Xor(Xor(Xor(Column(a, b, 0), Column(a, b, 1)), Xor(Column(a, b, 2), Column(a, b, 3))),
        Xor(Xor(Column(a, b, 4), Column(a, b, 5)), Xor(Column(a, b, 6), Column(a, b, 7))))
  }

  // --------------------------------------------------------------------------- sums in GF(2)

  lemma {:induction false} XorSumSame(f: int -> bool, g: int -> bool, n: nat)
    requires forall i | 0 <= i < n :: f(i) == g(i)
    ensures XorSum(f, n) == XorSum(g, n)
  {
    if n > 0 {
      XorSumSame(f, g, n - 1);
    }
  }

  lemma {:induction false} XorSumAdds(f: int -> bool, g: int -> bool, h: int -> bool, n: nat)
    requires forall i | 0 <= i < n :: h(i) == (f(i) != g(i))
    ensures XorSum(h, n) == (XorSum(f, n) != XorSum(g, n))
  {
    if n > 0 {
      XorSumAdds(f, g, h, n - 1);
    }
  }

  lemma {:induction false} XorSumZero(f: int -> bool, n: nat)
    requires forall i | 0 <= i < n :: !f(i)
    ensures !XorSum(f, n)
  {
    if n > 0 {
      XorSumZero(f, n - 1);
    }
  }

  lemma {:induction false} XorSumSplit(f: int -> bool, m: nat, n: nat)
    ensures XorSum(f, m + n) == (XorSum(f, m) != XorSum(i => f(m + i), n))
  {
    if n > 0 {
      XorSumSplit(f, m, n - 1);
    }
  }

  // ------------------------------------------------------------------- the emulation is exact

  predicate Lanes(p: seq<Bits>) { |p| == 8 && forall k | 0 <= k < 8 :: |p[k]| == 16 }

  lemma LowAt(p: seq<Bits>, q: nat, m: nat)
    requires Lanes(p) && q < 16 && m < 8
    ensures (VmovnU16(p) + Zeros(64))[8 * q + m] == (q < 8 && p[q][m])
  {
    var f := 8 * q + m;
    assert f / 8 == q && f % 8 == m;
  }

  lemma HighAt(p: seq<Bits>, q: nat, m: nat)
    requires Lanes(p) && q < 16 && m < 8
    ensures VextqU8(Zeros(128), VshrnU16By8(p) + Zeros(64), 15)[8 * q + m] == (1 <= q <= 8 && p[q - 1][8 + m])
  {
    var f := 8 * q + m;
    var hi := VshrnU16By8(p) + Zeros(64);
    var shifted := VextqU8(Zeros(128), hi, 15);
    if q == 0 {
      assert shifted[f] == Zeros(128)[120 + f];
    } else {
      assert shifted[f] == hi[f - 8];
      assert (f - 8) / 8 == q - 1 && (f - 8) % 8 == m;
    }
  }

  /** Where the bits of a column come from: the low byte of lane q and the high byte of the lane
      below it. */
  lemma PackedBit(a: Bits, b: Bits, q: nat, m: nat)
    requires |a| == 64 && |b| == 8 && q < 16 && m < 8
    ensures var p := VmullP8(a, b);
            EmuCol(a, b)[8 * q + m] == ((q < 8 && p[q][m]) != (1 <= q <= 8 && p[q - 1][8 + m]))
  {
    LowAt(VmullP8(a, b), q, m);
    HighAt(VmullP8(a, b), q, m);
  }

  /** Bit 8q + m - v is in byte q or in the byte before it. */
  lemma BitInByte(a: Bits, q: nat, m: nat, v: nat)
    requires |a| == 64 && q < 16 && m < 8 && v < 8
    ensures At(a, 8 * q + m - v) ==
            ((q < 8 && At(Byte(a, q), m - v)) != (1 <= q <= 8 && At(Byte(a, q - 1), 8 + m - v)))
  {
    if v <= m {
      assert q < 8 ==> Byte(a, q)[m - v] == a[8 * q + (m - v)];
    } else {
      assert 1 <= q <= 8 ==> Byte(a, q - 1)[8 + m - v] == a[8 * (q - 1) + (8 + m - v)];
    }
  }

  /** A coefficient splits over the two bytes of a that reach it. */
  lemma CoefficientSplits(a: Bits, b: Bits, q: nat, m: nat)
    requires |a| == 64 && |b| == 8 && q < 16 && m < 8
    ensures Coefficient(a, b, 8 * q + m) ==
            ((q < 8 && Coefficient(Byte(a, q), b, m)) != (1 <= q <= 8 && Coefficient(Byte(a, q - 1), b, 8 + m)))
  {
    var low := (v: int) => q < 8 && At(b, v) && At(Byte(a, q), m - v);
    var high := (v: int) => 1 <= q <= 8 && At(b, v) && At(Byte(a, q - 1), 8 + m - v);
    var both := (v: int) => At(b, v) && At(a, 8 * q + m - v);
    forall v | 0 <= v < 8 ensures both(v) == (low(v) != high(v)) {
      BitInByte(a, q, m, v);
    }
    XorSumAdds(low, high, both, 8);
    XorSumSame(both, v => At(b, v) && At(a, 8 * q + m - v), 8);
    if q < 8 {
      XorSumSame(low, v => At(b, v) && At(Byte(a, q), m - v), 8);
    } else {
      XorSumZero(low, 8);
    }
    if 1 <= q <= 8 {
      XorSumSame(high, v => At(b, v) && At(Byte(a, q - 1), 8 + m - v), 8);
    } else {
      XorSumZero(high, 8);
    }
  }

  lemma ColumnBit(a: Bits, b: Bits, q: nat, m: nat)
    requires |a| == 64 && |b| == 8 && q < 16 && m < 8
    ensures EmuCol(a, b)[8 * q + m] == Coefficient(a, b, 8 * q + m)
  {
    PackedBit(a, b, q, m);
    CoefficientSplits(a, b, q, m);
    var p := VmullP8(a, b);
    assert q < 8 ==> p[q] == Product(Byte(a, q), b, 16) && p[q][m] == Coefficient(Byte(a, q), b, m);
    assert 1 <= q <= 8 ==> p[q - 1] == Product(Byte(a, q - 1), b, 16)
                           && p[q - 1][8 + m] == Coefficient(Byte(a, q - 1), b, 8 + m);
  }

  /** One column is the exact product of a by one byte of b: the two bytes of every 16-bit lane
      are packed without loss or overlap. */
  lemma ColumnIsExact(a: Bits, b: Bits)
    requires |a| == 64 && |b| == 8
    ensures EmuCol(a, b) == Product(a, b, 128)
  {
    forall f | 0 <= f < 128 ensures EmuCol(a, b)[f] == Product(a, b, 128)[f] {
      ColumnBit(a, b, f / 8, f % 8);
    }
  }

  /** A column shifted by its byte number: the bits that leave the top are all zero. */
  lemma ShiftedColumnBit(a: Bits, b: Bits, j: nat, e: nat)
    requires |a| == |b| == 64 && j < 8 && e < 128
    ensures Column(a, b, j)[e] == Coefficient(a, Byte(b, j), e - 8 * j)
  {
    ColumnIsExact(a, Byte(b, j));
    if e < 8 * j {
      XorSumZero(v => At(Byte(b, j), v) && At(a, e - 8 * j - v), 8);
    }
  }

  lemma CoefficientOfPart(a: Bits, b: Bits, m: nat, n: nat, e: int)
    requires m + n <= |b|
    ensures var f := (v: int) => At(b, v) && At(a, e - v);
            XorSum(f, m + n) == (XorSum(f, m) != Coefficient(a, b[m..m + n], e - m))
  {
    var f := (v: int) => At(b, v) && At(a, e - v);
    XorSumSplit(f, m, n);
    XorSumSame(i => f(m + i), v => At(b[m..m + n], v) && At(a, e - m - v), n);
  }

  /** The product by the first n bytes of b, one byte at a time. */
  lemma ProductByBytes(a: Bits, b: Bits, j: nat, e: int)
    requires |a| == |b| == 64 && j < 8
    ensures var f := (v: int) => At(b, v) && At(a, e - v);
            XorSum(f, 8 * j + 8) == (XorSum(f, 8 * j) != Coefficient(a, Byte(b, j), e - 8 * j))
  {
    CoefficientOfPart(a, b, 8 * j, 8, e);
  }

  /** v128_pmull_emu is the 128-bit product in GF(2)[x], for all 64-bit operands. */
  lemma EmuIsProduct(a: Bits, b: Bits)
    requires |a| == |b| == 64
    ensures Emu(a, b) == Product(a, b, 128)
  {
    forall e | 0 <= e < 128 ensures Emu(a, b)[e] == Product(a, b, 128)[e] {
      EmuBit(a, b, e);
    }
  }

  lemma EmuBit(a: Bits, b: Bits, e: nat)
    requires |a| == |b| == 64 && e < 128
    ensures Emu(a, b)[e] == Coefficient(a, b, e)
  {
    forall j | 0 <= j < 8
      ensures var f := (v: int) => At(b, v) && At(a, e - v);
              XorSum(f, 8 * j + 8) == (XorSum(f, 8 * j) != Column(a, b, j)[e])
    {
      ProductByBytes(a, b, j, e);
      ShiftedColumnBit(a, b, j, e);
    }
  }

  /** Nothing of the product lies beyond bit 126, so reducing modulo x^128 loses nothing. */
  lemma ProductFits(a: Bits, b: Bits, e: int)
    requires |a| == |b| == 64 && 127 <= e
    ensures !Coefficient(a, b, e)
  {
    XorSumZero(v => At(b, v) && At(a, e - v), 64);
  }

  // ---------------------------------------------------------------------- small multipliers

  /** V128_PMULL_EMU_SHL_BITS( q, n ): both 64-bit lanes shifted left, and the bits that left the
      low lane moved into the high one. */
  function ShlBits(q: Bits, n: nat): (r: Bits)
    requires |q| == 128 && 1 <= n < 64
    ensures |r| == 128
  {
    Xor(Shl(q[..64], n) + Shl(q[64..], n), Zeros(64) + Shr(q[..64], 64 - n))
  }

  /** The product of q by the low n bits of c, reduced modulo x^128. */
  ghost predicate IsPartial(r: Bits, q: Bits, c: Bits, n: nat) {
    && |r| == 128
    && forall e | 0 <= e < 128 :: r[e] == XorSum(v => At(c, v) && At(q, e - v), n)
  }

  lemma ShlBitsIsShift(q: Bits, n: nat)
    requires |q| == 128 && 1 <= n < 64
    ensures forall e | 0 <= e < 128 :: ShlBits(q, n)[e] == At(q, e - n)
  {
    var lanes := Shl(q[..64], n) + Shl(q[64..], n);
    var carry := Zeros(64) + Shr(q[..64], 64 - n);
    forall e | 0 <= e < 128 ensures ShlBits(q, n)[e] == At(q, e - n) {
      if e < n || n <= e < 64 {
        assert !carry[e];
      } else if e < 64 + n {
        assert !lanes[e] && carry[e] == q[..64][64 - n + (e - 64)];
      } else {
        assert !carry[e] && lanes[e] == q[64..][e - 64 - n];
      }
    }
  }

  /** One line of v128_pmull_emu_small. */
  method AddShifted(r: Bits, q: Bits, c: Bits, n: nat) returns (r': Bits)
    requires |q| == 128 && |c| == 32 && 1 <= n < 5 && IsPartial(r, q, c, n)
    ensures IsPartial(r', q, c, n + 1)
  {
    ShlBitsIsShift(q, n);
    r' := r;
    if c[n] {
      r' := Xor(r', ShlBits(q, n));
    }
  }

  /** v128_pmull_emu_small: the product by the low five bits of c. */
  method EmuSmall(q: Bits, c: Bits) returns (r: Bits)
    requires |q| == 128 && |c| == 32
    ensures r == Product(q, c[..5], 128)
  {
    r := if c[0] then q else Zeros(128);
    assert IsPartial(r, q, c, 1);
    r := AddShifted(r, q, c, 1);
    r := AddShifted(r, q, c, 2);
    r := AddShifted(r, q, c, 3);
    r := AddShifted(r, q, c, 4);
    forall e | 0 <= e < 128 ensures r[e] == Coefficient(q, c[..5], e) {
      XorSumSame(v => At(c, v) && At(q, e - v), v => At(c[..5], v) && At(q, e - v), 5);
    }
  }

  lemma DropZeroBits(q: Bits, c: Bits, e: int)
    requires |c| == 32 && forall i | 5 <= i < 32 :: !c[i]
    ensures Coefficient(q, c, e) == Coefficient(q, c[..5], e)
  {
    var f := (v: int) => At(c, v) && At(q, e - v);
    XorSumSplit(f, 5, 27);
    XorSumZero(i => f(5 + i), 27);
    XorSumSame(f, v => At(c[..5], v) && At(q, e - v), 5);
  }

  lemma {:induction false} ProductByOne(q: Bits, c: Bits, e: nat, n: nat)
    requires |q| == 128 && q[0] && (forall i | 1 <= i < 128 :: !q[i])
    ensures XorSum(v => At(c, v) && At(q, e - v), n) == (e < n && At(c, e))
  {
    if n > 0 {
      ProductByOne(q, c, e, n - 1);
    }
  }

  /** Using only five bits of c gives the product by c, for every q, exactly when c is below 32. */
  lemma SmallIsProductIffBelow32(c: Bits)
    requires |c| == 32
    ensures (forall q: Bits | |q| == 128 :: Product(q, c[..5], 128) == Product(q, c, 128))
            <==> (forall i | 5 <= i < 32 :: !c[i])
  {
    if forall i | 5 <= i < 32 :: !c[i] {
      forall q: Bits | |q| == 128 ensures Product(q, c[..5], 128) == Product(q, c, 128) {
        forall e | 0 <= e < 128 ensures Coefficient(q, c, e) == Coefficient(q, c[..5], e) {
          DropZeroBits(q, c, e);
        }
      }
    } else {
      var e :| 5 <= e < 32 && c[e];
      var one := [true] + Zeros(127);
      ProductByOne(one, c, e, 32);
      ProductByOne(one, c[..5], e, 5);
      assert Product(one, c[..5], 128)[e] != Product(one, c, 128)[e];
    }
  }

  /** With only the low half populated, nothing is lost off the top. */
  lemma SmallProductFits(q: Bits, c: Bits, e: int)
    requires |q| == 128 && (forall i | 64 <= i < 128 :: !q[i]) && |c| == 5 && 68 <= e
    ensures !Coefficient(q, c, e)
  {
    XorSumZero(v => At(c, v) && At(q, e - v), 5);
  }
}
