/** What the checksum of bech32 is: the register is a polynomial over GF(32), one step multiplies it by
    x, and every prefix and data part has exactly one checksum.  BIP 173, section "Checksum". */
module Bech32Field {
  import opened BitVectors
  import opened Bech32

  // ---------------------------------------------------------------------------------- GF(32)

  /** A symbol: five bits, the coefficients of 1, a, a^2, a^3 and a^4. */
  type Symbol = s: seq<bool> | |s| == 5 witness Zeros(5)

  /** Multiplication by a, where a^5 = a^3 + 1. */
  function TimesA(v: Symbol): Symbol { [v[4], v[0], v[1], v[2] != v[4], v[3]] }

  /** Multiplication: the sum of a^j v over the bits b_j of b. */
  function Times(b: Bits, v: Symbol): Symbol {
    if b == [] then Zeros(5) else Xor(if b[0] then v else Zeros(5), Times(b[1..], TimesA(v)))
  }

  /** The symbol a number below 32 stands for. */
  function SymbolOf(n: nat): Symbol { BitsOf(n, SYMBOL_SIZE) }

  const SYMBOL_SIZE: nat := 5

  /** g(x) = x^6 + {29}x^5 + {22}x^4 + {20}x^3 + {21}x^2 + {29}x + {18}: the coefficient of x^k. */
  function GeneratorOf(k: nat): nat
    requires k < 6
  {
    [18, 29, 21, 20, 22, 29][k]
  }

  // ------------------------------------------------------------ the register as a polynomial

  /** The coefficient of x^k of a register. */
  function Coefficient(c: Bits, k: nat): Symbol
    requires |c| == 30 && k < 6
  {
    c[5 * k..5 * k + 5]
  }

  /** Multiplication by x modulo g(x): shift up, and subtract the lost coefficient times g. */
  function TimesX(c: Chk, k: nat): Symbol
    requires k < 6
  {
    Xor(if k == 0 then Zeros(5) else Coefficient(c, k - 1), Times(Coefficient(c, 5), SymbolOf(GeneratorOf(k))))
  }

  // ------------------------------------------------------------------- the five constants

  lemma {:induction false} DropBits(n: nat, k: nat, m: nat)
    requires m <= k
    ensures BitsOf(n, k)[m..] == BitsOf(Halved(n, m), k - m)
  {
    if m > 0 {
      DropBits(n / 2, k - 1, m - 1);
      assert BitsOf(n, k)[m..] == BitsOf(n / 2, k - 1)[m - 1..];
    }
  }

  function Halved(n: nat, m: nat): nat { if m == 0 then n else Halved(n / 2, m - 1) }

  lemma HalvedFive(n: nat)
    ensures Halved(n, 5) == n / 32
  {
    assert Halved(n, 5) == Halved(n / 2, 4) == Halved(n / 2 / 2, 3) == Halved(n / 2 / 2 / 2, 2);
    assert Halved(n / 2 / 2 / 2, 2) == Halved(n / 2 / 2 / 2 / 2, 1) == Halved(n / 2 / 2 / 2 / 2 / 2, 0);
  }

  lemma {:induction false} HalvedAdd(n: nat, l: nat, m: nat)
    ensures Halved(n, l + m) == Halved(Halved(n, l), m)
  {
    if l > 0 {
      HalvedAdd(n / 2, l - 1, m);
    }
  }

  /** The number in digit k of n to base 32, with what is above it. */
  function Above(n: nat, k: nat): nat { if k == 0 then n else Above(n, k - 1) / 32 }

  lemma {:induction false} AboveIsHalved(n: nat, k: nat)
    ensures Halved(n, 5 * k) == Above(n, k)
  {
    if k > 0 {
      AboveIsHalved(n, k - 1);
      HalvedAdd(n, 5 * (k - 1), 5);
      HalvedFive(Above(n, k - 1));
    }
  }

  lemma {:induction false} FirstBits(n: nat, k: nat, m: nat)
    requires m <= k
    ensures BitsOf(n, k)[..m] == BitsOf(n, m)
  {
    if m > 0 {
      FirstBits(n / 2, k - 1, m - 1);
      assert BitsOf(n, k)[..m] == [n % 2 == 1] + BitsOf(n / 2, k - 1)[..m - 1];
    }
  }

  /** Coefficient k of a number's bits. */
  lemma {:induction false} CoefficientOfNumber(n: nat, k: nat)
    requires k < 6
    ensures Coefficient(BitsOf(n, 30), k) == SymbolOf(Above(n, k))
  {
    DropBits(n, 30, 5 * k);
    AboveIsHalved(n, k);
    FirstBits(Above(n, k), 30 - 5 * k, 5);
    assert BitsOf(n, 30)[5 * k..5 * k + 5] == BitsOf(n, 30)[5 * k..][..5];
  }

  /** The number a symbol stands for. */
  function NumberOf(v: Symbol): nat { Bit(v[0]) + 2 * (Bit(v[1]) + 2 * (Bit(v[2]) + 2 * (Bit(v[3]) + 2 * Bit(v[4])))) }

  function Bit(b: bool): nat { if b then 1 else 0 }

  lemma SameNumber(u: Symbol, v: Symbol)
    requires NumberOf(u) == NumberOf(v)
    ensures u == v
  {
    assert u[0] == v[0] && u[1] == v[1] && u[2] == v[2] && u[3] == v[3] && u[4] == v[4];
  }

  lemma {:induction false} FiveBits(n: nat, n1: nat, n2: nat, n3: nat, n4: nat)
    requires n1 == n / 2 && n2 == n1 / 2 && n3 == n2 / 2 && n4 == n3 / 2
    ensures BitsOf(n, 5) == [n % 2 == 1, n1 % 2 == 1, n2 % 2 == 1, n3 % 2 == 1, n4 % 2 == 1]
  {
    assert BitsOf(n4, 1) == [n4 % 2 == 1] + BitsOf(n4 / 2, 0);
    assert BitsOf(n3, 2) == [n3 % 2 == 1] + BitsOf(n4, 1);
    assert BitsOf(n2, 3) == [n2 % 2 == 1] + BitsOf(n3, 2);
    assert BitsOf(n1, 4) == [n1 % 2 == 1] + BitsOf(n2, 3);
    assert BitsOf(n, 5) == [n % 2 == 1] + BitsOf(n1, 4);
  }

  lemma FiveHalves(n: nat, n1: nat, n2: nat, n3: nat, n4: nat)
    requires n1 == n / 2 && n2 == n1 / 2 && n3 == n2 / 2 && n4 == n3 / 2
    ensures n % 32 == n % 2 + 2 * (n1 % 2 + 2 * (n2 % 2 + 2 * (n3 % 2 + 2 * (n4 % 2))))
  {
    assert n == 2 * n1 + n % 2 && n1 == 2 * n2 + n1 % 2 && n2 == 2 * n3 + n2 % 2 && n3 == 2 * n4 + n3 % 2;
    assert n4 == 2 * (n4 / 2) + n4 % 2;
    LowDigit(n, n % 2 + 2 * (n1 % 2 + 2 * (n2 % 2 + 2 * (n3 % 2 + 2 * (n4 % 2)))), n4 / 2);
  }

  lemma LowDigit(n: nat, d: nat, q: nat)
    requires d < 32 && n == d + 32 * q
    ensures n % 32 == d
  {}

  lemma {:induction false} NumberOfSymbol(n: nat)
    ensures NumberOf(SymbolOf(n)) == n % 32
  {
    var n1 := n / 2;
    var n2 := n1 / 2;
    var n3 := n2 / 2;
    FiveBits(n, n1, n2, n3, n3 / 2);
    FiveHalves(n, n1, n2, n3, n3 / 2);
  }

  /** Multiplication by a on numbers: double, and past 32 flip the bits 0 and 3. */
  function Doubled(d: nat): nat
    requires d < 32
  {
    if d < 16 then 2 * d else if d / 4 % 2 == 1 then 2 * d - 39 else 2 * d - 23
  }

  lemma NumberOfTimesA(v: Symbol)
    ensures NumberOf(v) < 32 && NumberOf(TimesA(v)) == Doubled(NumberOf(v))
  {
    assert NumberOf(v) / 4 == Bit(v[2]) + 2 * (Bit(v[3]) + 2 * Bit(v[4]));
  }

  /** a^j v. */
  function Power(j: nat, v: Symbol): Symbol { if j == 0 then v else TimesA(Power(j - 1, v)) }

  /** The constants' digits to base 32. */
  function DigitsOf(j: nat): seq<nat>
    requires j < 5
  {
    if j == 0 then [18, 29, 21, 20, 22, 29]
    else if j == 1 then [13, 19, 3, 1, 5, 19]
    else if j == 2 then [26, 15, 6, 2, 10, 15]
    else if j == 3 then [29, 30, 12, 4, 20, 30]
    else [19, 21, 24, 8, 1, 21]
  }

  lemma Digits(n: nat, d: seq<nat>)
    requires |d| == 6 && forall k | 0 <= k < 6 :: d[k] < 32
    requires n == d[0] + 32 * (d[1] + 32 * (d[2] + 32 * (d[3] + 32 * (d[4] + 32 * d[5]))))
    ensures forall k | 0 <= k < 6 :: Above(n, k) % 32 == d[k]
  {
    var n1 := d[1] + 32 * (d[2] + 32 * (d[3] + 32 * (d[4] + 32 * d[5])));
    var n2 := d[2] + 32 * (d[3] + 32 * (d[4] + 32 * d[5]));
    var n3 := d[3] + 32 * (d[4] + 32 * d[5]);
    var n4 := d[4] + 32 * d[5];
    assert n == d[0] + 32 * n1 && n1 == d[1] + 32 * n2 && n2 == d[2] + 32 * n3 && n3 == d[3] + 32 * n4;
    assert Above(n, 0) == n && Above(n, 1) == n1;
    assert Above(n, 2) == n2;
    assert Above(n, 3) == n3;
    assert Above(n, 4) == n4;
    assert Above(n, 5) == d[5];
  }

  /** The digits of each constant are a times those of the one before. */
  lemma NextDigit(j: nat, k: nat)
    requires j < 4 && k < 6
    ensures DigitsOf(j)[k] < 32 && DigitsOf(j + 1)[k] == Doubled(DigitsOf(j)[k])
  {}

  lemma {:induction false} FirstDigit(k: nat)
    requires k < 6
    ensures DigitsOf(0)[k] == GeneratorOf(k) == NumberOf(SymbolOf(GeneratorOf(k)))
  {
    NumberOfSymbol(GeneratorOf(k));
  }

  lemma {:induction false} DigitIsPower(j: nat, k: nat)
    requires j < 5 && k < 6
    ensures DigitsOf(j)[k] == NumberOf(Power(j, SymbolOf(GeneratorOf(k))))
  {
    if j == 0 {
      FirstDigit(k);
    } else {
      DigitIsPower(j - 1, k);
      NextDigit(j - 1, k);
      NumberOfTimesA(Power(j - 1, SymbolOf(GeneratorOf(k))));
    }
  }

  /** The constant for bit j is a^j g, without its leading coefficient. */
  lemma ConstantIsGenerator(j: nat, k: nat)
    requires j < 5 && k < 6
    ensures Coefficient(BitsOf(Generator(j), 30), k) == Power(j, SymbolOf(GeneratorOf(k)))
  {
    CoefficientOfNumber(Generator(j), k);
    Digits(Generator(j), DigitsOf(j));
    NumberOfSymbol(Above(Generator(j), k));
    DigitIsPower(j, k);
    SameNumber(SymbolOf(Above(Generator(j), k)), Power(j, SymbolOf(GeneratorOf(k))));
  }

  // ----------------------------------------------------------- a step multiplies by x

  lemma CoefficientOfXor(a: Bits, b: Bits, k: nat)
    requires |a| == |b| == 30 && k < 6
    ensures Coefficient(Xor(a, b), k) == Xor(Coefficient(a, k), Coefficient(b, k))
  {}

  lemma CoefficientOfMasked(on: bool, j: nat, k: nat)
    requires j < 5 && k < 6
    ensures Coefficient(Masked(on, j, 30), k) == if on then Power(j, SymbolOf(GeneratorOf(k))) else Zeros(5)
  {
    if on {
      ConstantIsGenerator(j, k);
    } else {
      assert Zeros(30)[5 * k..5 * k + 5] == Zeros(5);
    }
  }

  function Part(on: bool, j: nat, v: Symbol): Symbol { if on then Power(j, v) else Zeros(5) }

  lemma {:induction false} PowerShifts(j: nat, v: Symbol)
    ensures Power(j, TimesA(v)) == Power(j + 1, v)
  {
    if j > 0 {
      PowerShifts(j - 1, v);
    }
  }

  lemma {:induction false} TimesFrom(b: Bits, j: nat, v: Symbol)
    requires j <= |b|
    ensures Times(b[j..], Power(j, v)) ==
            if j == |b| then Zeros(5) else Xor(Part(b[j], j, v), Times(b[j + 1..], Power(j + 1, v)))
  {
    if j < |b| {
      assert b[j..][1..] == b[j + 1..];
    }
  }

  lemma XorZero(v: Symbol)
    ensures Xor(v, Zeros(5)) == v
  {}

  /** The product by a symbol, bit by bit. */
  lemma TimesSymbol(b: Symbol, v: Symbol)
    ensures Times(b, v) ==
            Xor(Part(b[0], 0, v), Xor(Part(b[1], 1, v), Xor(Part(b[2], 2, v), Xor(Part(b[3], 3, v), Part(b[4], 4, v)))))
  {
    assert b[0..] == b;
    TimesFrom(b, 0, v);
    TimesFrom(b, 1, v);
    TimesFrom(b, 2, v);
    TimesFrom(b, 3, v);
    TimesFrom(b, 4, v);
    TimesFrom(b, 5, v);
    XorZero(Part(b[4], 4, v));
  }

  lemma Regrouped(p: Symbol, q: Symbol, r: Symbol, s: Symbol, t: Symbol)
    ensures Xor(Xor(Xor(Xor(p, q), r), s), t) == Xor(p, Xor(q, Xor(r, Xor(s, t))))
  {}

  lemma CoefficientOfMixed(b: Symbol, k: nat)
    requires k < 6
    ensures Coefficient(Mixed(b, 30), k) == Times(b, SymbolOf(GeneratorOf(k)))
  {
    var v := SymbolOf(GeneratorOf(k));
    var m0, m1, m2, m3, m4 :=
      Masked(b[0], 0, 30), Masked(b[1], 1, 30), Masked(b[2], 2, 30), Masked(b[3], 3, 30), Masked(b[4], 4, 30);
    CoefficientOfXor(m0, m1, k);
    CoefficientOfXor(Xor(m0, m1), m2, k);
    CoefficientOfXor(Xor(Xor(m0, m1), m2), m3, k);
    CoefficientOfXor(Xor(Xor(Xor(m0, m1), m2), m3), m4, k);
    CoefficientOfMasked(b[0], 0, k);
    CoefficientOfMasked(b[1], 1, k);
    CoefficientOfMasked(b[2], 2, k);
    CoefficientOfMasked(b[3], 3, k);
    CoefficientOfMasked(b[4], 4, k);
    Regrouped(Part(b[0], 0, v), Part(b[1], 1, v), Part(b[2], 2, v), Part(b[3], 3, v), Part(b[4], 4, v));
    TimesSymbol(b, v);
  }

  /** bech32_polymod_step is multiplication by x modulo the generator of BIP 173. */
  lemma StepIsTimesX(c: Chk, k: nat)
    requires k < 6
    ensures Coefficient(Step(c), k) == TimesX(c, k)
  {
    CoefficientOfXor(Zeros(5) + c[..25], Mixed(c[25..], 30), k);
    CoefficientOfMixed(c[25..], k);
    assert c[25..] == Coefficient(c, 5);
    CoefficientOfShift(c, k);
  }

  lemma CoefficientOfShift(c: Bits, k: nat)
    requires |c| == 30 && k < 6
    ensures Coefficient(Zeros(5) + c[..25], k) == if k == 0 then Zeros(5) else Coefficient(c, k - 1)
  {
    var shifted := Zeros(5) + c[..25];
    assert k == 0 ==> shifted[0..5] == Zeros(5);
    if k > 0 {
      assert shifted[5 * k..5 * k + 5] == c[5 * k - 5..5 * k];
    }
  }

  lemma {:induction false} SmallNumber(v: nat, k: nat)
    requires v < 32
    ensures Above(v, k) == if k == 0 then v else 0
  {
    if k > 0 {
      SmallNumber(v, k - 1);
    }
  }

  lemma {:induction false} CoefficientOfSmall(v: nat, k: nat)
    requires v < 32 && k < 6
    ensures Coefficient(BitsOf(v, 30), k) == if k == 0 then SymbolOf(v) else Zeros(5)
  {
    CoefficientOfNumber(v, k);
    SmallNumber(v, k);
    NumberOfSymbol(0);
    SameNumber(SymbolOf(0), Zeros(5));
  }

  /** And absorbing a value adds it to the constant term. */
  lemma AbsorbAddsSymbol(c: Chk, v: nat, k: nat)
    requires v < 32 && k < 6
    ensures Coefficient(Absorb(c, v), k) == if k == 0 then Xor(TimesX(c, 0), SymbolOf(v)) else TimesX(c, k)
  {
    StepIsTimesX(c, k);
    CoefficientOfXor(Step(c), BitsOf(v, 30), k);
    CoefficientOfSmall(v, k);
    XorZero(TimesX(c, k));
  }

  // --------------------------------------------------------------- one checksum, and only one

  /** Up to six symbols side by side, the last one lowest. */
  function Packed(values: seq<nat>): Chk {
    if values == [] then Zeros(30)
    else SymbolOf(values[|values| - 1]) + Packed(values[..|values| - 1])[..25]
  }

  predicate AreSymbols(values: seq<nat>) { forall i | 0 <= i < |values| :: values[i] < 32 }

  lemma {:induction false} PackedTop(values: seq<nat>)
    requires |values| <= 6
    ensures forall i | 5 * |values| <= i < 30 :: !Packed(values)[i]
  {
    if values != [] {
      PackedTop(values[..|values| - 1]);
    }
  }

  function StepTimes(c: Chk, n: nat): Chk { if n == 0 then c else Step(StepTimes(c, n - 1)) }

  /** With nothing in its top symbol, what is added to a register is only shifted by a step. */
  lemma StepOfSum(x: Chk, y: Chk)
    requires forall i | 25 <= i < 30 :: !y[i]
    ensures Step(Xor(x, y)) == Xor(Step(x), Zeros(5) + y[..25])
  {
    assert Xor(x, y)[25..] == x[25..];
    ShiftedSum(x, y, Mixed(x[25..], 30));
  }

  lemma ShiftedSum(x: Bits, y: Bits, m: Bits)
    requires |x| == |y| == |m| == 30
    ensures Xor(Zeros(5) + Xor(x, y)[..25], m) == Xor(Xor(Zeros(5) + x[..25], m), Zeros(5) + y[..25])
  {}

  /** Absorbing up to six symbols adds them to the register as it would be without them. */
  lemma {:induction false} AbsorbedSymbols(p: Chk, values: seq<nat>)
    requires |values| <= 6 && AreSymbols(values)
    ensures Polymod(p, values) == Xor(StepTimes(p, |values|), Packed(values))
  {
    if values == [] {
      AddNothing(p);
    } else {
      var n := |values| - 1;
      var front, v := values[..n], values[n];
      assert values == front + [v];
      AbsorbedSymbols(p, front);
      PolymodAppend(p, front, v);
      PackedTop(front);
      AddSymbol(StepTimes(p, n), Packed(front), v);
    }
  }

  lemma AddNothing(p: Chk)
    ensures Xor(p, Zeros(30)) == p
  {}

  lemma AddSymbol(x: Chk, y: Chk, v: nat)
    requires v < 32 && forall i | 25 <= i < 30 :: !y[i]
    ensures Absorb(Xor(x, y), v) == Xor(Step(x), SymbolOf(v) + y[..25])
  {
    StepOfSum(x, y);
    SmallBits(v);
    SumOfShifted(Step(x), y, SymbolOf(v));
  }

  lemma SumOfShifted(x: Chk, y: Chk, v: Symbol)
    ensures Xor(Xor(x, Zeros(5) + y[..25]), v + Zeros(25)) == Xor(x, v + y[..25])
  {}

  lemma {:induction false} SmallBits(v: nat)
    requires v < 32
    ensures BitsOf(v, 30) == SymbolOf(v) + Zeros(25)
  {
    HalvedFive(v);
    SmallBitsIn(v, 5, 30);
  }

  lemma {:induction false} SmallBitsIn(v: nat, m: nat, k: nat)
    requires m <= k && Halved(v, m) == 0
    ensures BitsOf(v, k) == BitsOf(v, m) + Zeros(k - m)
  {
    DropBits(v, k, m);
    FirstBits(v, k, m);
    ZeroNumber(k - m);
    assert BitsOf(v, k) == BitsOf(v, k)[..m] + BitsOf(v, k)[m..];
  }

  lemma {:induction false} ZeroNumber(k: nat)
    ensures BitsOf(0, k) == Zeros(k)
  {
    if k > 0 {
      ZeroNumber(k - 1);
    }
  }

  /** The symbols a register holds, highest first. */
  function Unpacked(c: Chk): (values: seq<nat>)
    ensures |values| == 6 && forall i | 0 <= i < 6 :: values[i] == NumberAt(c, i)
  {
    seq(6, i requires 0 <= i < 6 => NumberAt(c, i))
  }

  function NumberAt(c: Chk, i: nat): nat
    requires i < 6
  {
    NumberOf(Coefficient(c, 5 - i))
  }

  lemma NumberBelow(v: Symbol)
    ensures NumberOf(v) < 32
  {}

  lemma {:induction false} SymbolOfNumber(v: Symbol)
    ensures NumberOf(v) < 32 && SymbolOf(NumberOf(v)) == v
  {
    NumberBelow(v);
    NumberBack(NumberOf(v));
    SameNumber(SymbolOf(NumberOf(v)), v);
  }

  lemma {:induction false} NumberBack(n: nat)
    requires n < 32
    ensures NumberOf(SymbolOf(n)) == n
  {
    NumberOfSymbol(n);
  }

  /** Packing lays the symbols out in order. */
  lemma {:induction false} PackedAt(values: seq<nat>, k: nat)
    requires k < |values| <= 6
    ensures Coefficient(Packed(values), k) == SymbolOf(values[|values| - 1 - k])
  {
    var front := values[..|values| - 1];
    var c := Packed(values);
    assert c == SymbolOf(values[|values| - 1]) + Packed(front)[..25];
    if k == 0 {
      assert c[0..5] == SymbolOf(values[|values| - 1]);
    } else {
      PackedAt(front, k - 1);
      assert c[5 * k..5 * k + 5] == Packed(front)[5 * (k - 1)..5 * (k - 1) + 5];
    }
  }

  lemma BitOfCoefficient(c: Chk, k: nat, i: nat)
    requires k < 6 && i < 5
    ensures c[5 * k + i] == Coefficient(c, k)[i]
  {}

  lemma SameCoefficients(c: Chk, d: Chk)
    requires forall k | 0 <= k < 6 :: Coefficient(c, k) == Coefficient(d, k)
    ensures c == d
  {
    forall i | 0 <= i < 30 ensures c[i] == d[i] {
      BitOfCoefficient(c, i / 5, i % 5);
      BitOfCoefficient(d, i / 5, i % 5);
    }
  }

  lemma PackedUnpacked(c: Chk)
    ensures AreSymbols(Unpacked(c)) && Packed(Unpacked(c)) == c
  {
    var u := Unpacked(c);
    forall k | 0 <= k < 6 ensures Coefficient(Packed(u), k) == Coefficient(c, k) && u[5 - k] < 32 {
      PackedAt(u, k);
      SymbolOfNumber(Coefficient(c, k));
    }
    forall i | 0 <= i < 6 ensures u[i] < 32 {
      assert u[5 - (5 - i)] < 32;
    }
    SameCoefficients(Packed(u), c);
  }

  /** The checksum that brings a register to 1. */
  function Checksum(p: Chk): seq<nat> { Unpacked(Xor(StepTimes(p, 6), One())) }

  lemma SumTwice(a: Bits, b: Bits, c: Bits)
    requires |a| == |b| == |c| && Xor(a, b) == c
    ensures b == Xor(a, c)
  {
    forall i | 0 <= i < |a| ensures b[i] == Xor(a, c)[i] {
      assert Xor(a, b)[i] == c[i];
    }
  }

  lemma {:induction false} PackedOnce(values: seq<nat>, c: Chk)
    requires |values| == 6 && AreSymbols(values) && Packed(values) == c
    ensures values == Unpacked(c)
  {
    forall i | 0 <= i < 6 ensures values[i] == Unpacked(c)[i] {
      PackedSymbol(values, c, i);
    }
  }

  lemma {:induction false} PackedSymbol(values: seq<nat>, c: Chk, i: nat)
    requires |values| == 6 && AreSymbols(values) && Packed(values) == c && i < 6
    ensures values[i] == NumberOf(Coefficient(c, 5 - i))
  {
    PackedAt(values, 5 - i);
    NumberBack(values[i]);
  }

  /** From any register exactly one sequence of six symbols leads to 1. */
  lemma OneChecksum(p: Chk, values: seq<nat>)
    requires |values| == 6 && AreSymbols(values)
    ensures Polymod(p, values) == One() <==> values == Checksum(p)
  {
    var x := StepTimes(p, 6);
    AbsorbedSymbols(p, values);
    PackedUnpacked(Xor(x, One()));
    if Polymod(p, values) == One() {
      SumTwice(x, Packed(values), One());
      PackedOnce(values, Xor(x, One()));
    } else if values == Checksum(p) {
      SumTwice(x, One(), Packed(values));
      assert false;
    }
  }

  // ------------------------------------------------------------------------- the character set

  /** The data characters of BIP 173, by value. */
  const CHARSET := "qpzry9x8gf2tvdw0s3jn54khce6mua7l"

  /** A row of the table and the characters it has values for. */
  predicate Spells(row: seq<int>, chars: string, charset: string) {
    |charset| == 32 && |row| == |chars| == 16 && forall i | 0 <= i < 16 :: SpellsAt(row, chars, charset, i)
  }

  predicate SpellsAt(row: seq<int>, chars: string, charset: string, i: nat)
    requires |charset| == 32 && |row| == |chars| == 16 && i < 16
  {
    if chars[i] == '-' then row[i] == -1 else 0 <= row[i] < 32 && charset[row[i]] == chars[i]
  }

  lemma DigitSpells(i: nat)
    requires i < 16
    ensures SpellsAt(DIGIT_ROW, "0-23456789------", CHARSET, i)
  {}

  lemma FirstLetterSpells(i: nat)
    requires i < 16
    ensures SpellsAt(LETTER_ROW_1, "-a-cdefgh-jklmn-", CHARSET, i)
  {}

  lemma LastLetterSpells(i: nat)
    requires i < 16
    ensures SpellsAt(LETTER_ROW_2, "pqrstuvwxyz-----", CHARSET, i)
  {}

  lemma RowsSpell()
    ensures Spells(DIGIT_ROW, "0-23456789------", CHARSET)
    ensures Spells(LETTER_ROW_1, "-a-cdefgh-jklmn-", CHARSET)
    ensures Spells(LETTER_ROW_2, "pqrstuvwxyz-----", CHARSET)
  {
    forall i | 0 <= i < 16
      ensures SpellsAt(DIGIT_ROW, "0-23456789------", CHARSET, i)
      ensures SpellsAt(LETTER_ROW_1, "-a-cdefgh-jklmn-", CHARSET, i)
      ensures SpellsAt(LETTER_ROW_2, "pqrstuvwxyz-----", CHARSET, i)
    {
      DigitSpells(i);
      FirstLetterSpells(i);
      LastLetterSpells(i);
    }
  }

  /** Where the character of value v is in the rows. */
  lemma CharInRow(v: nat)
    requires v < 32
    ensures var c := CHARSET[v] as int;
            || (48 <= c < 58 && DIGIT_ROW[c - 48] == v)
            || (97 <= c < 112 && LETTER_ROW_1[c - 96] == v)
            || (112 <= c < 123 && LETTER_ROW_2[c - 112] == v)
  {}

  lemma TableAt(none: seq<int>, a: seq<int>, b: seq<int>, c: seq<int>, i: nat)
    requires |none| == |a| == |b| == |c| == 16 && i < 16
    ensures var t := (none + none + none + a) + (b + c) + (b + c);
            && t[i] == t[16 + i] == t[32 + i] == none[i] && t[48 + i] == a[i]
            && t[64 + i] == t[96 + i] == b[i] && t[80 + i] == t[112 + i] == c[i]
  {
    var top, low := none + none + none + a, b + c;
    assert top[i] == top[16 + i] == top[32 + i] == none[i] && top[48 + i] == a[i];
    assert low[i] == b[i] && low[16 + i] == c[i];
  }

  lemma TableRows(i: nat)
    requires i < 16
    ensures CHARSET_REV[48 + i] == DIGIT_ROW[i]
    ensures CHARSET_REV[64 + i] == CHARSET_REV[96 + i] == LETTER_ROW_1[i]
    ensures CHARSET_REV[80 + i] == CHARSET_REV[112 + i] == LETTER_ROW_2[i]
  {
    TableAt(NONE_ROW, DIGIT_ROW, LETTER_ROW_1, LETTER_ROW_2, i);
  }

  /** The character in place i of a row that begins at `base`. */
  predicate InOrder(chars: string, base: int) {
    |chars| == 16 && forall i | 0 <= i < 16 :: chars[i] == '-' || chars[i] as int == base + i
  }

  predicate IsRowOf(row: seq<int>, chars: string, base: int, charset: string) {
    Spells(row, chars, charset) && InOrder(chars, base)
  }

  lemma RowChar(row: seq<int>, chars: string, base: int, charset: string, i: nat)
    requires IsRowOf(row, chars, base, charset) && i < 16 && row[i] != -1
    ensures 0 <= row[i] < 32 && charset[row[i]] as int == base + i
  {
    assert SpellsAt(row, chars, charset, i);
  }

  /** The values in a table made of such rows are those of its characters. */
  lemma RowValues(a: seq<int>, b: seq<int>, c: seq<int>, ca: string, cb: string, cc: string, charset: string,
                  t: seq<int>, ch: int)
    requires IsRowOf(a, ca, 48, charset) && IsRowOf(b, cb, 96, charset) && IsRowOf(c, cc, 112, charset)
    requires t == (NONE_ROW + NONE_ROW + NONE_ROW + a) + (b + c) + (b + c)
    requires 0 <= ch < 128 && t[ch] != -1
    ensures 0 <= t[ch] < 32 && charset[t[ch]] as int == if 64 <= ch < 96 then ch + 32 else ch
  {
    var i := ch % 16;
    TableAt(NONE_ROW, a, b, c, i);
    assert NONE_ROW[i] == -1;
    assert ch == 16 * (ch / 16) + i && ch / 16 < 8;
    if 48 <= ch < 64 {
      RowChar(a, ca, 48, charset, i);
    } else if ch / 16 == 4 || ch / 16 == 6 {
      RowChar(b, cb, 96, charset, i);
    } else if ch >= 64 {
      RowChar(c, cc, 112, charset, i);
    }
  }

  lemma RowsInOrder()
    ensures InOrder("0-23456789------", 48) && InOrder("-a-cdefgh-jklmn-", 96) && InOrder("pqrstuvwxyz-----", 112)
  {}

  lemma TableValues(ch: int)
    requires 0 <= ch < 128 && CHARSET_REV[ch] != -1
    ensures 0 <= CHARSET_REV[ch] < 32
    ensures CHARSET[CHARSET_REV[ch]] as int == if 64 <= ch < 96 then ch + 32 else ch
  {
    RowsInOrder();
    RowsSpell();
    RowValues(DIGIT_ROW, LETTER_ROW_1, LETTER_ROW_2, "0-23456789------", "-a-cdefgh-jklmn-", "pqrstuvwxyz-----",
              CHARSET, CHARSET_REV, ch);
  }

  /** The table gives each of the 32 characters its place, upper case standing for lower case, and no
      other character a value. */
  ghost predicate IsTableOf(rev: Table, chars: string) {
    && |chars| == 32
    && (forall v | 0 <= v < 32 :: 0 < chars[v] as int < 256 && !IsUpper(chars[v] as int)
                                  && CharValue(rev, chars[v] as int) == v)
    && (forall ch | 0 <= ch < 256 && CharValue(rev, ch) != -1 :: chars[CharValue(rev, ch)] as int == ToLower(ch))
  }

  lemma ValueOfChar(v: nat)
    requires v < 32
    ensures 48 <= CHARSET[v] as int < 123 && CHARSET_REV[CHARSET[v] as int] == v && !IsUpper(CHARSET[v] as int)
  {
    var c := CHARSET[v] as int;
    CharInRow(v);
    if c < 58 {
      TableRows(c - 48);
    } else if c < 112 {
      TableRows(c - 96);
    } else {
      TableRows(c - 112);
    }
  }

  /** Of the places 64 to 95 only those of the letters hold a value. */
  lemma NotACorner(charset: string, v: int, ch: int)
    requires |charset| == 32 && 0 <= v < 32 && charset[v] as int == ch + 32 && 64 <= ch < 96
    requires forall c | c in charset :: '0' <= c <= '9' || 'a' <= c <= 'z'
    ensures ToLower(ch) == ch + 32
  {
    assert charset[v] in charset;
  }

  lemma CharsetIsPlain()
    ensures forall c | c in CHARSET :: '0' <= c <= '9' || 'a' <= c <= 'z'
  {
    forall c | c in CHARSET ensures '0' <= c <= '9' || 'a' <= c <= 'z' {
      var v :| 0 <= v < 32 && CHARSET[v] == c;
      CharInRow(v);
    }
  }

  /** The program's table is that of BIP 173. */
  lemma CharsetIsBip173()
    ensures IsTableOf(CharsetTable(), CHARSET)
  {
    assert CharsetTable() == CHARSET_REV;
    CharsetIsPlain();
    forall v | 0 <= v < 32
      ensures 0 < CHARSET[v] as int < 256 && !IsUpper(CHARSET[v] as int)
              && CharValue(CharsetTable(), CHARSET[v] as int) == v
    {
      ValueOfChar(v);
    }
    forall ch | 0 <= ch < 256 && CharValue(CharsetTable(), ch) != -1
      ensures CHARSET[CharValue(CharsetTable(), ch)] as int == ToLower(ch)
    {
      TableValues(ch);
      if 64 <= ch < 96 {
        NotACorner(CHARSET, CHARSET_REV[ch], ch);
      }
    }
  }

  // ------------------------------------------------------------------------- whole addresses

  predicate NoUpper(s: seq<int>) { forall i | 0 <= i < |s| :: !IsUpper(s[i]) }

  lemma {:induction false} NotMixed(s: seq<int>)
    requires NoUpper(s)
    ensures !HasUpper(s)
  {
    if s != [] {
      NotMixed(s[..|s| - 1]);
    }
  }

  function Address(hrp: seq<int>, data: seq<int>): seq<int> { hrp + [ONE] + data }

  lemma AddressParts(rev: Table, hrp: seq<int>, data: seq<int>)
    requires DataOk(rev, data)
    ensures LastOne(Address(hrp, data)) == |hrp|
    ensures Address(hrp, data)[..|hrp|] == hrp && Address(hrp, data)[|hrp| + 1..] == data
  {
    var s := Address(hrp, data);
    forall i | |hrp| < i < |s| ensures s[i] != ONE {
      assert s[i] == data[i - |hrp| - 1];
    }
    LastOneIs(s, |hrp|);
  }

  /** The register when the checksum is due. */
  function Due(rev: Table, hrp: seq<int>, data: seq<int>): Chk
    requires HrpOk(hrp) && DataOk(rev, data)
  {
    Polymod(One(), HrpValues(hrp) + DataValues(rev, data))
  }

  lemma DataAppend(rev: Table, data: seq<int>, sum: seq<int>)
    requires DataOk(rev, data) && DataOk(rev, sum)
    ensures DataOk(rev, data + sum) && DataValues(rev, data + sum) == DataValues(rev, data) + DataValues(rev, sum)
  {}

  lemma FinalRegister(h: seq<nat>, d: seq<nat>, v: seq<nat>)
    requires |v| == 6 && AreSymbols(v)
    ensures Polymod(One(), h + (d + v)) == One() <==> v == Checksum(Polymod(One(), h + d))
  {
    assert h + (d + v) == (h + d) + v;
    PolymodConcat(One(), h + d, v);
    OneChecksum(Polymod(One(), h + d), v);
  }

  lemma ChecksumOkIff(rev: Table, hrp: seq<int>, data: seq<int>, sum: seq<int>)
    requires HrpOk(hrp) && DataOk(rev, data) && DataOk(rev, sum) && |sum| == 6
    ensures DataOk(rev, data + sum)
    ensures ChecksumOk(rev, hrp, data + sum) <==> DataValues(rev, sum) == Checksum(Due(rev, hrp, data))
  {
    DataAppend(rev, data, sum);
    FinalRegister(HrpValues(hrp), DataValues(rev, data), DataValues(rev, sum));
  }

  /** Values in characters. */
  function Spelled(chars: string, values: seq<nat>): (s: seq<int>)
    requires |chars| == 32 && AreSymbols(values)
    ensures |s| == |values|
  {
    seq(|values|, i requires 0 <= i < |values| => chars[values[i]] as int)
  }

  lemma SpelledOk(rev: Table, chars: string, values: seq<nat>)
    requires IsTableOf(rev, chars) && AreSymbols(values)
    ensures DataOk(rev, Spelled(chars, values)) && NoUpper(Spelled(chars, values))
    ensures DataValues(rev, Spelled(chars, values)) == values
  {}

  lemma SpelledOnce(rev: Table, chars: string, sum: seq<int>)
    requires IsTableOf(rev, chars) && DataOk(rev, sum) && NoUpper(sum)
    ensures AreSymbols(DataValues(rev, sum)) && sum == Spelled(chars, DataValues(rev, sum))
  {
    var s := Spelled(chars, DataValues(rev, sum));
    forall i | 0 <= i < |sum| ensures sum[i] == s[i] {
      assert s[i] == ToLower(sum[i]);
    }
  }

  lemma ChecksumIsSymbols(p: Chk)
    ensures |Checksum(p)| == 6 && AreSymbols(Checksum(p))
  {
    PackedUnpacked(Xor(StepTimes(p, 6), One()));
  }

  /** The checksum a prefix and a data part need, in lower-case characters. */
  function ChecksumChars(rev: Table, chars: string, hrp: seq<int>, data: seq<int>): seq<int>
    requires |chars| == 32 && HrpOk(hrp) && DataOk(rev, data)
  {
    ChecksumIsSymbols(Due(rev, hrp, data));
    Spelled(chars, Checksum(Due(rev, hrp, data)))
  }

  /** A prefix and a data part, in lower case and short enough. */
  predicate Encodable(rev: Table, hrp: seq<int>, data: seq<int>) {
    && hrp != [] && |hrp| + |data| <= 83 && HrpOk(hrp) && DataOk(rev, data)
    && NoUpper(hrp) && NoUpper(data)
  }

  lemma WholeAddress(rev: Table, hrp: seq<int>, data: seq<int>)
    requires hrp != [] && 6 <= |data| && |hrp| + |data| <= 89 && HrpOk(hrp) && DataOk(rev, data)
    requires NoUpper(hrp) && NoUpper(data)
    ensures IsString(Address(hrp, data))
    ensures Accepts(rev, Address(hrp, data)) <==> ChecksumOk(rev, hrp, data)
  {
    AddressParts(rev, hrp, data);
    NotMixed(Address(hrp, data));
  }

  /** For every prefix and data part exactly one of all lower-case checksums is accepted. */
  lemma ExactlyOneChecksum(rev: Table, chars: string, hrp: seq<int>, data: seq<int>, sum: seq<int>)
    requires IsTableOf(rev, chars) && Encodable(rev, hrp, data)
    requires |sum| == 6 && DataOk(rev, sum) && NoUpper(sum)
    ensures IsString(Address(hrp, data + sum))
    ensures Accepts(rev, Address(hrp, data + sum)) <==> sum == ChecksumChars(rev, chars, hrp, data)
  {
    ChecksumOkIff(rev, hrp, data, sum);
    WholeAddress(rev, hrp, data + sum);
    SpelledOnce(rev, chars, sum);
    ChecksumIsSymbols(Due(rev, hrp, data));
    SpelledOk(rev, chars, Checksum(Due(rev, hrp, data)));
  }

  /** So at the program's own table every such prefix and data part has an address that is accepted, and
      only one. */
  lemma EveryAddressHasOneChecksum(hrp: seq<int>, data: seq<int>) returns (sum: seq<int>)
    requires Encodable(CharsetTable(), hrp, data)
    ensures |sum| == 6 && DataOk(CharsetTable(), sum) && NoUpper(sum)
    ensures IsString(Address(hrp, data + sum)) && Accepts(CharsetTable(), Address(hrp, data + sum))
    ensures forall other: seq<int> | |other| == 6 && DataOk(CharsetTable(), other) && NoUpper(other) && other != sum ::
              IsString(Address(hrp, data + other)) && !Accepts(CharsetTable(), Address(hrp, data + other))
  {
    CharsetIsBip173();
    sum := OnlyChecksum(CharsetTable(), CHARSET, hrp, data);
  }

  lemma OnlyChecksum(rev: Table, chars: string, hrp: seq<int>, data: seq<int>) returns (sum: seq<int>)
    requires IsTableOf(rev, chars) && Encodable(rev, hrp, data)
    ensures |sum| == 6 && DataOk(rev, sum) && NoUpper(sum)
    ensures IsString(Address(hrp, data + sum)) && Accepts(rev, Address(hrp, data + sum))
    ensures forall other: seq<int> | |other| == 6 && DataOk(rev, other) && NoUpper(other) && other != sum ::
              IsString(Address(hrp, data + other)) && !Accepts(rev, Address(hrp, data + other))
  {
    ChecksumIsSymbols(Due(rev, hrp, data));
    SpelledOk(rev, chars, Checksum(Due(rev, hrp, data)));
    sum := ChecksumChars(rev, chars, hrp, data);
    ExactlyOneChecksum(rev, chars, hrp, data, sum);
    forall other: seq<int> | |other| == 6 && DataOk(rev, other) && NoUpper(other) && other != sum
      ensures IsString(Address(hrp, data + other)) && !Accepts(rev, Address(hrp, data + other))
    {
      ExactlyOneChecksum(rev, chars, hrp, data, other);
    }
  }

  // ------------------------------------------------------------------ what the register and case are

  /** Where the register starts and ends is the polynomial 1. */
  lemma OneIsOne(k: nat)
    requires k < 6
    ensures Coefficient(One(), k) == if k == 0 then SymbolOf(1) else Zeros(5)
  {
    NumberOfSymbol(1);
    SameNumber(SymbolOf(1), [true, false, false, false, false]);
    if k == 0 {
      assert One()[0..5] == [true, false, false, false, false];
    } else {
      assert One()[5 * k..5 * k + 5] == Zeros(5);
    }
  }

  lemma {:induction false} CaseIsSomewhere(s: seq<int>)
    ensures HasLower(s) <==> exists i :: 0 <= i < |s| && 'a' as int <= s[i] <= 'z' as int
    ensures HasUpper(s) <==> exists i :: 0 <= i < |s| && 'A' as int <= s[i] <= 'Z' as int
  {
    if s != [] {
      var front := s[..|s| - 1];
      CaseIsSomewhere(front);
      assert forall i | 0 <= i < |front| :: front[i] == s[i];
    }
  }
}
