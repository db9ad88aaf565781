/** Regrouping of bits (convert_bits in util.c), with its 32-bit accumulator.

    A sequence of k-bit symbols is read as a number in base 2^k; together with the number of bits
    this is the same as the bit string. */
module ConvertBits {
  import opened Radix
  import opened Words

  function P2(k: nat): nat { Pow(2, k) }

  function Number(s: seq<int>, bits: nat): int { Value(s, P2(bits)) }

  predicate Symbols(s: seq<int>, bits: nat) { IsBase(s, P2(bits)) }

  /** The leading bits of `input` in groups of outbits, with b < outbits bits and their number left. */
  ghost predicate Regrouped(input: seq<int>, inbits: nat, out: seq<int>, outbits: nat, b: nat, rest: int) {
    && Symbols(out, outbits) && inbits * |input| == outbits * |out| + b && 0 <= rest < P2(b)
    && Number(input, inbits) == Number(out, outbits) * P2(b) + rest
  }

  /** `out` is the bits of `input` followed by fewer than outbits zero bits. */
  ghost predicate Padded(input: seq<int>, inbits: nat, out: seq<int>, outbits: nat) {
    && Symbols(out, outbits) && 0 <= outbits * |out| - inbits * |input| < outbits
    && Number(out, outbits) == Number(input, inbits) * P2(outbits * |out| - inbits * |input|)
  }

  /** `input` is the bits of `out` followed by zero bits, too few for an input symbol or an output
      symbol. */
  ghost predicate Exact(input: seq<int>, inbits: nat, out: seq<int>, outbits: nat) {
    && Symbols(out, outbits)
    && 0 <= inbits * |input| - outbits * |out| < outbits && inbits * |input| - outbits * |out| < inbits
    && Number(input, inbits) == Number(out, outbits) * P2(inbits * |input| - outbits * |out|)
  }

  // ---------------------------------------------------------------------- shifts and remainders

  lemma DivMod(x: int, p: int)
    requires p > 0
    ensures x == x / p * p + x % p && 0 <= x % p < p
  {}

  /** A quotient and remainder are the quotient and the remainder. */
  lemma ModIs(x: int, q: int, r: int, p: int)
    requires 0 <= r < p && x == q * p + r
    ensures x % p == r && x / p == q
  {
    QuotientUnique(x / p, q, x % p, r, p);
  }

  /** x mod qp, split at p. */
  lemma SplitMod(x: int, q: int, p: int)
    requires p > 0 && q > 0
    ensures q * p > 0 && x % (q * p) == x / p % q * p + x % p
  {
    var y := x / p;
    DivMod(x, p);
    DivMod(y, q);
    var r := y % q * p + x % p;
    MulMono(y % q + 1, q, p);
    MulMono(0, y % q, p);
    assert x == (y / q * q + y % q) * p + x % p;
    assert (y / q * q) * p == y / q * (q * p);
    ModIs(x, y / q, r, q * p);
  }

  lemma MulMod(x: int, p: int, c: int)
    requires p > 0 && c > 0
    ensures p * c > 0 && (x * c) % (p * c) == x % p * c
  {
    DivMod(x, p);
    MulMono(0, x % p, c);
    MulMono(x % p + 1, p, c);
    assert x * c == (x / p * p + x % p) * c == x / p * (p * c) + x % p * c;
    ModIs(x * c, x / p, x % p * c, p * c);
  }

  lemma ModMod(x: int, p: int, c: int)
    requires p > 0 && c > 0
    ensures c * p > 0 && x % (c * p) % p == x % p
  {
    SplitMod(x, c, p);
    DivMod(x, p);
    ModIs(x % (c * p), x / p % c, x % p, p);
  }

  lemma PowersUpTo32(k: nat) returns (d: nat)
    requires k <= 32
    ensures P2(k) > 0 && d > 0 && d * P2(k) == WORD
  {
    PowPositive(2, k);
    PowPositive(2, 32 - k);
    PowAdd(2, 32 - k, k);
    WordIsPower();
    d := P2(32 - k);
  }

  lemma WordIsPower()
    ensures Pow(2, 32) == WORD
  {
    assert Pow(2, 8) == 0x100;
    PowAdd(2, 8, 8);
    PowAdd(2, 16, 16);
  }

  /** (val << n) | v on 32 bits: the shifted value has n low zero bits. */
  function ShiftIn(val: int, n: nat, v: int): int { val * P2(n) % WORD + v }

  lemma ShiftCore(val: int, c: int, v: int, p: int, d: int)
    requires p > 0 && c > 0 && d > 0 && 0 <= v < c && d * (p * c) == WORD
    ensures p * c > 0 && (val * c % WORD + v) % (p * c) == val % p * c + v
  {
    var y := val * c % WORD;
    ModMod(val * c, p * c, d);
    MulMod(val, p, c);
    DivMod(y, p * c);
    DivMod(val, p);
    MulMono(val % p + 1, p, c);
    MulMono(0, val % p, c);
    ModIs(y + v, y / (p * c), val % p * c + v, p * c);
  }

  /** Bits dropped off the top of the accumulator do not matter below them. */
  lemma ShiftInLow(val: int, n: nat, v: int, bits: nat)
    requires 0 <= v < P2(n) && bits + n <= 32
    ensures P2(bits) > 0 && P2(bits + n) > 0
    ensures ShiftIn(val, n, v) % P2(bits + n) == val % P2(bits) * P2(n) + v
  {
    var d := PowersUpTo32(bits + n);
    PowPositive(2, bits);
    PowPositive(2, n);
    PowAdd(2, bits, n);
    ShiftCore(val, P2(n), v, P2(bits), d);
  }

  // -------------------------------------------------------------------------- steps of the loop

  /** The accumulator `val` holds, in its low `bits` bits, what is not yet written. */
  ghost predicate Holds(input: seq<int>, inbits: nat, out: seq<int>, outbits: nat, bits: nat, val: int) {
    P2(bits) > 0 && Regrouped(input, inbits, out, outbits, bits, val % P2(bits))
  }

  lemma OneMore(k: int, n: int)
    ensures k * (n + 1) == k * n + k
  {}

  lemma TakeNumbers(n: int, x: int, p: int, r: int, c: int, v: int)
    requires n == x * p + r
    ensures n * c + v == x * (p * c) + (r * c + v)
  {
    assert n * c == x * p * c + r * c;
  }

  lemma PutNumbers(x: int, q: int, p: int, v: int, r: int)
    ensures x * (q * p) + (v * p + r) == (x * q + v) * p + r
  {}

  lemma TakeSymbol(input: seq<int>, inbits: nat, out: seq<int>, outbits: nat, bits: nat, val: int, v: int)
    requires Holds(input, inbits, out, outbits, bits, val) && 0 <= v < P2(inbits) && bits + inbits <= 32
    ensures Holds(input + [v], inbits, out, outbits, bits + inbits, ShiftIn(val, inbits, v))
  {
    ShiftInLow(val, inbits, v, bits);
    ValueAppend(input, v, P2(inbits));
    PowAdd(2, bits, inbits);
    TakeNumbers(Number(input, inbits), Number(out, outbits), P2(bits), val % P2(bits), P2(inbits), v);
    OneMore(inbits, |input|);
    DivMod(ShiftIn(val, inbits, v), P2(bits + inbits));
  }

  lemma PutSymbol(input: seq<int>, inbits: nat, out: seq<int>, outbits: nat, bits: nat, val: int)
    requires Holds(input, inbits, out, outbits, bits, val) && bits >= outbits
    ensures P2(bits - outbits) > 0 && P2(outbits) > 0
    ensures Holds(input, inbits, out + [val / P2(bits - outbits) % P2(outbits)], outbits, bits - outbits, val)
  {
    var p, q := P2(bits - outbits), P2(outbits);
    PowPositive(2, bits - outbits);
    PowPositive(2, outbits);
    PowAdd(2, outbits, bits - outbits);
    SplitMod(val, q, p);
    ValueAppend(out, val / p % q, q);
    PutNumbers(Number(out, outbits), q, p, val / p % q, val % p);
    OneMore(outbits, |out|);
    DivMod(val, p);
    DivMod(val / p, q);
  }

  /** The bits left over, shifted to the top of an output symbol. */
  function Remainder(val: int, outbits: nat, bits: nat): int
    requires bits <= outbits && P2(outbits) > 0
  {
    val * P2(outbits - bits) % WORD % P2(outbits)
  }

  lemma RemainderIs(val: int, outbits: nat, bits: nat)
    requires bits <= outbits <= 32
    ensures P2(outbits) > 0 && P2(bits) > 0 && P2(outbits - bits) > 0
    ensures Remainder(val, outbits, bits) == val % P2(bits) * P2(outbits - bits)
    ensures Remainder(val, outbits, bits) == 0 <==> val % P2(bits) == 0
  {
    var d := PowersUpTo32(outbits);
    PowPositive(2, bits);
    PowPositive(2, outbits - bits);
    PowAdd(2, bits, outbits - bits);
    ModMod(val * P2(outbits - bits), P2(outbits), d);
    MulMod(val, P2(bits), P2(outbits - bits));
    DivMod(val, P2(bits));
    if val % P2(bits) > 0 {
      MulMono(1, val % P2(bits), P2(outbits - bits));
    }
  }

  lemma PadSymbol(input: seq<int>, inbits: nat, out: seq<int>, outbits: nat, bits: nat, val: int)
    requires Holds(input, inbits, out, outbits, bits, val) && 0 < bits < outbits <= 32 && P2(outbits) > 0
    ensures Padded(input, inbits, out + [Remainder(val, outbits, bits)], outbits)
  {
    RemainderIs(val, outbits, bits);
    PowAdd(2, bits, outbits - bits);
    var v, c := Remainder(val, outbits, bits), P2(outbits - bits);
    DivMod(val * c % WORD, P2(outbits));
    ValueAppend(out, v, P2(outbits));
    TakeNumbers(Number(input, inbits), Number(out, outbits), P2(bits), val % P2(bits), c, 0);
    OneMore(outbits, |out|);
  }

  /** convert_bits, appending to an empty output. */
  method Convert(outbits: nat, input: seq<int>, inbits: nat, pad: bool) returns (ok: bool, out: seq<int>)
    requires 0 < inbits && 0 < outbits && inbits + outbits <= 32 && Symbols(input, inbits)
    ensures pad ==> ok && Padded(input, inbits, out, outbits)
    ensures !pad ==> exists rest: int :: Regrouped(input, inbits, out, outbits, inbits * |input| % outbits, rest)
    ensures !pad ==> (ok <==> Exact(input, inbits, out, outbits))
  {
    var val, bits := 0, 0;
    out := [];
    var i := 0;
    while i < |input|
      invariant 0 <= i <= |input| && 0 <= bits < outbits
      invariant Holds(input[..i], inbits, out, outbits, bits, val)
    {
      TakeSymbol(input[..i], inbits, out, outbits, bits, val, input[i]);
      assert input[..i + 1] == input[..i] + [input[i]];
      val := ShiftIn(val, inbits, input[i]);
      bits := bits + inbits;
      i := i + 1;
      while bits >= outbits
        invariant 0 <= bits && Holds(input[..i], inbits, out, outbits, bits, val)
      {
        PutSymbol(input[..i], inbits, out, outbits, bits, val);
        bits := bits - outbits;
        out := out + [val / P2(bits) % P2(outbits)];
      }
    }
    assert input[..i] == input;
    RemainderIs(val, outbits, bits);
    if pad {
      ok := true;
      if bits > 0 {
        PadSymbol(input, inbits, out, outbits, bits, val);
        out := out + [Remainder(val, outbits, bits)];
      }
    } else {
      LeftOver(inbits * |input|, outbits, |out|, bits);
      ok := Remainder(val, outbits, bits) == 0 && bits < inbits;
    }
  }

  lemma LeftOver(total: int, outbits: int, n: int, bits: int)
    requires total == outbits * n + bits && 0 <= bits < outbits
    ensures total % outbits == bits
  {
    ModIs(total, n, bits, outbits);
  }

  // ------------------------------------------------------------------------------- round trips

  /** Regrouping what padding produced gives the input back and is accepted, when the symbols are no
      wider than the input's. */
  lemma DecodeOfEncode(bytes: seq<int>, a: nat, syms: seq<int>, b: nat, back: seq<int>, rest: int)
    requires 0 < b <= a && Symbols(bytes, a) && Padded(bytes, a, syms, b)
    requires Regrouped(syms, b, back, a, b * |syms| % a, rest)
    ensures back == bytes && Exact(syms, b, back, a)
  {
    var p := b * |syms| - a * |bytes|;
    LeftOver(b * |syms|, a, |bytes|, p);
    QuotientUnique(|back|, |bytes|, 0, 0, a);
    PowPositive(2, p);
    QuotientUnique(Number(back, a), Number(bytes, a), rest, 0, P2(p));
    DigitsUnique(back, bytes, P2(a));
  }

  /** What is accepted without padding encodes to the input again. */
  lemma EncodeOfDecode(syms: seq<int>, b: nat, out: seq<int>, a: nat, again: seq<int>)
    requires 0 < b && Symbols(syms, b) && Exact(syms, b, out, a) && Padded(out, a, again, b)
    ensures again == syms
  {
    var p, q := b * |again| - a * |out|, b * |syms| - a * |out|;
    QuotientUnique(|syms|, |again|, p, q, b);
    DigitsUnique(again, syms, P2(b));
  }

  /** A refusal is right: if the loop's output does not match exactly, nothing does. */
  lemma NoOtherOutput(syms: seq<int>, b: nat, out: seq<int>, a: nat, rest: int, o: seq<int>)
    requires 0 < a && Regrouped(syms, b, out, a, b * |syms| % a, rest) && Exact(syms, b, o, a)
    ensures o == out
  {
    var q := b * |syms| - a * |o|;
    LeftOver(b * |syms|, a, |o|, q);
    QuotientUnique(|out|, |o|, 0, 0, a);
    PowPositive(2, q);
    QuotientUnique(Number(out, a), Number(o, a), rest, 0, P2(q));
    DigitsUnique(out, o, P2(a));
  }

  /** Bytes to 5-bit symbols and back, as for a segwit address. */
  method BytesRoundTrip(bytes: seq<int>) returns (ok: bool, back: seq<int>)
    requires Symbols(bytes, 8)
    ensures ok && back == bytes
  {
    var _, syms := Convert(5, bytes, 8, true);
    ok, back := Convert(8, syms, 5, false);
    ghost var rest :| Regrouped(syms, 5, back, 8, 5 * |syms| % 8, rest);
    DecodeOfEncode(bytes, 8, syms, 5, back, rest);
  }

  /** 5-bit symbols to bytes and back: whatever is accepted was the encoding of its output. */
  method SymbolsRoundTrip(syms: seq<int>) returns (ok: bool, again: seq<int>)
    requires Symbols(syms, 5)
    ensures ok ==> again == syms
  {
    var out;
    ok, out := Convert(8, syms, 5, false);
    var _, padded := Convert(5, out, 8, true);
    again := padded;
    if ok {
      EncodeOfDecode(syms, 5, out, 8, again);
    }
  }
}
