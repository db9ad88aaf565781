/** Numbers as digit sequences, most significant digit first, in any base. */
module Radix {

  function Pow(base: nat, k: nat): nat { if k == 0 then 1 else base * Pow(base, k - 1) }

  predicate IsBase(s: seq<int>, base: nat) { forall i | 0 <= i < |s| :: 0 <= s[i] < base }

  /** Big-endian value of a sequence of digits: words with base 2^32, bytes with base 256. */
  function Value(s: seq<int>, base: nat): int {
    if s == [] then 0 else Value(s[..|s| - 1], base) * base + s[|s| - 1]
  }

  lemma MulMono(a: int, b: int, p: int)
    requires a <= b && p >= 0
    ensures a * p <= b * p
  {}

  lemma {:induction false} PowPositive(base: nat, k: nat)
    requires base > 0
    ensures Pow(base, k) > 0
  {
    if k > 0 {
      PowPositive(base, k - 1);
    }
  }

  lemma {:induction false} PowAdd(base: nat, j: nat, k: nat)
    ensures Pow(base, j + k) == Pow(base, j) * Pow(base, k)
  {
    if j > 0 {
      PowAdd(base, j - 1, k);
      assert base * (Pow(base, j - 1) * Pow(base, k)) == (base * Pow(base, j - 1)) * Pow(base, k);
    }
  }

  lemma {:induction false} ValueBound(s: seq<int>, base: nat)
    requires IsBase(s, base) && base > 0
    ensures 0 <= Value(s, base) < Pow(base, |s|)
  {
    if s != [] {
      ValueBound(s[..|s| - 1], base);
      BoundStep(Value(s[..|s| - 1], base), Pow(base, |s| - 1), base, s[|s| - 1]);
    }
  }

  lemma BoundStep(v: int, p: int, base: int, d: int)
    requires 0 <= v < p && 0 <= d < base
    ensures 0 <= v * base + d < base * p
  {
    MulMono(v + 1, p, base);
    MulMono(0, v, base);
  }

  lemma ShiftUp(d: int, p: int, v: int, base: int)
    ensures (d * p + v) * base == d * (base * p) + v * base
  {}

  /** A sequence split after its first digit. */
  lemma {:induction false} ValueHead(s: seq<int>, base: nat)
    requires |s| > 0
    ensures Value(s, base) == s[0] * Pow(base, |s| - 1) + Value(s[1..], base)
  {
    if |s| == 1 {
      assert s[..0] == [];
    } else {
      var front := s[..|s| - 1];
      ValueHead(front, base);
      assert s[1..][..|s| - 2] == front[1..];
      ShiftUp(s[0], Pow(base, |s| - 2), Value(front[1..], base), base);
    }
  }

  lemma ValueAppend(s: seq<int>, d: int, base: nat)
    ensures Value(s + [d], base) == Value(s, base) * base + d
  {
    assert (s + [d])[..|s|] == s;
  }

  lemma {:induction false} ZeroValue(s: seq<int>, base: nat)
    requires forall i | 0 <= i < |s| :: s[i] == 0
    ensures Value(s, base) == 0
  {
    if s != [] {
      ZeroValue(s[..|s| - 1], base);
    }
  }

  lemma QuotientUnique(x: int, y: int, d: int, e: int, base: int)
    requires 0 <= d < base && 0 <= e < base && x * base + d == y * base + e
    ensures x == y && d == e
  {
    if x < y {
      MulMono(x + 1, y, base);
    } else if y < x {
      MulMono(y + 1, x, base);
    }
  }

  /** Length and value determine the digits. */
  lemma {:induction false} DigitsUnique(a: seq<int>, b: seq<int>, base: nat)
    requires |a| == |b| && IsBase(a, base) && IsBase(b, base) && Value(a, base) == Value(b, base)
    ensures a == b
  {
    if a != [] {
      var n := |a| - 1;
      QuotientUnique(Value(a[..n], base), Value(b[..n], base), a[n], b[n], base);
      DigitsUnique(a[..n], b[..n], base);
      assert a == a[..n] + [a[n]] && b == b[..n] + [b[n]];
    }
  }
}
