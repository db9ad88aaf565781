/** The comparison of a 256-bit hash with a 256-bit target (util.c), in the three forms the miner
    has, against the comparison of integers. */
module Target {
  import opened Words

  /** A hash or target as the miner holds it: eight 32-bit words, least significant first. */
  predicate IsHash(w: seq<int>) {
    |w| == 8 && forall i | 0 <= i < 8 :: 0 <= w[i] < WORD
  }

  type Hash = w: seq<int> | IsHash(w) witness [0, 0, 0, 0, 0, 0, 0, 0]

  /** The 256-bit integer the words stand for. */
  function Value(w: seq<int>): int
    requires |w| == 8
  {
    w[0] + w[1] * 0x1_0000_0000 + w[2] * 0x1_0000_0000_0000_0000 +
    w[3] * 0x1_0000_0000_0000_0000_0000_0000 +
    w[4] * 0x1_0000_0000_0000_0000_0000_0000_0000_0000 +
    w[5] * 0x1_0000_0000_0000_0000_0000_0000_0000_0000_0000_0000 +
    w[6] * 0x1_0000_0000_0000_0000_0000_0000_0000_0000_0000_0000_0000_0000 +
    w[7] * 0x1_0000_0000_0000_0000_0000_0000_0000_0000_0000_0000_0000_0000_0000_0000
  }

  /** "hash <= target". */
  predicate Meets(hash: seq<int>, target: seq<int>)
    requires |hash| == |target| == 8
  {
    Value(hash) <= Value(target)
  }

  /** Words read through a uint64_t pointer on a little-endian machine. */
  function Limb64(w: seq<int>, i: nat): int
    requires |w| == 8 && i < 4
  {
    w[2 * i] + w[2 * i + 1] * 0x1_0000_0000
  }

  /** Words read through a uint128_t pointer. */
  function Limb128(w: seq<int>, i: nat): int
    requires |w| == 8 && i < 2
  {
    Limb64(w, 2 * i) + Limb64(w, 2 * i + 1) * 0x1_0000_0000_0000_0000
  }

  /** It is the number whose digits to base 2^32 the words are, least significant first. */
  lemma ValueIsDigits(w: seq<int>)
    requires |w| == 8
    ensures Value(w) ==
            w[0] + WORD * (w[1] + WORD * (w[2] + WORD * (w[3] +
            WORD * (w[4] + WORD * (w[5] + WORD * (w[6] + WORD * w[7]))))))
  {}

  lemma SmallerWord(h: seq<int>, t: seq<int>, i: nat)
    requires IsHash(h) && IsHash(t) && i < 8 && h[i] < t[i]
    requires forall j | i < j < 8 :: h[j] == t[j]
    ensures Value(h) < Value(t)
  {
    if i == 0 {
    } else if i == 1 {
    } else if i == 2 {
    } else if i == 3 {
    } else if i == 4 {
    } else if i == 5 {
    } else if i == 6 {
    }
  }

  /** The first differing word from the top decides. */
  lemma FirstDifferenceDecides(h: seq<int>, t: seq<int>, i: nat)
    requires IsHash(h) && IsHash(t) && i < 8
    requires forall j | i < j < 8 :: h[j] == t[j]
    ensures h[i] < t[i] ==> Value(h) < Value(t)
    ensures h[i] > t[i] ==> Value(h) > Value(t)
  {
    if h[i] < t[i] {
      SmallerWord(h, t, i);
    } else if h[i] > t[i] {
      SmallerWord(t, h, i);
    }
  }

  /** fulltest. */
  method FullTest(hash: seq<int>, target: seq<int>) returns (rc: bool)
    requires IsHash(hash) && IsHash(target)
    ensures rc == Meets(hash, target)
  {
    rc := true;
    var i := 7;
    while i >= 0
      invariant -1 <= i <= 7 && rc
      invariant forall j | i < j < 8 :: hash[j] == target[j]
    {
      FirstDifferenceDecides(hash, target, i);
      if hash[i] > target[i] {
        rc := false;
        break;
      }
      if hash[i] < target[i] {
        rc := true;
        break;
      }
      i := i - 1;
    }
  }

  /** valid_hash, 64-bit form. */
  predicate ValidHash64(h: seq<int>, t: seq<int>)
    requires |h| == |t| == 8
  {
    if Limb64(h, 3) > Limb64(t, 3) then false
    else if Limb64(h, 3) < Limb64(t, 3) then true
    else if Limb64(h, 2) > Limb64(t, 2) then false
    else if Limb64(h, 2) < Limb64(t, 2) then true
    else if Limb64(h, 1) > Limb64(t, 1) then false
    else if Limb64(h, 1) < Limb64(t, 1) then true
    else !(Limb64(h, 0) > Limb64(t, 0))
  }

  /** valid_hash, 128-bit form. */
  predicate ValidHash128(h: seq<int>, t: seq<int>)
    requires |h| == |t| == 8
  {
    if Limb128(h, 1) > Limb128(t, 1) then false
    else if Limb128(h, 1) < Limb128(t, 1) then true
    else !(Limb128(h, 0) > Limb128(t, 0))
  }

  lemma LimbBound(w: seq<int>, i: nat)
    requires IsHash(w) && i < 4
    ensures 0 <= Limb64(w, i) < 0x1_0000_0000_0000_0000
  {}

  lemma Compare64(h: seq<int>, t: seq<int>)
    requires IsHash(h) && IsHash(t)
    ensures ValidHash64(h, t) == Meets(h, t)
  {
    forall i | 0 <= i < 4 ensures Limb64(h, i) < 0x1_0000_0000_0000_0000 && Limb64(t, i) < 0x1_0000_0000_0000_0000 {
      LimbBound(h, i);
      LimbBound(t, i);
    }
  }

  lemma Compare128(h: seq<int>, t: seq<int>)
    requires IsHash(h) && IsHash(t)
    ensures ValidHash128(h, t) == Meets(h, t)
  {
    forall i | 0 <= i < 4 ensures Limb64(h, i) < 0x1_0000_0000_0000_0000 && Limb64(t, i) < 0x1_0000_0000_0000_0000 {
      LimbBound(h, i);
      LimbBound(t, i);
    }
  }

  /** Both forms of valid_hash are the comparison of 256-bit integers. */
  lemma ValidHashIsComparison(h: seq<int>, t: seq<int>)
    requires IsHash(h) && IsHash(t)
    ensures ValidHash64(h, t) == Meets(h, t)
    ensures ValidHash128(h, t) == Meets(h, t)
  {
    Compare64(h, t);
    Compare128(h, t);
  }

  /** The vector scans look at word 7 first: that loses nothing. */
  lemma PrefilterLosesNothing(h: seq<int>, t: seq<int>)
    requires IsHash(h) && IsHash(t) && Meets(h, t)
    ensures h[7] <= t[7]
  {
    FirstDifferenceDecides(h, t, 7);
  }
}
