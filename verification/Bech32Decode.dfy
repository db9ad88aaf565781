/** bech32_decode itself, loop by loop, against the declarative `Accepts`. */
module Bech32Decode {
  import opened BitVectors
  import opened Bech32

  lemma {:induction false} ZeroBits(k: nat)
    ensures BitsOf(0, k) == Zeros(k)
  {
    if k > 0 {
      ZeroBits(k - 1);
    }
  }

  lemma XorZeros(p: Bits)
    ensures Xor(p, Zeros(|p|)) == p
  {}

  /** A bare polymod step absorbs a zero. */
  lemma StepIsAbsorbZero(chk: Chk)
    ensures Absorb(chk, 0) == Step(chk)
  {
    ZeroBits(|chk|);
    XorZeros(Step(chk));
  }

  /** Counts the characters after the last '1'. */
  method FindSeparator(input: seq<int>) returns (dataLen: nat)
    ensures dataLen == |input| - 1 - LastOne(input)
  {
    dataLen := 0;
    assert input[..|input|] == input;
    while dataLen < |input| && input[|input| - 1 - dataLen] != ONE
      invariant dataLen <= |input| && LastOne(input[..|input| - dataLen]) == LastOne(input)
    {
      assert input[..|input| - dataLen][..|input| - dataLen - 1] == input[..|input| - dataLen - 1];
      dataLen := dataLen + 1;
    }
  }

  lemma CaseStep(s: seq<int>, i: nat)
    requires i < |s|
    ensures HasLower(s[..i + 1]) == (HasLower(s[..i]) || IsLower(s[i]))
    ensures HasUpper(s[..i + 1]) == (HasUpper(s[..i]) || IsUpper(s[i]))
  {
    var n := s[..i + 1];
    assert n[..i] == s[..i] && n[i] == s[i];
  }

  lemma HrpStep(s: seq<int>, i: nat)
    requires i < |s| && HrpOk(s[..i]) && 33 <= s[i] <= 126
    ensures HrpOk(s[..i + 1])
    ensures HighBits(s[..i + 1]) == HighBits(s[..i]) + [ToLower(s[i]) / 32]
    ensures LowBits(s[..i + 1]) == LowBits(s[..i]) + [s[i] % 32]
    ensures Lowered(s[..i + 1]) == Lowered(s[..i]) + [ToLower(s[i])]
  {
    var n := s[..i + 1];
    assert n[..i] == s[..i] && n[i] == s[i];
  }

  lemma Absorbed(absorb: Absorber, chk: Chk, a: seq<nat>, b: seq<nat>, v: nat)
    requires b == a + [v]
    ensures Fold(absorb, chk, b) == absorb(Fold(absorb, chk, a), v)
  {
    FoldAppend(absorb, chk, a, v);
  }

  // The loops, for whatever absorbs a value into the register.

  /** What the first loop has done up to i. */
  ghost predicate HighDone(absorb: Absorber, s: seq<int>, i: nat, chk0: Chk, chk: Chk, hrp: seq<int>) {
    i <= |s| && HrpOk(s[..i]) && chk == Fold(absorb, chk0, HighBits(s[..i])) && hrp == Lowered(s[..i])
  }

  /** One character of it, already lower-cased. */
  method HighTurn(absorb: Absorber, s: seq<int>, i: nat, ghost chk0: Chk, chk: Chk, hrp: seq<int>, ch: nat)
    returns (chk': Chk, hrp': seq<int>)
    requires i < |s| && 33 <= s[i] <= 126 && HighDone(absorb, s, i, chk0, chk, hrp) && ch == ToLower(s[i])
    ensures HighDone(absorb, s, i + 1, chk0, chk', hrp')
  {
    HrpStep(s, i);
    Absorbed(absorb, chk0, HighBits(s[..i]), HighBits(s[..i + 1]), ch / 32);
    chk' := absorb(chk, ch / 32);
    hrp' := hrp + [ch];
  }

  ghost predicate CaseDone(s: seq<int>, i: nat, lower: bool, upper: bool) {
    i <= |s| && lower == HasLower(s[..i]) && upper == HasUpper(s[..i])
  }

  /** The first loop over the human-readable part: range check, case, high bits, lower-cased copy. */
  method HrpHigh(absorb: Absorber, input: seq<int>, hrpLen: nat, chk0: Chk)
    returns (ok: bool, chk: Chk, hrp: seq<int>, haveLower: bool, haveUpper: bool)
    requires hrpLen <= |input|
    ensures ok <==> HrpOk(input[..hrpLen])
    ensures ok ==> HighDone(absorb, input, hrpLen, chk0, chk, hrp) && CaseDone(input, hrpLen, haveLower, haveUpper)
  {
    ok, chk, hrp, haveLower, haveUpper := true, chk0, [], false, false;
    var i := 0;
    while i < hrpLen
      invariant 0 <= i <= hrpLen && HighDone(absorb, input, i, chk0, chk, hrp)
      invariant CaseDone(input, i, haveLower, haveUpper)
    {
      var ch := input[i];
      if ch < 33 || ch > 126 {
        assert input[..hrpLen][i] == ch;
        ok := false;
        return;
      }
      CaseStep(input, i);
      if IsLower(ch) {
        haveLower := true;
      } else if IsUpper(ch) {
        haveUpper := true;
        ch := ch - 65 + 97;
      }
      chk, hrp := HighTurn(absorb, input, i, chk0, chk, hrp, ch);
      i := i + 1;
    }
  }

  /** The second loop: low bits of the characters as given. */
  method HrpLow(absorb: Absorber, input: seq<int>, hrpLen: nat, chk0: Chk) returns (chk: Chk)
    requires hrpLen <= |input| && HrpOk(input[..hrpLen])
    ensures chk == Fold(absorb, chk0, LowBits(input[..hrpLen]))
  {
    chk := chk0;
    var i := 0;
    while i < hrpLen
      invariant 0 <= i <= hrpLen && HrpOk(input[..i]) && chk == Fold(absorb, chk0, LowBits(input[..i]))
    {
      assert input[..hrpLen][i] == input[i];
      HrpStep(input, i);
      Absorbed(absorb, chk0, LowBits(input[..i]), LowBits(input[..i + 1]), input[i] % 32);
      chk := absorb(chk, input[i] % 32);
      i := i + 1;
    }
  }

  lemma DataStep(rev: Table, s: seq<int>, from: nat, i: nat)
    requires from <= i < |s| && IsString(s) && DataOk(rev, s[from..i])
    ensures CharValue(rev, s[i]) != -1 ==>
              DataOk(rev, s[from..i + 1])
              && DataValues(rev, s[from..i + 1]) == DataValues(rev, s[from..i]) + [CharValue(rev, s[i])]
    ensures CharValue(rev, s[i]) == -1 ==> !DataOk(rev, s[from..])
  {
    var n := s[from..i + 1];
    assert n[..i - from] == s[from..i] && n[i - from] == s[i] == s[from..][i - from];
  }

  lemma StoreStep(values: seq<nat>, v: nat, m: nat)
    ensures |values| < m ==> (values + [v])[..|values| + 1] == values[..|values|] + [v]
    ensures |values| >= m ==> (values + [v])[..m] == values[..m]
  {}

  /** What the data loop has done up to i. */
  ghost predicate DataDone(absorb: Absorber, rev: Table, s: seq<int>, from: nat, i: nat, chk0: Chk, chk: Chk,
                           data: seq<int>)
  {
    && from <= i <= |s| && from + 6 <= |s| && DataOk(rev, s[from..i])
    && chk == Fold(absorb, chk0, DataValues(rev, s[from..i]))
    && data == DataValues(rev, s[from..i])[..if i + 6 < |s| then i - from else |s| - from - 6]
  }

  /** One data character: absorbed, and stored unless it belongs to the checksum. */
  method DataTurn(absorb: Absorber, rev: Table, s: seq<int>, from: nat, i: nat, ghost chk0: Chk, chk: Chk,
                  data: seq<int>, v: nat)
    returns (chk': Chk, data': seq<int>)
    requires IsString(s) && i < |s| && DataDone(absorb, rev, s, from, i, chk0, chk, data) && v == CharValue(rev, s[i])
    ensures DataDone(absorb, rev, s, from, i + 1, chk0, chk', data')
  {
    DataStep(rev, s, from, i);
    Absorbed(absorb, chk0, DataValues(rev, s[from..i]), DataValues(rev, s[from..i + 1]), v);
    StoreStep(DataValues(rev, s[from..i]), v, |s| - from - 6);
    chk' := absorb(chk, v);
    data' := data;
    if i + 6 < |s| {
      data' := data + [v];
    }
  }

  lemma DataFinished(absorb: Absorber, rev: Table, s: seq<int>, from: nat, chk0: Chk, chk: Chk, data: seq<int>)
    requires DataDone(absorb, rev, s, from, |s|, chk0, chk, data)
    ensures DataOk(rev, s[from..]) && chk == Fold(absorb, chk0, DataValues(rev, s[from..]))
    ensures data == DataValues(rev, s[from..])[..|s| - from - 6]
  {
    assert s[from..|s|] == s[from..];
  }

  /** The loop over the data part; the last six values are the checksum and are not stored. */
  method DataLoop(absorb: Absorber, rev: Table, input: seq<int>, from: nat, chk0: Chk, lower0: bool, upper0: bool)
    returns (ok: bool, chk: Chk, data: seq<int>, haveLower: bool, haveUpper: bool)
    requires IsString(input) && 0 < from && from + 6 <= |input| && CaseDone(input, from, lower0, upper0)
    ensures ok <==> DataOk(rev, input[from..])
    ensures ok ==> chk == Fold(absorb, chk0, DataValues(rev, input[from..]))
                   && data == DataValues(rev, input[from..])[..|input| - from - 6]
    ensures ok ==> CaseDone(input, |input|, haveLower, haveUpper)
  {
    ok, chk, data, haveLower, haveUpper := true, chk0, [], lower0, upper0;
    var i := from;
    while i < |input|
      invariant from <= i <= |input| && DataDone(absorb, rev, input, from, i, chk0, chk, data)
                && CaseDone(input, i, haveLower, haveUpper)
    {
      var v := CharValue(rev, input[i]);
      CaseStep(input, i);
      if IsLower(input[i]) {
        haveLower := true;
      }
      if IsUpper(input[i]) {
        haveUpper := true;
      }
      if v == -1 {
        DataStep(rev, input, from, i);
        ok := false;
        return;
      }
      chk, data := DataTurn(absorb, rev, input, from, i, chk0, chk, data, v);
      i := i + 1;
    }
    DataFinished(absorb, rev, input, from, chk0, chk, data);
  }

  lemma HrpInOrder(x: Chk, hrp: seq<int>)
    requires HrpOk(hrp)
    ensures Polymod(x, HrpValues(hrp)) == Polymod(Step(Polymod(x, HighBits(hrp))), LowBits(hrp))
  {
    PolymodConcat(x, HighBits(hrp) + [0], LowBits(hrp));
    PolymodAppend(x, HighBits(hrp), 0);
    StepIsAbsorbZero(Polymod(x, HighBits(hrp)));
  }

  /** Both loops over the human-readable part, with the zero between them. */
  method HrpPart(input: seq<int>, hrpLen: nat)
    returns (ok: bool, chk: Chk, hrp: seq<int>, haveLower: bool, haveUpper: bool)
    requires hrpLen <= |input|
    ensures ok <==> HrpOk(input[..hrpLen])
    ensures ok ==> chk == Polymod(One(), HrpValues(input[..hrpLen])) && hrp == Lowered(input[..hrpLen])
    ensures ok ==> CaseDone(input, hrpLen, haveLower, haveUpper)
  {
    ok, chk, hrp, haveLower, haveUpper := HrpHigh(Absorb, input, hrpLen, One());
    if ok {
      HrpInOrder(One(), input[..hrpLen]);
      chk := Step(chk);
      chk := HrpLow(Absorb, input, hrpLen, chk);
    }
  }

  /** Whether the register and the two case flags, at the end, accept. */
  lemma Verdict(rev: Table, input: seq<int>, hrpLen: nat, chk: Chk, haveLower: bool, haveUpper: bool)
    requires hrpLen < |input| && HrpOk(input[..hrpLen]) && DataOk(rev, input[hrpLen + 1..])
    requires CaseDone(input, |input|, haveLower, haveUpper)
    requires chk == Fold(Absorb, Polymod(One(), HrpValues(input[..hrpLen])), DataValues(rev, input[hrpLen + 1..]))
    ensures PartsOk(rev, input, hrpLen) <==> !(haveLower && haveUpper) && chk == One()
  {
    PolymodConcat(One(), HrpValues(input[..hrpLen]), DataValues(rev, input[hrpLen + 1..]));
    assert input[..|input|] == input;
  }

  /** From the separator on. */
  method DataPart(rev: Table, input: seq<int>, hrpLen: nat, chk0: Chk, lower0: bool, upper0: bool)
    returns (ok: bool, data: seq<int>)
    requires IsString(input) && hrpLen + 7 <= |input| && input[hrpLen] == ONE && HrpOk(input[..hrpLen])
    requires chk0 == Polymod(One(), HrpValues(input[..hrpLen])) && CaseDone(input, hrpLen, lower0, upper0)
    ensures ok <==> PartsOk(rev, input, hrpLen)
    ensures ok ==> data == DataValues(rev, input[hrpLen + 1..])[..|input| - hrpLen - 7]
  {
    ok := false;
    CaseStep(input, hrpLen);
    var good, chk, haveLower, haveUpper;
    good, chk, data, haveLower, haveUpper := DataLoop(Absorb, rev, input, hrpLen + 1, chk0, lower0, upper0);
    if !good {
      return;
    }
    Verdict(rev, input, hrpLen, chk, haveLower, haveUpper);
    if haveLower && haveUpper {
      return;
    }
    ok := chk == One();
  }

  /** The loops, once the separator is found. */
  method DecodeParts(rev: Table, input: seq<int>, hrpLen: nat) returns (ok: bool, hrp: seq<int>, data: seq<int>)
    requires IsString(input) && hrpLen + 7 <= |input| && input[hrpLen] == ONE
    ensures ok <==> PartsOk(rev, input, hrpLen)
    ensures ok ==> hrp == Lowered(input[..hrpLen])
    ensures ok ==> data == DataValues(rev, input[hrpLen + 1..])[..|input| - hrpLen - 7]
  {
    data := [];
    var chk, haveLower, haveUpper;
    ok, chk, hrp, haveLower, haveUpper := HrpPart(input, hrpLen);
    if ok {
      ok, data := DataPart(rev, input, hrpLen, chk, haveLower, haveUpper);
    }
  }

  /** bech32_decode: accepts exactly the strings of the standard, and hands out the lower-cased
      human-readable part and the data values without the checksum. */
  method Decode(rev: Table, input: seq<int>) returns (ok: bool, hrp: seq<int>, data: seq<int>)
    requires IsString(input)
    ensures ok <==> Accepts(rev, input)
    ensures ok ==> hrp == Lowered(input[..LastOne(input)])
    ensures ok ==> data == DataValues(rev, input[LastOne(input) + 1..])[..|input| - LastOne(input) - 7]
  {
    ok, hrp, data := false, [], [];
    if |input| < 8 || |input| > 90 {
      return;
    }
    var dataLen := FindSeparator(input);
    if 1 + dataLen >= |input| || dataLen < 6 {
      return;
    }
    AfterLastOne(input);
    var hrpLen := |input| - (1 + dataLen);
    ok, hrp, data := DecodeParts(rev, input, hrpLen);
  }

  /** bech32_decode as the program has it. */
  method DecodeAddress(input: seq<int>) returns (ok: bool, hrp: seq<int>, data: seq<int>)
    requires IsString(input)
    ensures ok <==> Accepts(CharsetTable(), input)
    ensures ok ==> hrp == Lowered(input[..LastOne(input)])
    ensures ok ==> data == DataValues(CharsetTable(), input[LastOne(input) + 1..])[..|input| - LastOne(input) - 7]
  {
    ok, hrp, data := Decode(CharsetTable(), input);
  }
}
