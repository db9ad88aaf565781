/** Searching sequences. */
module Bytes {

  type Text = seq<int>

  /** The first index of the character, or the length. */
  function IndexOf<T(==)>(s: seq<T>, ch: T): (i: nat)
    ensures i <= |s| && (i < |s| <==> ch in s) && (i < |s| ==> s[i] == ch) && ch !in s[..i]
  {
    if s == [] then 0 else if s[0] == ch then 0 else
      assert s == [s[0]] + s[1..];
      var i := 1 + IndexOf(s[1..], ch);
      assert s[..i] == [s[0]] + s[1..][..i - 1];
      i
  }
}
