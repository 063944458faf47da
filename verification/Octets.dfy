/** Bytes, the characters that matter in protocol lines, and line breaks. */
module Octets {

  type Byte = b: nat | b < 256
  type Bytes = seq<Byte>

  const LF: Byte := 10
  const CR: Byte := 13
  const BLANK: Byte := 32
  const PAREN: Byte := 40
  const PLUS: Byte := 43
  const ZERO: Byte := 48
  const NINE: Byte := 57
  const OPEN: Byte := 123
  const CLOSE: Byte := 125

  predicate NoBreak(text: Bytes) {
    forall i :: 0 <= i < |text| ==> text[i] != LF
  }

  /** The position of the first line break, or the length. */
  function FirstBreak(s: Bytes): (i: nat)
    ensures i <= |s| && NoBreak(s[..i]) && (i < |s| ==> s[i] == LF)
  {
    if s == [] || s[0] == LF then 0 else
      var i := 1 + FirstBreak(s[1..]);
      assert s[..i] == [s[0]] + s[1..][..i - 1];
      i
  }

  lemma FirstBreakIs(s: Bytes, i: nat)
    requires i <= |s| && NoBreak(s[..i]) && (i < |s| ==> s[i] == LF)
    ensures FirstBreak(s) == i
  {
    var f := FirstBreak(s);
    assert forall k :: 0 <= k < i ==> s[k] == s[..i][k];
    assert forall k :: 0 <= k < f ==> s[k] == s[..f][k];
  }
}
