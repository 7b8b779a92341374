/** The character classes and kinds of value of the reader, by character codes and RFC 8259 values. */
module Alphabet {
  import opened Bytes
  import opened Grammar
  import opened GrammarLaws
  import opened Lookup

  /** White space and digits are those of RFC 8259 section 2 and 6; the other classes are the reader's own. */
  lemma ClassesAre(c: char)
    ensures var n := c as int;
            && (In(c, Space) <==> n == 0x20 || n == 0x09 || n == 0x0A || n == 0x0D)
            && (In(c, Digit) <==> 0x30 <= n <= 0x39)
            && (In(c, Numeric) <==> 0x30 <= n <= 0x39 || n == 0x2B || n == 0x2D || n == 0x2E || n == 0x45 || n == 0x65)
            && (In(c, Lower) <==> 0x61 <= n <= 0x7A)
            && (In(c, Alpha) <==> 0x41 <= n <= 0x5A || 0x61 <= n <= 0x7A)
            && (In(c, WordChar) <==> 0x41 <= n <= 0x5A || 0x61 <= n <= 0x7A || n == 0x5F)
  {}

  /** Words start with t, f or n; numbers with a minus sign or a digit. */
  lemma StartsAre(c: char)
    ensures StartsWord(c) <==> c as int == 0x74 || c as int == 0x66 || c as int == 0x6E
    ensures StartsNumber(c) <==> c as int == 0x2D || 0x30 <= c as int <= 0x39
  {}

  /** The first byte that each getter waits for. */
  lemma FirstBytesAre(c: char)
    ensures Starts(AString, c) <==> c as int == 0x22
    ensures Starts(ANumber, c) <==> c as int == 0x2D || 0x30 <= c as int <= 0x39
    ensures Starts(AUnsigned, c) <==> 0x30 <= c as int <= 0x39
    ensures Starts(ABool, c) <==> c as int == 0x74 || c as int == 0x66
    ensures Starts(AnObject, c) <==> c as int == 0x7B
    ensures Starts(AnArray, c) <==> c as int == 0x5B
  {}

  /** On RFC 8259 values, the kinds that the getters ask for are what their names say. */
  lemma KindsAre(t: Tree)
    requires Strict(t)
    ensures IsKind(AString, t) <==> t.Str?
    ensures IsKind(ANumber, t) <==> t.Number?
    ensures IsKind(AUnsigned, t) <==> t.Number? && t.x[0] != '-'
    ensures IsKind(ABool, t) <==> t == Word("true") || t == Word("false")
    ensures IsKind(AnObject, t) <==> t.Obj?
    ensures IsKind(AnArray, t) <==> t.Arr?
  {
    if t.Number? { NumberIsNumeric(t.x); }
    assert "true"[0] == 't' && "false"[0] == 'f' && "null"[0] == 'n';
  }
}
