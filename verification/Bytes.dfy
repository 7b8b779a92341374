/**
 Byte strings and positions in them.

 A C++ std::string is modelled as a Dafny string with one char per byte (code 0 to 255).
 Nothing the JSON code does depends on the upper bound, so its theorems hold of every
 string; members that print a byte in hexadecimal require IsBytes.
 */
module Bytes {
  datatype Option<+T> = None | Some(value: T)

  predicate IsBytes(s: string) {
    forall k :: 0 <= k < |s| ==> s[k] as int < 256
  }

  /** x is written in s at position i. */
  predicate At(s: string, i: nat, x: string) {
    i + |x| <= |s| && s[i..i + |x|] == x
  }

  lemma AtSplit(s: string, i: nat, a: string, b: string)
    ensures At(s, i, a + b) <==> At(s, i, a) && At(s, i + |a|, b)
  {
    if i + |a| + |b| <= |s| {
      assert s[i..i + |a + b|] == s[i..i + |a|] + s[i + |a|..i + |a| + |b|];
      assert (a + b)[..|a|] == a && (a + b)[|a|..] == b;
      if At(s, i, a + b) {
        assert s[i..i + |a|] == s[i..i + |a + b|][..|a|];
        assert s[i + |a|..i + |a| + |b|] == s[i..i + |a + b|][|a|..];
      }
    }
  }

  lemma AtContext(p: string, x: string, q: string)
    ensures At(p + x + q, |p|, x)
    ensures q != "" ==> (p + x + q)[|p| + |x|] == q[0]
  {}

  lemma AtSlice(s: string, i: nat, j: nat)
    requires i <= j <= |s|
    ensures At(s, i, s[i..j])
  {}

  lemma AtChar(s: string, i: nat, x: string)
    requires i < |s| && |x| == 1 && s[i] == x[0]
    ensures At(s, i, x)
  {
    assert s[i..i + 1] == x;
  }

  /** The characters of a text are found one by one at its position. */
  lemma AtChars(s: string, i: nat, x: string)
    requires At(s, i, x)
    ensures forall k :: 0 <= k < |x| ==> s[i + k] == x[k]
  {
    forall k | 0 <= k < |x| ensures s[i + k] == x[k] {
      assert s[i + k] == s[i..i + |x|][k];
    }
  }

  // ---- Character classes and maximal runs ----

  datatype Class = Space | WordChar | Alpha | Lower | Numeric | Digit

  predicate In(c: char, k: Class) {
    match k
    case Space => c == ' ' || c == '\t' || c == '\n' || c == '\r'
    case WordChar => 'a' <= c <= 'z' || 'A' <= c <= 'Z' || c == '_'
    case Alpha => 'a' <= c <= 'z' || 'A' <= c <= 'Z'
    case Lower => 'a' <= c <= 'z'
    case Numeric => IsDigit(c) || c == '-' || c == '+' || c == '.' || c == 'e' || c == 'E'
    case Digit => IsDigit(c)
  }

  predicate IsDigit(c: char) { '0' <= c <= '9' }

  predicate AllIn(x: string, k: Class) {
    forall j :: 0 <= j < |x| ==> In(x[j], k)
  }

  /** The end of the longest run of class k that starts at i. */
  function Run(s: string, i: nat, k: Class): (j: nat)
    requires i <= |s|
    ensures i <= j <= |s|
    ensures AllIn(s[i..j], k)
    ensures j < |s| ==> !In(s[j], k)
    decreases |s| - i
  {
    if i < |s| && In(s[i], k) then
      var j := Run(s, i + 1, k);
      assert s[i..j] == [s[i]] + s[i + 1..j];
      j
    else i
  }

  lemma RunOnce(s: string, i: nat, k: Class)
    requires i <= |s|
    ensures Run(s, Run(s, i, k), k) == Run(s, i, k)
  {
    hide In;
  }

  function SkipWs(s: string, i: nat): (j: nat)
    requires i <= |s|
    ensures i <= j <= |s|
  {
    Run(s, i, Space)
  }

  /** A run that is written at i and is not continued is the one Run finds. */
  lemma {:induction false} RunExact(s: string, i: nat, w: string, k: Class)
    requires At(s, i, w) && AllIn(w, k)
    requires i + |w| == |s| || !In(s[i + |w|], k)
    ensures Run(s, i, k) == i + |w|
    decreases |w|
  {
    AtChars(s, i, w);
    if w != "" {
      AtChars(s, i, w);
      assert s[i] == w[0];
      assert s[i + 1..i + |w|] == w[1..] by {
        assert s[i + 1..i + |w|] == s[i..i + |w|][1..];
      }
      RunExact(s, i + 1, w[1..], k);
    }
  }
}
