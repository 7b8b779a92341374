/**
 Unicode transformation formats, as far as the string reader needs them.

 Utf8 is the encoder inlined in the reader. Its partners are independent of it: Accepts
 is the byte grammar of section 4 of RFC 3629 written as an automaton, FromUtf8 is the
 decoding table of section 3, and Utf16 is the greedy decoding of section 2.2 of RFC 2781.
 */
module Unicode {
  type CodeUnit = u: int | 0 <= u < 0x10000
  type CodePoint = cp: int | 0 <= cp < 0x110000

  const REPLACEMENT: CodePoint := 0xFFFD

  predicate IsHigh(u: int) { 0xD800 <= u <= 0xDBFF }

  predicate IsLow(u: int) { 0xDC00 <= u <= 0xDFFF }

  predicate IsScalar(cp: int) {
    0 <= cp < 0xD800 || 0xE000 <= cp < 0x110000
  }

  // ---- Surrogate pairs ----

  function Join(hi: int, lo: int): CodePoint
    requires IsHigh(hi) && IsLow(lo)
  {
    0x10000 + (hi - 0xD800) * 1024 + (lo - 0xDC00)
  }

  function HighOf(cp: int): int { 0xD800 + (cp - 0x10000) / 1024 }

  function LowOf(cp: int): int { 0xDC00 + (cp - 0x10000) % 1024 }

  /** Joining is a bijection from surrogate pairs to 0x10000..0x10FFFF. */
  lemma JoinIsBijection(hi: int, lo: int, cp: int)
    requires IsHigh(hi) && IsLow(lo)
    requires 0x10000 <= cp < 0x110000
    ensures 0x10000 <= Join(hi, lo) < 0x110000
    ensures HighOf(Join(hi, lo)) == hi && LowOf(Join(hi, lo)) == lo
    ensures IsHigh(HighOf(cp)) && IsLow(LowOf(cp)) && Join(HighOf(cp), LowOf(cp)) == cp
  {}

  /** Greedy decoding of 16-bit code units, one U+FFFD for each unpaired surrogate. */
  function Utf16(units: seq<CodeUnit>): (cps: seq<CodePoint>)
    ensures forall k :: 0 <= k < |cps| ==> IsScalar(cps[k])
  {
    if units == [] then []
    else if 0xD800 <= units[0] <= 0xDBFF && |units| > 1 && 0xDC00 <= units[1] <= 0xDFFF then
      [0x10000 + (units[0] - 0xD800) * 0x400 + (units[1] - 0xDC00)] + Utf16(units[2..])
    else if 0xD800 <= units[0] <= 0xDFFF then
      [0xFFFD] + Utf16(units[1..])
    else
      [units[0]] + Utf16(units[1..])
  }

  // ---- UTF-8 ----

  function Utf8(cp: CodePoint): string {
    if cp < 0x80 then [cp as char]
    else if cp < 0x800 then
      [(0xC0 + cp / 64) as char, (0x80 + cp % 64) as char]
    else if cp < 0x10000 then
      [(0xE0 + cp / 4096) as char, (0x80 + cp / 64 % 64) as char, (0x80 + cp % 64) as char]
    else
      [(0xF0 + cp / 262144) as char, (0x80 + cp / 4096 % 64) as char,
       (0x80 + cp / 64 % 64) as char, (0x80 + cp % 64) as char]
  }

  function Utf8All(cps: seq<CodePoint>): string {
    if cps == [] then "" else Utf8(cps[0]) + Utf8All(cps[1..])
  }

  /** What a multi-byte reader still expects. */
  datatype Utf8State =
    | Between
    | Tails(n: nat)
    | AfterE0 | AfterED | AfterF0 | AfterF4
    | Broken

  function Advance(q: Utf8State, c: char): Utf8State {
    var b := c as int;
    var tail := 0x80 <= b <= 0xBF;
    match q
    case Between =>
      if b < 0x80 then Between
      else if 0xC2 <= b <= 0xDF then Tails(1)
      else if b == 0xE0 then AfterE0
      else if b == 0xED then AfterED
      else if 0xE1 <= b <= 0xEF then Tails(2)
      else if b == 0xF0 then AfterF0
      else if 0xF1 <= b <= 0xF3 then Tails(3)
      else if b == 0xF4 then AfterF4
      else Broken
    case Tails(n) => if !tail || n == 0 then Broken else if n == 1 then Between else Tails(n - 1)
    case AfterE0 => if 0xA0 <= b <= 0xBF then Tails(1) else Broken
    case AfterED => if 0x80 <= b <= 0x9F then Tails(1) else Broken
    case AfterF0 => if 0x90 <= b <= 0xBF then Tails(2) else Broken
    case AfterF4 => if 0x80 <= b <= 0x8F then Tails(2) else Broken
    case Broken => Broken
  }

  function Feed(q: Utf8State, x: string): Utf8State
    decreases |x|
  {
    if x == "" then q else Feed(Advance(q, x[0]), x[1..])
  }

  /** x is well-formed UTF-8. */
  predicate Accepts(x: string) { Feed(Between, x) == Between }

  lemma {:induction false} FeedConcat(q: Utf8State, a: string, b: string)
    ensures Feed(q, a + b) == Feed(Feed(q, a), b)
    decreases |a|
  {
    if a == "" {
      assert a + b == b;
    } else {
      assert (a + b)[1..] == a[1..] + b;
      FeedConcat(Advance(q, a[0]), a[1..], b);
    }
  }

  lemma {:induction false} FeedBroken(x: string)
    ensures Feed(Broken, x) == Broken
    decreases |x|
  {
    if x != "" { FeedBroken(x[1..]); }
  }

  lemma FeedOne(q: Utf8State, c: char)
    ensures Feed(q, [c]) == Advance(q, c)
  {
    assert [c][1..] == "";
  }

  /** Reads back one encoded code point (table of section 3 of RFC 3629). */
  function FromUtf8(x: string): int
    requires 1 <= |x| <= 4
  {
    if |x| == 1 then x[0] as int
    else if |x| == 2 then (x[0] as int - 0xC0) * 64 + (x[1] as int - 0x80)
    else if |x| == 3 then
      (x[0] as int - 0xE0) * 4096 + (x[1] as int - 0x80) * 64 + (x[2] as int - 0x80)
    else
      (x[0] as int - 0xF0) * 262144 + (x[1] as int - 0x80) * 4096
      + (x[2] as int - 0x80) * 64 + (x[3] as int - 0x80)
  }

  lemma Utf8Inverse(cp: CodePoint)
    ensures 1 <= |Utf8(cp)| <= 4 && FromUtf8(Utf8(cp)) == cp
  {
    if 0x800 <= cp < 0x10000 {
      assert cp / 4096 == cp / 64 / 64;
    } else if 0x10000 <= cp {
      assert cp / 4096 == cp / 64 / 64;
      assert cp / 262144 == cp / 4096 / 64;
    }
  }

  /** Every scalar value is encoded as well-formed UTF-8. */
  lemma Utf8WellFormed(cp: CodePoint)
    requires IsScalar(cp)
    ensures Accepts(Utf8(cp))
  {
    if cp < 0x80 {
      FeedOne(Between, Utf8(cp)[0]);
    } else if cp < 0x800 {
      FeedTwo(Between, Utf8(cp));
    } else if cp < 0x10000 {
      ThreeWellFormed(cp);
    } else {
      FourWellFormed(cp);
    }
  }

  lemma ThreeWellFormed(cp: CodePoint)
    requires IsScalar(cp) && 0x800 <= cp < 0x10000
    ensures Accepts(Utf8(cp))
  {
    assert cp / 64 % 64 == cp / 64 - cp / 4096 * 64;
    FeedThree(Between, Utf8(cp));
  }

  lemma FourWellFormed(cp: CodePoint)
    requires 0x10000 <= cp
    ensures Accepts(Utf8(cp))
  {
    assert cp / 4096 % 64 == cp / 4096 - cp / 262144 * 64;
    FeedThree(Advance(Between, Utf8(cp)[0]), Utf8(cp)[1..]);
  }

  lemma FeedTwo(q: Utf8State, x: string)
    requires |x| == 2
    ensures Feed(q, x) == Advance(Advance(q, x[0]), x[1])
  {
    FeedOne(Advance(q, x[0]), x[1]);
    assert x[1..] == [x[1]];
  }

  lemma FeedThree(q: Utf8State, x: string)
    requires |x| == 3
    ensures Feed(q, x) == Advance(Advance(Advance(q, x[0]), x[1]), x[2])
  {
    FeedTwo(Advance(q, x[0]), x[1..]);
  }
}
