/** What string reading promises: it undoes writing, and every legal spelling decodes alike. */
module StringLaws {
  import opened Bytes
  import opened Unicode
  import opened Strings

  // ---- Writing: json_escape ----

  function LowerHexDigit(v: int): (c: char)
    requires 0 <= v < 16
    ensures IsHex(c) && HexValue(c) == v
  {
    if v < 10 then ('0' as int + v) as char else ('a' as int + v - 10) as char
  }

  function EscapeChar(c: char): string {
    if c == '"' then "\\\""
    else if c == '\\' then "\\\\"
    else if c as int == 8 then "\\b"
    else if c as int == 12 then "\\f"
    else if c == '\n' then "\\n"
    else if c == '\r' then "\\r"
    else if c == '\t' then "\\t"
    else if c as int < 0x20 then "\\u00" + [LowerHexDigit(c as int / 16), LowerHexDigit(c as int % 16)]
    else [c]
  }

  function EscapeAll(x: string): string {
    if x == "" then "" else EscapeChar(x[0]) + EscapeAll(x[1..])
  }

  /** The JSON string json_escape appends for x. */
  function Quoted(x: string): string {
    "\"" + EscapeAll(x) + "\""
  }

  function EscapePiece(c: char): (p: Piece)
    ensures Legal(p)
  {
    if c == '"' || c == '\\' then Esc(c)
    else if c as int == 8 then Esc('b')
    else if c as int == 12 then Esc('f')
    else if c == '\n' then Esc('n')
    else if c == '\r' then Esc('r')
    else if c == '\t' then Esc('t')
    else if c as int < 0x20 then
      Hex(['0', '0', LowerHexDigit(c as int / 16), LowerHexDigit(c as int % 16)])
    else Raw(c)
  }

  function EscapePieces(x: string): seq<Piece> {
    if x == "" then [] else [EscapePiece(x[0])] + EscapePieces(x[1..])
  }

  lemma EscapePieceFaithful(c: char)
    ensures PieceText(EscapePiece(c)) == EscapeChar(c)
    ensures Alone(EscapePiece(c)) == [c]
    ensures EscapePiece(c).Hex? ==> !IsHigh(Hex4(EscapePiece(c).h))
  {}

  /** json_escape writes legal pieces whose meaning is the string itself. */
  lemma {:induction false} EscapeFaithful(x: string)
    ensures EscapeAll(x) == PiecesText(EscapePieces(x))
    ensures Meaning(EscapePieces(x)) == x
    ensures AllLegal(EscapePieces(x))
    decreases |x|
  {
    hide EscapePiece, EscapeChar, PieceText, Alone;
    if x != "" {
      EscapeFaithful(x[1..]);
      EscapePieceFaithful(x[0]);
      assert EscapePieces(x)[1..] == EscapePieces(x[1..]);
      assert x == [x[0]] + x[1..];
    }
  }

  // ---- Reading a written body ----

  /** A body of accepted pieces is read in full, in any context, and yields its meaning. */
  lemma ReadWritten(s: string, i: nat, ps: seq<Piece>, e: nat)
    requires At(s, i, PiecesText(ps)) && e == i + |PiecesText(ps)| < |s| && s[e] == '"'
    requires AllAccepted(ps, |s| - e)
    ensures StringAt(s, i) == Token(Meaning(ps), e + 1, true)
  {
    PiecesExact(s, i, ps, e);
    StringIsMeaning(s, i);
  }

  lemma ReadInContext(p: string, ps: seq<Piece>, q: string)
    requires AllAccepted(ps, |q| + 1)
    ensures StringAt(p + PiecesText(ps) + "\"" + q, |p|)
            == Token(Meaning(ps), |p| + |PiecesText(ps)| + 1, true)
  {
    hide PiecesText;
    var x := PiecesText(ps);
    var s := p + x + "\"" + q;
    assert s[|p|..|p| + |x|] == x;
    ReadWritten(s, |p|, ps, |p| + |x|);
  }

  /**
   Writing then reading gives back any byte string, whatever surrounds it, and leaves the
   cursor at the start of what follows.
   */
  lemma StringRoundTrip(p: string, x: string, q: string)
    ensures StringAt(p + Quoted(x) + q, |p| + 1) == Token(x, |p| + |Quoted(x)|, true)
  {
    hide EscapeChar, EscapePieces, PiecesText;
    var ps := EscapePieces(x);
    EscapeFaithful(x);
    LegalAreAccepted(ps, |q| + 1);
    assert p + Quoted(x) + q == (p + "\"") + PiecesText(ps) + "\"" + q;
    ReadInContext(p + "\"", ps, q);
  }

  // ---- Spellings of a scalar value (section 7 of RFC 8259) ----

  datatype Spelling = AsBytes | AsShort(c: char) | AsUnit(h: string) | AsPair(hi: string, lo: string)

  /** The hexadecimal digit of value v, in either case. */
  predicate IsDigitOf(c: char, v: int) {
    0 <= v < 16 && (c == "0123456789abcdef"[v] || c == "0123456789ABCDEF"[v])
  }

  /** The four hexadecimal digits of the code unit u. */
  predicate SpellsUnit(h: string, u: int) {
    && |h| == 4 && 0 <= u < 0x10000
    && IsDigitOf(h[0], u / 4096) && IsDigitOf(h[1], u / 256 % 16) && IsDigitOf(h[2], u / 16 % 16)
    && IsDigitOf(h[3], u % 16)
  }

  /** The eight short escapes of section 7 of RFC 8259 and their code points. */
  predicate SpellsShort(c: char, cp: int) {
    || (c == '"' && cp == 0x22) || (c == '\\' && cp == 0x5C) || (c == '/' && cp == 0x2F)
    || (c == 'b' && cp == 0x8) || (c == 'f' && cp == 0xC) || (c == 'n' && cp == 0xA)
    || (c == 'r' && cp == 0xD) || (c == 't' && cp == 0x9)
  }

  /** A code point above U+FFFF is the pair of section 2.1 of RFC 2781. */
  predicate Spells(sp: Spelling, cp: int) {
    match sp
    case AsBytes => cp >= 0x20 && cp != 0x22 && cp != 0x5C
    case AsShort(c) => SpellsShort(c, cp)
    case AsUnit(h) => SpellsUnit(h, cp)
    case AsPair(hi, lo) =>
      && 0x10000 <= cp < 0x110000
      && SpellsUnit(hi, 0xD800 + (cp - 0x10000) / 0x400) && SpellsUnit(lo, 0xDC00 + (cp - 0x10000) % 0x400)
  }

  /** One four-digit escape, in either case. */
  predicate IsUnit(h: string) { |h| == 4 && AllHex(h) }

  lemma DigitReads(c: char, v: int)
    requires IsDigitOf(c, v)
    ensures IsHex(c) && HexValue(c) == v
  {}

  /** The reader's hexadecimal digits are those of the table; any other character counts as 0. */
  lemma HexDigitsAre(c: char)
    ensures IsHex(c) <==> exists v :: IsDigitOf(c, v)
    ensures !IsHex(c) ==> HexValue(c) == 0
  {
    if IsHex(c) { assert IsDigitOf(c, HexValue(c)); }
  }

  /** The value a character counts for in a \u escape. */
  ghost predicate CountsFor(c: char, v: int) {
    IsDigitOf(c, v) || (v == 0 && forall w :: !IsDigitOf(c, w))
  }

  /** Any four characters after \u are a code unit, characters that are no digits counting as 0. */
  lemma AnyFourRead(h: string, a: int, b: int, c: int, d: int)
    requires |h| == 4 && CountsFor(h[0], a) && CountsFor(h[1], b) && CountsFor(h[2], c) && CountsFor(h[3], d)
    ensures Hex4(h) == a * 4096 + b * 256 + c * 16 + d
  {
    hide IsDigitOf, HexValue, IsHex;
    CharacterCounts(h[0], a);
    CharacterCounts(h[1], b);
    CharacterCounts(h[2], c);
    CharacterCounts(h[3], d);
  }

  lemma CharacterCounts(c: char, v: int)
    requires CountsFor(c, v)
    ensures HexValue(c) == v
  {
    hide IsDigitOf, HexValue, IsHex;
    HexDigitsAre(c);
    if IsDigitOf(c, v) { DigitReads(c, v); }
  }

  /** The digits of a code unit, in any mixture of cases, are read as that unit. */
  lemma UnitReads(h: string, u: int)
    requires SpellsUnit(h, u)
    ensures IsUnit(h) && Hex4(h) == u
  {
    hide IsDigitOf, HexValue, IsHex;
    DigitReads(h[0], u / 4096);
    DigitReads(h[1], u / 256 % 16);
    DigitReads(h[2], u / 16 % 16);
    DigitReads(h[3], u % 16);
    assert u / 16 / 16 == u / 256 && u / 256 / 16 == u / 4096;
  }

  /** A short escape reads as its code point; any other escaped character but u stands for itself. */
  lemma ShortReads(c: char)
    ensures forall cp :: SpellsShort(c, cp) ==> Unescape(c) as int == cp
    ensures (forall cp :: !SpellsShort(c, cp)) ==> Unescape(c) == c
  {
    if (forall cp :: !SpellsShort(c, cp)) {
      assert !SpellsShort(c, 0x8) && !SpellsShort(c, 0xC) && !SpellsShort(c, 0xA);
      assert !SpellsShort(c, 0xD) && !SpellsShort(c, 0x9);
    }
  }

  function RawPieces(x: string): seq<Piece> {
    if x == "" then [] else [Raw(x[0])] + RawPieces(x[1..])
  }

  function SpellingPieces(sp: Spelling, cp: CodePoint): seq<Piece> {
    match sp
    case AsBytes => RawPieces(Utf8(cp))
    case AsShort(c) => [Esc(c)]
    case AsUnit(h) => [Hex(h)]
    case AsPair(hi, lo) => [Hex(hi), Hex(lo)]
  }

  ghost predicate AllSpelled(cps: seq<CodePoint>, sps: seq<Spelling>) {
    && |cps| == |sps|
    && forall k :: 0 <= k < |cps| ==> IsScalar(cps[k]) && Spells(sps[k], cps[k])
  }

  function SpelledPieces(cps: seq<CodePoint>, sps: seq<Spelling>): seq<Piece>
    requires |cps| == |sps|
  {
    if cps == [] then [] else SpellingPieces(sps[0], cps[0]) + SpelledPieces(cps[1..], sps[1..])
  }

  lemma {:induction false} RawMeaning(x: string, rest: seq<Piece>)
    ensures Meaning(RawPieces(x) + rest) == x + Meaning(rest)
    decreases |x|
  {
    hide Meaning;
    if x == "" {
      assert RawPieces(x) + rest == rest;
    } else {
      RawMeaning(x[1..], rest);
      assert RawPieces(x) + rest == [Raw(x[0])] + (RawPieces(x[1..]) + rest);
      RawFirst(x[0], RawPieces(x[1..]) + rest);
      assert x == [x[0]] + x[1..];
    }
  }

  lemma RawFirst(c: char, rest: seq<Piece>)
    ensures Meaning([Raw(c)] + rest) == [c] + Meaning(rest)
  {
    assert ([Raw(c)] + rest)[1..] == rest;
  }

  lemma PairReads(hi: string, lo: string, cp: int)
    requires Spells(AsPair(hi, lo), cp)
    ensures IsUnit(hi) && IsUnit(lo) && IsHigh(Hex4(hi)) && IsLow(Hex4(lo)) && Join(Hex4(hi), Hex4(lo)) == cp
  {
    hide Hex4, AllHex, SpellsUnit;
    UnitReads(hi, 0xD800 + (cp - 0x10000) / 0x400);
    UnitReads(lo, 0xDC00 + (cp - 0x10000) % 0x400);
  }

  lemma SpellingMeaning(sp: Spelling, cp: CodePoint, rest: seq<Piece>)
    requires IsScalar(cp) && Spells(sp, cp)
    ensures Meaning(SpellingPieces(sp, cp) + rest) == Utf8(cp) + Meaning(rest)
  {
    var ps := SpellingPieces(sp, cp) + rest;
    match sp {
      case AsBytes => RawMeaning(Utf8(cp), rest);
      case AsShort(c) =>
        ShortReads(c);
        assert ps[1..] == rest;
        assert Utf8(cp) == [cp as char];
      case AsUnit(h) =>
        UnitReads(h, cp);
        assert ps[1..] == rest;
      case AsPair(hi, lo) =>
        PairReads(hi, lo, cp);
        assert ps[2..] == rest;
    }
  }

  /**
   However each scalar value of a text is spelled, as raw UTF-8, a short escape, \uXXXX or
   a surrogate pair, the pieces mean exactly its UTF-8 encoding.
   */
  lemma {:induction false} SpellingsDecodeAlike(cps: seq<CodePoint>, sps: seq<Spelling>)
    requires AllSpelled(cps, sps)
    ensures Meaning(SpelledPieces(cps, sps)) == Utf8All(cps)
    decreases |cps|
  {
    if cps != [] {
      SpellingsDecodeAlike(cps[1..], sps[1..]);
      SpellingMeaning(sps[0], cps[0], SpelledPieces(cps[1..], sps[1..]));
    }
  }

  lemma {:induction false} RawPiecesLegal(x: string)
    requires forall k :: 0 <= k < |x| ==> Legal(Raw(x[k]))
    ensures AllLegal(RawPieces(x))
    decreases |x|
  {
    if x != "" {
      forall k | 0 <= k < |x[1..]| ensures Legal(Raw(x[1..][k])) {
        assert x[1..][k] == x[k + 1];
      }
      RawPiecesLegal(x[1..]);
    }
  }

  lemma {:induction false} SpelledAreLegal(cps: seq<CodePoint>, sps: seq<Spelling>)
    requires AllSpelled(cps, sps)
    ensures AllLegal(SpelledPieces(cps, sps))
    decreases |cps|
  {
    if cps != [] {
      SpelledAreLegal(cps[1..], sps[1..]);
      if sps[0].AsBytes? { RawPiecesLegal(Utf8(cps[0])); }
      if sps[0].AsUnit? { UnitReads(sps[0].h, cps[0]); }
      if sps[0].AsPair? { PairReads(sps[0].hi, sps[0].lo, cps[0]); }
    }
  }

  /** The same, as seen by the reader: any spelling of a text reads as its UTF-8 bytes. */
  lemma ReadSpelled(p: string, cps: seq<CodePoint>, sps: seq<Spelling>, q: string)
    requires AllSpelled(cps, sps)
    ensures var x := PiecesText(SpelledPieces(cps, sps));
            StringAt(p + x + "\"" + q, |p|) == Token(Utf8All(cps), |p| + |x| + 1, true)
  {
    var ps := SpelledPieces(cps, sps);
    SpellingsDecodeAlike(cps, sps);
    SpelledAreLegal(cps, sps);
    LegalAreAccepted(ps, |q| + 1);
    ReadInContext(p, ps, q);
  }

  // ---- Code units ----

  function HexPieces(hs: seq<string>): seq<Piece> {
    if hs == [] then [] else [Hex(hs[0])] + HexPieces(hs[1..])
  }

  /** Each text is the four digits of the code unit at its place. */
  predicate AllSpellUnits(hs: seq<string>, us: seq<CodeUnit>) {
    |hs| == |us| && forall k :: 0 <= k < |hs| ==> SpellsUnit(hs[k], us[k])
  }

  /**
   Any sequence of 16-bit code units written as \uXXXX escapes means its greedy UTF-16
   decoding: the look-ahead joins exactly the surrogate pairs and swallows nothing else.
   */
  lemma {:induction false} EscapesAreUtf16(hs: seq<string>, us: seq<CodeUnit>)
    requires AllSpellUnits(hs, us)
    ensures Meaning(HexPieces(hs)) == Utf8All(Utf16(us))
    decreases |hs|
  {
    hide Hex4, Utf8, SpellsUnit, AllHex;
    if hs != [] {
      var ps := HexPieces(hs);
      UnitReads(hs[0], us[0]);
      EscapesAreUtf16(hs[1..], us[1..]);
      assert ps[1..] == HexPieces(hs[1..]);
      if |hs| > 1 {
        UnitReads(hs[1], us[1]);
        assert hs[1..][1..] == hs[2..] && us[1..][1..] == us[2..];
        assert ps[1] == Hex(hs[1]);
        EscapesAreUtf16(hs[2..], us[2..]);
        assert ps[2..] == HexPieces(hs[2..]);
      }
    }
  }

  lemma {:induction false} HexPiecesLegal(hs: seq<string>, us: seq<CodeUnit>)
    requires AllSpellUnits(hs, us)
    ensures AllLegal(HexPieces(hs))
    decreases |hs|
  {
    hide SpellsUnit, AllHex;
    if hs != [] {
      UnitReads(hs[0], us[0]);
      HexPiecesLegal(hs[1..], us[1..]);
      assert HexPieces(hs)[1..] == HexPieces(hs[1..]);
    }
  }

  /** The reader decodes the written escapes so, in any context. */
  lemma ReadEscapes(p: string, hs: seq<string>, us: seq<CodeUnit>, q: string)
    requires AllSpellUnits(hs, us)
    ensures var x := PiecesText(HexPieces(hs));
            StringAt(p + x + "\"" + q, |p|) == Token(Utf8All(Utf16(us)), |p| + |x| + 1, true)
  {
    hide Meaning, PiecesText, Utf16, Utf8All, AllLegal, AllAccepted, HexPieces, AllSpellUnits;
    EscapesAreUtf16(hs, us);
    HexPiecesLegal(hs, us);
    LegalAreAccepted(HexPieces(hs), |q| + 1);
    ReadInContext(p, HexPieces(hs), q);
  }

  /** A high half is not joined with an escape that has a character other than a digit. */
  lemma MalformedHalfIsNotJoined(h: string, u: int, h': string, k: nat, rest: seq<Piece>)
    requires SpellsUnit(h, u) && 0xD800 <= u <= 0xDBFF && |h'| == 4 && k < 4 && forall v :: !IsDigitOf(h'[k], v)
    ensures Meaning([Hex(h)] + ([Hex(h')] + rest)) == Utf8(0xFFFD) + Meaning([Hex(h')] + rest)
  {
    hide Hex4, SpellsUnit, IsDigitOf, Utf8, IsHex;
    UnitReads(h, u);
    HexDigitsAre(h'[k]);
    var ps := [Hex(h)] + ([Hex(h')] + rest);
    assert ps[0] == Hex(h) && ps[1] == Hex(h') && ps[1..] == [Hex(h')] + rest;
  }

  /** A \u with fewer than four characters of input after it is dropped, and they are read as they are. */
  lemma ShortEscapeIsDropped()
    ensures StringAt("\\u1\"", 0) == Token("1", 4, true)
  {
    var s := "\\u1\"";
    assert StringAt(s, 3) == Token("", 4, true);
    assert StringAt(s, 2) == Token("1", 4, true);
  }

  // ---- Bodies that no quote closes ----

  /** The pieces from i to the end of the input. */
  function OpenPieces(s: string, i: nat): seq<Piece>
    requires i <= |s| && PiecesAt(s, i).None?
    decreases |s| - i
  {
    if i == |s| then [] else [PieceAt(s, i)] + OpenPieces(s, i + |PieceText(PieceAt(s, i))|)
  }

  lemma OpenStep(s: string, i: nat, p: Piece, j: nat)
    requires i < |s| && PiecesAt(s, i).None? && p == PieceAt(s, i) && j == i + |PieceText(p)|
    ensures PiecesAt(s, j).None?
    ensures OpenPieces(s, i) == [p] + OpenPieces(s, j) && OpenPieces(s, i)[1..] == OpenPieces(s, j)
  {
    hide PieceText, PieceAt;
    assert ([p] + OpenPieces(s, j))[1..] == OpenPieces(s, j);
  }

  /** The two pieces from i, if the first is an escape. */
  lemma OpenTwo(s: string, i: nat, p: Piece)
    requires i < |s| && s[i] != '"' && PiecesAt(s, i).None? && p == PieceAt(s, i) && p.Hex?
    ensures |p.h| == 4 && i + 6 <= |s| && PiecesAt(s, i + 6).None?
    ensures var ps := OpenPieces(s, i);
            && ps[0] == p
            && (i + 6 == |s| ==> ps == [p])
            && (i + 6 < |s| ==>
                  && s[i + 6] != '"' && |ps| > 1 && ps[1] == PieceAt(s, i + 6)
                  && (ps[1].Hex? ==> i + 12 <= |s| && PiecesAt(s, i + 12).None? && ps[2..] == OpenPieces(s, i + 12)))
  {
    hide PiecesAt, PieceText, PieceAt, OpenPieces;
    HexLength(s, i, p);
    OpenStep(s, i, p, i + 6);
    var ps := OpenPieces(s, i);
    if i + 6 < |s| {
      NoQuote(s, i + 6);
      var q := PieceAt(s, i + 6);
      OpenStep(s, i + 6, q, i + 6 + |PieceText(q)|);
      assert ps[1] == ps[1..][0] && ps[2..] == ps[1..][1..];
      if q.Hex? { HexLength(s, i + 6, q); }
    } else {
      NoPieces(s);
      assert ps == [ps[0]] + ps[1..];
    }
  }

  /** A high half goes with the next piece exactly if the look-ahead sees it. */
  lemma OpenPair(s: string, i: nat, p: Piece)
    requires i < |s| && s[i] != '"' && PiecesAt(s, i).None? && p == PieceAt(s, i) && p.Hex?
    ensures |p.h| == 4 && i + 6 <= |s|
    ensures StartsPair(OpenPieces(s, i)) <==> IsHigh(Hex4(p.h)) && LowHalfAt(s, i + 6).Some?
    ensures StartsPair(OpenPieces(s, i)) ==>
              && i + 12 <= |s| && PiecesAt(s, i + 12).None?
              && OpenPieces(s, i)[2..] == OpenPieces(s, i + 12)
              && LowHalfAt(s, i + 6).value == Hex4(OpenPieces(s, i)[1].h)
  {
    hide Hex4, AllHex, PiecesAt, PieceText, PieceAt, OpenPieces, IsLow, IsHigh, LowHalfAt;
    OpenTwo(s, i, p);
    LookAhead(s, i + 6);
  }

  lemma HexLength(s: string, i: nat, p: Piece)
    requires i < |s| && s[i] != '"' && p == PieceAt(s, i) && p.Hex?
    ensures |p.h| == 4 && |PieceText(p)| == 6 && i + 6 <= |s|
  {}

  lemma NoPieces(s: string)
    ensures PiecesAt(s, |s|).None? && OpenPieces(s, |s|) == []
  {}

  /**
   Without a closing quote the reader fails at the end of the input, and what it has
   decoded, which get_string leaves in its output, is the meaning of the bytes up to there.
   */
  lemma {:induction false} UnclosedIsMeaning(s: string, i: nat)
    requires i <= |s| && PiecesAt(s, i).None?
    ensures PiecesText(OpenPieces(s, i)) == s[i..]
    ensures StringAt(s, i) == Token(Meaning(OpenPieces(s, i)), |s|, false)
    decreases |s| - i
  {
    hide PiecesAt, PieceAt, PieceText, UnitAt, Hex4, AllHex, Utf8, Alone;
    if i < |s| {
      NoQuote(s, i);
      var p := PieceAt(s, i);
      var j := i + |PieceText(p)|;
      OpenStep(s, i, p, j);
      UnclosedIsMeaning(s, j);
      OpenText(s, i, p, j);
      UnitOfPiece(s, i, p);
      if p.Hex? {
        OpenPair(s, i, p);
        if StartsPair(OpenPieces(s, i)) { UnclosedIsMeaning(s, i + 12); }
      }
    }
  }

  lemma NoQuote(s: string, i: nat)
    requires i < |s| && PiecesAt(s, i).None?
    ensures s[i] != '"'
  {}

  lemma OpenText(s: string, i: nat, p: Piece, j: nat)
    requires i < |s| && s[i] != '"' && p == PieceAt(s, i) && j == i + |PieceText(p)|
    ensures j <= |s| && s[i..] == PieceText(p) + s[j..]
  {
    hide PieceText;
    assert s[i..j] == PieceText(p);
  }

  // ---- UTF-8 validity ----

  predicate HexInEscapes(ps: seq<Piece>) {
    forall k :: 0 <= k < |ps| && ps[k].Hex? ==> IsUnit(ps[k].h)
  }

  lemma FeedAscii(x: string)
    requires forall k :: 0 <= k < |x| ==> x[k] as int < 0x80
    ensures Feed(Between, x) == Between
    decreases |x|
  {
    if x != "" { FeedAscii(x[1..]); }
  }

  /** A backslash is only possible between characters, and the digits of an escape are ASCII. */
  lemma FeedEscape(q: Utf8State, h: string)
    requires IsUnit(h) && Feed(q, PieceText(Hex(h))) != Broken
    ensures q == Between && Feed(q, PieceText(Hex(h))) == Between
  {
    var x := PieceText(Hex(h));
    if q == Between {
      FeedAscii(x);
    } else {
      FeedBroken(x[1..]);
    }
  }

  lemma AloneKeepsState(q: Utf8State, p: Piece)
    requires p.Hex? ==> IsUnit(p.h)
    requires Feed(q, PieceText(p)) != Broken
    ensures Feed(q, Alone(p)) == Feed(q, PieceText(p))
  {
    match p {
      case Raw(c) =>
      case Esc(c) => FeedTwo(q, PieceText(p)); FeedOne(q, Unescape(c));
      case Hex(h) =>
        FeedEscape(q, h);
        Utf8WellFormed(if IsHigh(Hex4(h)) || IsLow(Hex4(h)) then REPLACEMENT else Hex4(h));
      case Stub => FeedTwo(q, PieceText(p));
    }
  }

  /** Pieces and their meaning drive the UTF-8 automaton through the same states. */
  lemma {:induction false} MeaningKeepsState(q: Utf8State, ps: seq<Piece>)
    requires HexInEscapes(ps)
    requires Feed(q, PiecesText(ps)) != Broken
    ensures Feed(q, Meaning(ps)) == Feed(q, PiecesText(ps))
    decreases |ps|
  {
    hide PieceText, Alone, Advance, Utf8;
    if ps != [] {
      var q1 := Feed(q, PieceText(ps[0]));
      FeedConcat(q, PieceText(ps[0]), PiecesText(ps[1..]));
      FeedBroken(PiecesText(ps[1..]));
      if StartsPair(ps) {
        FeedConcat(q1, PieceText(ps[1]), PiecesText(ps[2..]));
        FeedBroken(PiecesText(ps[2..]));
        assert ps[1..][0] == ps[1] && ps[1..][1..] == ps[2..];
        FeedEscape(q, ps[0].h);
        FeedEscape(q1, ps[1].h);
        MeaningKeepsState(q1, ps[2..]);
        var cp := Join(Hex4(ps[0].h), Hex4(ps[1].h));
        Utf8WellFormed(cp);
        FeedConcat(q, Utf8(cp), Meaning(ps[2..]));
      } else {
        MeaningKeepsState(q1, ps[1..]);
        AloneKeepsState(q, ps[0]);
        FeedConcat(q, Alone(ps[0]), Meaning(ps[1..]));
      }
    }
  }

  /** Reading a valid UTF-8 body whose \u escapes all have hex digits gives valid UTF-8. */
  lemma ReadingKeepsUtf8(s: string, i: nat)
    requires i <= |s| && PiecesAt(s, i).Some?
    requires HexInEscapes(PiecesAt(s, i).value.pieces)
    requires Accepts(s[i..StringAt(s, i).end - 1])
    ensures Accepts(StringAt(s, i).text)
  {
    hide PiecesAt, StringAt, PiecesText, Meaning, Feed;
    StringIsMeaning(s, i);
    PiecesSound(s, i);
    MeaningKeepsState(Between, PiecesAt(s, i).value.pieces);
  }
}
