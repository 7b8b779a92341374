/**
 JSON string bodies: what read_string_raw computes (StringAt) and, independently, what a
 body means as a sequence of pieces (PiecesAt, Meaning).
 */
module Strings {
  import opened Bytes
  import opened Unicode

  // ---- Hexadecimal ----

  predicate IsHex(c: char) {
    IsDigit(c) || 'a' <= c <= 'f' || 'A' <= c <= 'F'
  }

  /** The reader gives any other character the value 0. */
  function HexValue(c: char): (v: int)
    ensures 0 <= v < 16
  {
    if IsDigit(c) then c as int - '0' as int
    else if 'a' <= c <= 'f' then c as int - 'a' as int + 10
    else if 'A' <= c <= 'F' then c as int - 'A' as int + 10
    else 0
  }

  predicate AllHex(h: string) {
    forall k :: 0 <= k < |h| ==> IsHex(h[k])
  }

  function Hex4(h: string): CodeUnit
    requires |h| == 4
  {
    ((HexValue(h[0]) * 16 + HexValue(h[1])) * 16 + HexValue(h[2])) * 16 + HexValue(h[3])
  }

  // ---- The reader, as a function of the input and a position ----

  /** One decoding step: the bytes it appends and the position after it. */
  datatype Unit = Unit(out: string, end: nat)

  /** A whole string body: its text, the position after it, and whether a quote closed it. */
  datatype Token = Token(text: string, end: nat, closed: bool)

  function Unescape(c: char): char {
    match c
    case 'b' => 8 as char
    case 'f' => 12 as char
    case 'n' => '\n'
    case 'r' => '\r'
    case 't' => '\t'
    case _ => c
  }

  /** The low half of a pair that is written as an escape at i, if there is one. */
  function LowHalfAt(s: string, i: nat): (r: Option<int>)
    ensures r.Some? ==> IsLow(r.value)
  {
    if i + 6 <= |s| && s[i] == '\\' && s[i + 1] == 'u' && AllHex(s[i + 2..i + 6])
       && IsLow(Hex4(s[i + 2..i + 6]))
    then Some(Hex4(s[i + 2..i + 6]))
    else None
  }

  /** A \u escape whose four digits start at i. */
  function EscapeAt(s: string, i: nat): (r: Unit)
    requires i + 4 <= |s|
    ensures i < r.end <= |s|
  {
    var cp := Hex4(s[i..i + 4]);
    if IsHigh(cp) then
      match LowHalfAt(s, i + 4)
      case Some(lo) => Unit(Utf8(Join(cp, lo)), i + 10)
      case None => Unit(Utf8(REPLACEMENT), i + 4)
    else if IsLow(cp) then Unit(Utf8(REPLACEMENT), i + 4)
    else Unit(Utf8(cp), i + 4)
  }

  function UnitAt(s: string, i: nat): (r: Unit)
    requires i < |s|
    ensures i < r.end <= |s|
  {
    if s[i] == '\\' && i + 1 < |s| then
      if s[i + 1] != 'u' then Unit([Unescape(s[i + 1])], i + 2)
      else if i + 6 <= |s| then EscapeAt(s, i + 2)
      else Unit("", i + 2)
    else Unit([s[i]], i + 1)
  }

  /** Reads the body that starts at i, just after an opening quote. */
  function StringAt(s: string, i: nat): (t: Token)
    requires i <= |s|
    ensures i <= t.end <= |s|
    ensures t.closed ==> i < t.end
    decreases |s| - i
  {
    if i == |s| then Token("", i, false)
    else if s[i] == '"' then Token("", i + 1, true)
    else
      var u := UnitAt(s, i);
      var rest := StringAt(s, u.end);
      Token(u.out + rest.text, rest.end, rest.closed)
  }

  // ---- Pieces ----

  /**
   The written units of a string body. A Stub is a \u that has fewer than four bytes of
   input after it: the reader drops it and goes on with what follows.
   */
  datatype Piece = Raw(c: char) | Esc(c: char) | Hex(h: string) | Stub

  function PieceText(p: Piece): (x: string)
    ensures x != ""
  {
    match p
    case Raw(c) => [c]
    case Esc(c) => ['\\', c]
    case Hex(h) => "\\u" + h
    case Stub => "\\u"
  }

  function PiecesText(ps: seq<Piece>): string {
    if ps == [] then "" else PieceText(ps[0]) + PiecesText(ps[1..])
  }

  /** What the reader accepts when `left` bytes of input follow the piece. */
  predicate Accepted(p: Piece, left: nat) {
    match p
    case Raw(c) => c != '"' && c != '\\'
    case Esc(c) => c != 'u'
    case Hex(h) => |h| == 4
    case Stub => left < 4
  }

  predicate AllAccepted(ps: seq<Piece>, left: nat) {
    ps == []
    || (Accepted(ps[0], |PiecesText(ps[1..])| + left) && AllAccepted(ps[1..], left))
  }

  /** The characters of section 7 of RFC 8259. */
  predicate Legal(p: Piece) {
    match p
    case Raw(c) => c != '"' && c != '\\' && c as int >= 0x20
    case Esc(c) => c in "\"\\/bfnrt"
    case Hex(h) => |h| == 4 && AllHex(h)
    case Stub => false
  }

  predicate AllLegal(ps: seq<Piece>) {
    forall k :: 0 <= k < |ps| ==> Legal(ps[k])
  }

  predicate StartsPair(ps: seq<Piece>) {
    && |ps| > 1
    && ps[0].Hex? && |ps[0].h| == 4 && IsHigh(Hex4(ps[0].h))
    && ps[1].Hex? && |ps[1].h| == 4 && AllHex(ps[1].h) && IsLow(Hex4(ps[1].h))
  }

  /** The bytes one piece stands for when it is not half of a pair. */
  function Alone(p: Piece): string {
    match p
    case Raw(c) => [c]
    case Esc(c) => [Unescape(c)]
    case Hex(h) =>
      if |h| != 4 then ""
      else if IsHigh(Hex4(h)) || IsLow(Hex4(h)) then Utf8(REPLACEMENT)
      else Utf8(Hex4(h))
    case Stub => ""
  }

  /** The decoded string. */
  function Meaning(ps: seq<Piece>): string {
    if ps == [] then ""
    else if StartsPair(ps) then
      Utf8(Join(Hex4(ps[0].h), Hex4(ps[1].h))) + Meaning(ps[2..])
    else Alone(ps[0]) + Meaning(ps[1..])
  }

  datatype Written = Written(pieces: seq<Piece>, end: nat)

  function PieceAt(s: string, i: nat): (p: Piece)
    requires i < |s| && s[i] != '"'
    ensures i + |PieceText(p)| <= |s|
    ensures At(s, i, PieceText(p))
  {
    if s[i] == '\\' && i + 1 < |s| then
      if s[i + 1] != 'u' then Esc(s[i + 1])
      else if i + 6 <= |s| then
        assert s[i..i + 6] == "\\u" + s[i + 2..i + 6];
        Hex(s[i + 2..i + 6])
      else Stub
    else Raw(s[i])
  }

  /** Splits the body that starts at i into pieces, if a quote closes it. */
  function PiecesAt(s: string, i: nat): (w: Option<Written>)
    requires i <= |s|
    ensures w.Some? ==> i < w.value.end <= |s|
    decreases |s| - i
  {
    if i == |s| then None
    else if s[i] == '"' then Some(Written([], i + 1))
    else
      var p := PieceAt(s, i);
      match PiecesAt(s, i + |PieceText(p)|)
      case None => None
      case Some(w) => Some(Written([p] + w.pieces, w.end))
  }

  // ---- The reader computes the meaning ----

  /** The look-ahead of the reader sees a low half exactly when the next piece is one. */
  lemma LookAhead(s: string, i: nat)
    requires i <= |s|
    ensures LowHalfAt(s, i).Some? <==>
              i < |s| && s[i] != '"' && PieceAt(s, i).Hex? && AllHex(PieceAt(s, i).h)
              && |PieceAt(s, i).h| == 4 && IsLow(Hex4(PieceAt(s, i).h))
    ensures LowHalfAt(s, i).Some? ==> LowHalfAt(s, i).value == Hex4(PieceAt(s, i).h)
  {}

  /**
   read_string_raw accepts exactly the bodies that split into pieces, stops where they end,
   and returns their meaning.
   */
  lemma {:induction false} StringIsMeaning(s: string, i: nat)
    requires i <= |s|
    ensures StringAt(s, i).closed <==> PiecesAt(s, i).Some?
    ensures PiecesAt(s, i).Some? ==>
              StringAt(s, i).end == PiecesAt(s, i).value.end
              && StringAt(s, i).text == Meaning(PiecesAt(s, i).value.pieces)
    decreases |s| - i
  {
    hide PieceText, UnitAt, PieceAt, Utf8, Alone;
    if i < |s| && s[i] != '"' {
      var p, u := PieceAt(s, i), UnitAt(s, i);
      var j := i + |PieceText(p)|;
      StringIsMeaning(s, u.end);
      if u.end == j {
        UnpairedUnit(s, i);
        PiecesStep(s, i, p, j);
        if PiecesAt(s, i).Some? {
          var rest := PiecesAt(s, j).value.pieces;
          assert ([p] + rest)[1..] == rest;
        }
      } else {
        PairedUnit(s, i);
      }
    }
  }

  /** Splitting peels off the piece at i. */
  lemma PiecesStep(s: string, i: nat, p: Piece, j: nat)
    requires i < |s| && s[i] != '"' && p == PieceAt(s, i) && j == i + |PieceText(p)|
    ensures PiecesAt(s, i).Some? <==> PiecesAt(s, j).Some?
    ensures PiecesAt(s, i).Some? ==>
              PiecesAt(s, i).value == Written([p] + PiecesAt(s, j).value.pieces, PiecesAt(s, j).value.end)
  {}

  /** The first piece of a split body is the piece at its position. */
  lemma FirstPiece(s: string, i: nat)
    requires i <= |s| && PiecesAt(s, i).Some?
    ensures i < |s|
    ensures PiecesAt(s, i).value.pieces == [] <==> s[i] == '"'
    ensures s[i] != '"' ==> PiecesAt(s, i).value.pieces[0] == PieceAt(s, i)
  {}

  /** One decoding step in terms of the piece it starts at. */
  lemma UnitOfPiece(s: string, i: nat, p: Piece)
    requires i < |s| && s[i] != '"' && p == PieceAt(s, i)
    ensures !p.Hex? ==> UnitAt(s, i) == Unit(Alone(p), i + |PieceText(p)|)
    ensures p.Hex? ==> |p.h| == 4 && |PieceText(p)| == 6 && i + 6 <= |s|
    ensures p.Hex? && IsHigh(Hex4(p.h)) && LowHalfAt(s, i + 6).Some? ==>
              UnitAt(s, i) == Unit(Utf8(Join(Hex4(p.h), LowHalfAt(s, i + 6).value)), i + 12)
    ensures p.Hex? && !(IsHigh(Hex4(p.h)) && LowHalfAt(s, i + 6).Some?) ==>
              UnitAt(s, i) == Unit(Alone(p), i + 6)
  {
    if p.Hex? {
      assert UnitAt(s, i) == EscapeAt(s, i + 2);
    }
  }

  lemma UnpairedUnit(s: string, i: nat)
    requires i < |s| && s[i] != '"'
    requires UnitAt(s, i).end == i + |PieceText(PieceAt(s, i))|
    ensures UnitAt(s, i).out == Alone(PieceAt(s, i))
    ensures PiecesAt(s, i).Some? ==> !StartsPair(PiecesAt(s, i).value.pieces)
  {
    var p := PieceAt(s, i);
    var j := i + |PieceText(p)|;
    UnitOfPiece(s, i, p);
    if PiecesAt(s, i).Some? {
      PiecesStep(s, i, p, j);
      FirstPiece(s, j);
      LookAhead(s, j);
      var ps := PiecesAt(s, i).value.pieces;
      assert ps[0] == p && ps[1..] == PiecesAt(s, j).value.pieces;
    }
  }

  lemma TwoPieces(s: string, i: nat, p: Piece, q: Piece)
    requires i + 6 < |s| && s[i] != '"' && s[i + 6] != '"'
    requires p == PieceAt(s, i) && |PieceText(p)| == 6
    requires q == PieceAt(s, i + 6) && |PieceText(q)| == 6
    ensures i + 12 <= |s|
    ensures PiecesAt(s, i).Some? <==> PiecesAt(s, i + 12).Some?
    ensures PiecesAt(s, i).Some? ==>
              PiecesAt(s, i).value == Written([p, q] + PiecesAt(s, i + 12).value.pieces, PiecesAt(s, i + 12).value.end)
  {
    PiecesStep(s, i, p, i + 6);
    PiecesStep(s, i + 6, q, i + 12);
    if PiecesAt(s, i).Some? {
      var rest := PiecesAt(s, i + 12).value.pieces;
      assert [p] + ([q] + rest) == [p, q] + rest;
    }
  }

  lemma PairedUnit(s: string, i: nat)
    requires i < |s| && s[i] != '"'
    requires UnitAt(s, i).end != i + |PieceText(PieceAt(s, i))|
    ensures i + 12 <= |s| && UnitAt(s, i).end == i + 12
    ensures PiecesAt(s, i).Some? <==> PiecesAt(s, i + 12).Some?
    ensures PiecesAt(s, i).Some? ==>
              var ps := PiecesAt(s, i).value;
              && StartsPair(ps.pieces)
              && ps.end == PiecesAt(s, i + 12).value.end
              && ps.pieces[2..] == PiecesAt(s, i + 12).value.pieces
              && UnitAt(s, i).out == Utf8(Join(Hex4(ps.pieces[0].h), Hex4(ps.pieces[1].h)))
  {
    var p := PieceAt(s, i);
    UnitOfPiece(s, i, p);
    LookAhead(s, i + 6);
    TwoPieces(s, i, p, PieceAt(s, i + 6));
  }

  // ---- Splitting inverts writing ----

  /** Splitting loses nothing and yields only accepted pieces. */
  lemma {:induction false} PiecesSound(s: string, i: nat)
    requires i <= |s| && PiecesAt(s, i).Some?
    ensures var w := PiecesAt(s, i).value;
            && At(s, i, PiecesText(w.pieces))
            && w.end == i + |PiecesText(w.pieces)| + 1 && s[w.end - 1] == '"'
            && AllAccepted(w.pieces, |s| - w.end + 1)
    decreases |s| - i
  {
    hide PieceText, Accepted, PieceAt;
    if s[i] != '"' {
      var p := PieceAt(s, i);
      var j := i + |PieceText(p)|;
      PiecesStep(s, i, p, j);
      PiecesSound(s, j);
      PieceAccepted(s, i, p);
      PiecesCons(s, i, p, PiecesAt(s, j).value.pieces);
    }
  }

  lemma PiecesCons(s: string, i: nat, p: Piece, rest: seq<Piece>)
    ensures PiecesText([p] + rest) == PieceText(p) + PiecesText(rest)
    ensures At(s, i, PiecesText([p] + rest)) <==> At(s, i, PieceText(p)) && At(s, i + |PieceText(p)|, PiecesText(rest))
    ensures forall left: nat :: AllAccepted([p] + rest, left) <==>
              Accepted(p, |PiecesText(rest)| + left) && AllAccepted(rest, left)
  {
    hide PieceText, Accepted;
    assert ([p] + rest)[1..] == rest;
    AtSplit(s, i, PieceText(p), PiecesText(rest));
  }

  lemma PieceAccepted(s: string, i: nat, p: Piece)
    requires i < |s| && s[i] != '"' && p == PieceAt(s, i) && i + |PieceText(p)| < |s|
    ensures Accepted(p, |s| - i - |PieceText(p)|)
  {}

  lemma PieceExact(s: string, i: nat, p: Piece)
    requires At(s, i, PieceText(p)) && i + |PieceText(p)| < |s|
    requires Accepted(p, |s| - i - |PieceText(p)|)
    ensures s[i] != '"' && PieceAt(s, i) == p
  {
    AtChars(s, i, PieceText(p));
    match p {
      case Raw(c) => assert s[i] == PieceText(p)[0];
      case Esc(c) => assert s[i] == PieceText(p)[0] && s[i + 1] == PieceText(p)[1];
      case Hex(h) =>
        assert s[i] == PieceText(p)[0] && s[i + 1] == PieceText(p)[1];
        assert s[i + 2..i + 6] == s[i..i + 6][2..] == h;
      case Stub => assert s[i] == PieceText(p)[0] && s[i + 1] == PieceText(p)[1];
    }
  }

  /** Accepted pieces that are written at i, before a quote, are split off unchanged. */
  lemma {:induction false} PiecesExact(s: string, i: nat, ps: seq<Piece>, e: nat)
    requires At(s, i, PiecesText(ps)) && e == i + |PiecesText(ps)| < |s| && s[e] == '"'
    requires AllAccepted(ps, |s| - e)
    ensures PiecesAt(s, i) == Some(Written(ps, e + 1))
    decreases |ps|
  {
    hide PieceText, Accepted, PieceAt;
    if ps != [] {
      var p, rest := ps[0], ps[1..];
      var j := i + |PieceText(p)|;
      assert ps == [p] + rest;
      assert At(s, i, PieceText(p)) && At(s, j, PiecesText(rest)) && Accepted(p, |s| - j)
             && AllAccepted(rest, |s| - e) && e == j + |PiecesText(rest)| by {
        PiecesCons(s, i, p, rest);
      }
      PiecesExact(s, j, rest, e);
      assert s[i] != '"' && PieceAt(s, i) == p by { PieceExact(s, i, p); }
      PiecesStep(s, i, p, j);
    }
  }

  lemma {:induction false} LegalAreAccepted(ps: seq<Piece>, left: nat)
    requires AllLegal(ps)
    ensures AllAccepted(ps, left)
    decreases |ps|
  {
    if ps != [] {
      LegalAreAccepted(ps[1..], left);
      assert Legal(ps[0]);
    }
  }

  lemma {:induction false} AcceptedWithLess(ps: seq<Piece>, left: nat, less: nat)
    requires AllAccepted(ps, left) && less <= left
    ensures AllAccepted(ps, less)
    decreases |ps|
  {
    if ps != [] {
      AcceptedWithLess(ps[1..], left, less);
    }
  }
}
