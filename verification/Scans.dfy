/**
 The scanners on any bytes, malformed or truncated bodies included: a scan hits exactly
 where a path of complete members leads to a value that starts as wanted, and reaches the
 closing brace exactly when the body starts with a complete object that has no such member.
 */
module Scans {
  import opened Bytes
  import opened Strings
  import opened Numbers
  import opened Grammar
  import opened GrammarLaws
  import opened Values
  import opened StringLaws
  import opened Walker
  import opened Lookup

  /** The members passed on the way to a value, and the name of the one it belongs to. */
  datatype Way = Way(ms: seq<Member>, pre: string, name: seq<Piece>, mid: string, gap: string)

  /** Members, each with the comma after it. */
  function PassedText(ms: seq<Member>): string {
    if ms == [] then "" else MemberText(ms[0]) + "," + PassedText(ms[1..])
  }

  function WayText(w: Way): string {
    PassedText(w.ms) + (w.pre + StrText(w.name) + w.mid + ":" + w.gap)
  }

  predicate Matches(m: Member, key: string, kind: Kind) {
    Meaning(m.name) == key && IsKind(kind, m.item.v)
  }

  /** Complete members that do not match, when `left` bytes follow them. */
  predicate Passes(ms: seq<Member>, left: nat, key: string, kind: Kind) {
    ms == []
    || (&& LenientMember(ms[0], 1 + |PassedText(ms[1..])| + left)
        && !Matches(ms[0], key, kind)
        && Passes(ms[1..], left, key, kind))
  }

  /** The name is the key, and the bytes at `at` start a value of the kind. */
  predicate Arrives(s: string, at: nat, w: Way, key: string, kind: Kind)
    requires at <= |s|
  {
    && AllIn(w.pre, Space) && AllIn(w.mid, Space) && AllIn(w.gap, Space)
    && AllAccepted(w.name, |w.mid| + 2 + |w.gap| + |s| - at)
    && Meaning(w.name) == key && at < |s| && Starts(kind, s[at])
  }

  /** From i, just after the opening brace, w leads to `at`. */
  predicate Leads(s: string, i: nat, w: Way, at: nat, key: string, kind: Kind) {
    && At(s, i, WayText(w)) && at == i + |WayText(w)|
    && Passes(w.ms, |w.pre + StrText(w.name) + w.mid + ":" + w.gap| + |s| - at, key, kind)
    && Arrives(s, at, w, key, kind)
  }

  lemma StartsNotSpace(kind: Kind, c: char)
    requires Starts(kind, c)
    ensures !In(c, Space)
  {}

  /** The name at i, written before a value at `at`. */
  lemma NameFound(s: string, i: nat, w: Way, at: nat, key: string, kind: Kind)
    requires w.ms == [] && Leads(s, i, w, at, key, kind)
    ensures AfterName(s, i).Some? && NameAt(s, i) == key && SkipWs(s, AfterName(s, i).value) == at
  {
    hide At, StrText, Run, StringAt, PiecesAt, Meaning, AllAccepted, In;
    var x := w.pre + StrText(w.name) + w.mid + ":" + w.gap;
    assert PassedText(w.ms) + x == x;
    AtFive(s, i, w.pre, StrText(w.name), w.mid, ":", w.gap);
    var e := i + |w.pre| + |StrText(w.name)|;
    var k := e + |w.mid|;
    AtColon(s, k);
    var m := Member(w.pre, w.name, w.mid, Item("", Word(""), ""));
    assert AllAccepted(w.name, |s| - e + 1);
    NameExact(s, i, m, e, k);
    StringIsMeaning(s, i + |w.pre| + 1);
    StartsNotSpace(kind, s[at]);
    RunExact(s, k + 1, w.gap, Space);
  }

  lemma PassedStep(s: string, i: nat, w: Way)
    requires w.ms != [] && At(s, i, WayText(w))
    ensures var n := i + |MemberText(w.ms[0])|;
            && At(s, i, MemberText(w.ms[0])) && At(s, n, ",")
            && At(s, n + 1, WayText(w.(ms := w.ms[1..])))
            && |WayText(w)| == |MemberText(w.ms[0])| + 1 + |WayText(w.(ms := w.ms[1..]))|
  {
    hide At, MemberText, StrText;
    var a, b := MemberText(w.ms[0]), WayText(w.(ms := w.ms[1..]));
    assert WayText(w) == a + ("," + b);
    AtSplit(s, i, a, "," + b);
    AtSplit(s, i + |a|, ",", b);
  }

  /** A scan follows the way to its end. */
  lemma {:induction false} ScanFollows(s: string, i: nat, w: Way, at: nat, key: string, kind: Kind)
    requires i <= |s| && Leads(s, i, w, at, key, kind)
    ensures ScanMembers(s, i, key, kind) == Hit(at)
    decreases |w.ms|
  {
    hide At, MemberText, StrText, WayText, AfterName, NameAt, SkipEnd, SkipWs, Starts, IsKind, Meaning, LenientMember,
         AllAccepted, ParseMember, ParseValue;
    if w.ms == [] {
      NameFound(s, i, w, at, key, kind);
    } else {
      var m, rest := w.ms[0], w.(ms := w.ms[1..]);
      var n := i + |MemberText(m)|;
      PassedStep(s, i, w);
      AtComma(s, n);
      PassesLength(s, i, w, at);
      MemberExact(s, i, m, n);
      MemberSeen(s, i);
      var j := SkipWs(s, AfterName(s, i).value);
      if j < |s| { StartsIsKind(s, j, kind); } else { NothingAtEnd(s); }
      ScanFollows(s, n + 1, rest, at, key, kind);
    }
  }

  lemma PassesLength(s: string, i: nat, w: Way, at: nat)
    requires w.ms != [] && at == i + |WayText(w)| <= |s|
    ensures 1 + |PassedText(w.ms[1..])| + (|w.pre + StrText(w.name) + w.mid + ":" + w.gap| + |s| - at)
            == |s| - i - |MemberText(w.ms[0])|
  {
    hide MemberText, StrText;
  }

  /** The member at i is the one that a scan looks for. */
  predicate AtValue(s: string, i: nat, key: string, kind: Kind)
    requires i <= |s| && AfterName(s, i).Some? && SkipWs(s, i) < |s|
  {
    var at := SkipWs(s, AfterName(s, i).value);
    NameAt(s, i) == key && at < |s| && Starts(kind, s[at])
  }

  lemma HitHasName(s: string, i: nat, key: string, kind: Kind)
    requires i <= |s| && ScanMembers(s, i, key, kind).Hit?
    ensures AfterName(s, i).Some? && SkipWs(s, i) < |s|
  {
    hide StringAt, Starts, SkipEnd, Run;
  }

  lemma HitGoesOn(s: string, i: nat, key: string, kind: Kind)
    requires i <= |s| && ScanMembers(s, i, key, kind).Hit?
    requires AfterName(s, i).Some? && SkipWs(s, i) < |s| && !AtValue(s, i, key, kind)
    ensures ParseMember(s, i).Some?
    ensures var n := ParseMember(s, i).value.end;
            n < |s| && s[n] == ',' && ScanMembers(s, n + 1, key, kind) == ScanMembers(s, i, key, kind)
  {
    hide AfterName, NameAt, SkipEnd, SkipWs, Starts, ParseMember;
    ScanHasMember(s, i);
  }

  lemma HasPieces(s: string, i: nat)
    requires i <= |s| && StringAt(s, i).closed
    ensures PiecesAt(s, i).Some? && PiecesAt(s, i).value.end == StringAt(s, i).end
    ensures Meaning(PiecesAt(s, i).value.pieces) == StringAt(s, i).text
  {
    StringIsMeaning(s, i);
  }

  /** A member that a scan goes past is complete. */
  lemma ScanHasMember(s: string, i: nat)
    requires i <= |s| && AfterName(s, i).Some? && SkipEnd(s, AfterName(s, i).value).Some?
    ensures ParseMember(s, i).Some?
    ensures ParseMember(s, i).value.end == SkipWs(s, SkipEnd(s, AfterName(s, i).value).value)
  {
    hide ParseMember, ParseItem, ParseValue, SkipWs;
    MemberByName(s, i);
    ItemByValue(s, AfterName(s, i).value);
  }

  lemma LastStep(s: string, i: nat, key: string, kind: Kind) returns (w: Way)
    requires i <= |s| && ScanMembers(s, i, key, kind).Hit?
    requires AfterName(s, i).Some? && SkipWs(s, i) < |s| && AtValue(s, i, key, kind)
    ensures Leads(s, i, w, ScanMembers(s, i, key, kind).at, key, kind)
  {
    hide At, Run, StringAt, PiecesAt, PiecesText, Meaning, AllAccepted, In, Starts;
    var j := SkipWs(s, i);
    var v := AfterName(s, i).value;
    var at := SkipWs(s, v);
    HasPieces(s, j + 1);
    var e := PiecesAt(s, j + 1).value.end;
    w := Way([], s[i..j], PiecesAt(s, j + 1).value.pieces, s[e..v - 1], s[v..at]);
    PiecesSound(s, j + 1);
    AtBracketed(s, j, "\"", PiecesText(w.name), "\"");
    AtSlice(s, i, j);
    AtSlice(s, e, v - 1);
    AtChar(s, v - 1, ":");
    AtSlice(s, v, at);
    AtFive(s, i, w.pre, StrText(w.name), w.mid, ":", w.gap);
    var x := w.pre + StrText(w.name) + w.mid + ":" + w.gap;
    assert PassedText(w.ms) + x == x;
  }

  /** The way that a scan takes to its hit. */
  lemma {:induction false} WayLeads(s: string, i: nat, key: string, kind: Kind) returns (w: Way)
    requires i <= |s| && ScanMembers(s, i, key, kind).Hit?
    ensures Leads(s, i, w, ScanMembers(s, i, key, kind).at, key, kind)
    decreases |s| - i
  {
    hide At, MemberText, StrText, WayText, AfterName, NameAt, SkipEnd, SkipWs, Starts, IsKind, Meaning, LenientMember,
         AllAccepted, ParseMember, ParseValue, Leads;
    HitHasName(s, i, key, kind);
    if AtValue(s, i, key, kind) {
      w := LastStep(s, i, key, kind);
    } else {
      HitGoesOn(s, i, key, kind);
      MemberSound(s, i);
      MemberSeen(s, i);
      var at := SkipWs(s, AfterName(s, i).value);
      if at < |s| { StartsIsKind(s, at, kind); } else { NothingAtEnd(s); }
      var p := ParseMember(s, i).value;
      var rest := WayLeads(s, p.end + 1, key, kind);
      AtChar(s, p.end, ",");
      w := rest.(ms := [p.t] + rest.ms);
      StepLeads(s, i, p.t, rest, ScanMembers(s, i, key, kind).at, key, kind);
    }
  }

  lemma StepLeads(s: string, i: nat, m: Member, rest: Way, at: nat, key: string, kind: Kind)
    requires At(s, i, MemberText(m)) && At(s, i + |MemberText(m)|, ",")
    requires Leads(s, i + |MemberText(m)| + 1, rest, at, key, kind)
    requires !Matches(m, key, kind) && LenientMember(m, |s| - i - |MemberText(m)|)
    ensures Leads(s, i, rest.(ms := [m] + rest.ms), at, key, kind)
  {
    hide At, MemberText, StrText, Matches, LenientMember, Arrives;
    var w := rest.(ms := [m] + rest.ms);
    assert w.ms[1..] == rest.ms;
    assert WayText(w) == MemberText(m) + ("," + WayText(rest));
    AtSplit(s, i + |MemberText(m)|, ",", WayText(rest));
    AtSplit(s, i, MemberText(m), "," + WayText(rest));
    assert |s| >= i + |WayText(w)| by { AtFits(s, i, WayText(w)); }
    PassesLength(s, i, w, at);
    assert Arrives(s, at, w, key, kind) by { SameArrival(s, at, w, rest, key, kind); }
  }

  lemma AtFits(s: string, i: nat, x: string)
    requires At(s, i, x)
    ensures i + |x| <= |s|
  {}

  lemma SameArrival(s: string, at: nat, w: Way, rest: Way, key: string, kind: Kind)
    requires at <= |s| && w == rest.(ms := w.ms) && Arrives(s, at, rest, key, kind)
    ensures Arrives(s, at, w, key, kind)
  {}

  /** After white space and the opening brace, w leads to `at`. */
  predicate Reaches(s: string, space: string, w: Way, at: nat, key: string, kind: Kind) {
    AllIn(space, Space) && At(s, 0, space + "{") && Leads(s, |space| + 1, w, at, key, kind)
  }

  /**
   On any bytes, a getter finds a value at `at` exactly when complete members that do not
   match, and then the key as a name, lead from the opening brace to it.
   */
  lemma ScanHitsIff(s: string, key: string, kind: Kind, at: nat)
    ensures ScanObject(s, key, kind) == Hit(at) <==> exists space, w :: Reaches(s, space, w, at, key, kind)
  {
    hide Reaches, ScanObject;
    if ScanObject(s, key, kind) == Hit(at) {
      var space, w := HitReaches(s, key, kind);
    }
    if space, w :| Reaches(s, space, w, at, key, kind) {
      ReachedIsHit(s, space, w, at, key, kind);
    }
  }

  lemma HitReaches(s: string, key: string, kind: Kind) returns (space: string, w: Way)
    requires ScanObject(s, key, kind).Hit?
    ensures Reaches(s, space, w, ScanObject(s, key, kind).at, key, kind)
  {
    hide At, Leads, ScanMembers, Run;
    var j := SkipWs(s, 0);
    space := s[0..j];
    AtSlice(s, 0, j);
    AtChar(s, j, "{");
    AtSplit(s, 0, space, "{");
    w := WayLeads(s, j + 1, key, kind);
  }

  lemma ReachedIsHit(s: string, space: string, w: Way, at: nat, key: string, kind: Kind)
    requires Reaches(s, space, w, at, key, kind)
    ensures ScanObject(s, key, kind) == Hit(at)
  {
    hide At, Leads, ScanMembers, Run;
    var j := SkipWs(s, 0);
    AtSplit(s, 0, space, "{");
    OpenedAt(s, space);
    ScanFollows(s, j + 1, w, at, key, kind);
    NotClosed(s, j + 1, key, kind);
  }

  lemma OpenedAt(s: string, space: string)
    requires AllIn(space, Space) && At(s, 0, space) && At(s, |space|, "{")
    ensures SkipWs(s, 0) == |space| < |s| && s[|space|] == '{'
  {
    FirstAt(s, |space|, "{");
    RunExact(s, 0, space, Space);
  }

  lemma NotClosed(s: string, i: nat, key: string, kind: Kind)
    requires i <= |s| && ScanMembers(s, i, key, kind) != Bad
    ensures SkipWs(s, i) < |s| && s[SkipWs(s, i)] == '"'
  {}

  lemma {:induction false} MissParses(s: string, i: nat, key: string, kind: Kind)
    requires i <= |s| && ScanMembers(s, i, key, kind) == Miss
    ensures ParseMembers(s, i).Some?
    decreases |s| - i
  {
    hide AfterName, NameAt, SkipEnd, SkipWs, Starts, ParseMember;
    ScanHasMember(s, i);
    var n := ParseMember(s, i).value.end;
    if s[n] == ',' { MissParses(s, n + 1, key, kind); }
  }

  /**
   On any bytes, a getter reaches the closing brace exactly when the body starts with a
   complete object that is not empty and has no matching member.
   */
  lemma ScanMissesIff(s: string, key: string, kind: Kind)
    ensures ScanObject(s, key, kind) == Miss
            <==> IsObject(s) && Parse(s).value.members != [] && Find(Parse(s).value, key, kind).None?
  {
    hide Find, ScanObject, Parse;
    if ScanObject(s, key, kind) == Miss { MissIsObject(s, key, kind); }
    if IsObject(s) { ScanIsFind(s, key, kind); }
  }

  lemma MissIsObject(s: string, key: string, kind: Kind)
    requires ScanObject(s, key, kind) == Miss
    ensures IsObject(s)
  {
    hide ScanMembers, ParseMembers, Run;
    var j := SkipWs(s, 0);
    MissParses(s, j + 1, key, kind);
    ObjFromMembers(s, j);
  }

  // ---- What the getters do where a scan hits ----

  /** A string without a closing quote fails, but leaves what it decoded in the output. */
  lemma StringHit(s: string, space: string, w: Way, at: nat, key: string, out: string)
    requires Reaches(s, space, w, at, key, AString)
    ensures at < |s|
    ensures StringField(s, key, out)
            == match PiecesAt(s, at + 1)
               case Some(x) => (true, Meaning(x.pieces))
               case None => (false, Meaning(OpenPieces(s, at + 1)))
  {
    hide ScanObject, StringAt, PiecesAt, Reaches;
    ReachedIsHit(s, space, w, at, key, AString);
    StringIsMeaning(s, at + 1);
    if PiecesAt(s, at + 1).None? { UnclosedIsMeaning(s, at + 1); }
  }

  /** The letters are true only if they are the word true. */
  lemma BoolHit(s: string, space: string, w: Way, at: nat, key: string, out: bool, x: string)
    requires Reaches(s, space, w, at, key, ABool) && EndsRun(s, at, x, Alpha)
    ensures BoolField(s, key, out) == (true, x == "true")
  {
    hide ScanObject, Reaches, EndsRun, Run;
    ReachedIsHit(s, space, w, at, key, ABool);
    RunReads(s, at, x, Alpha);
  }

  lemma NumberHit(s: string, space: string, w: Way, at: nat, key: string, x: string)
    requires Reaches(s, space, w, at, key, ANumber) && EndsRun(s, at, x, Numeric)
    ensures NumberField(s, key) == (true, Some(x))
  {
    hide ScanObject, Reaches, EndsRun, Run;
    ReachedIsHit(s, space, w, at, key, ANumber);
    RunReads(s, at, x, Numeric);
  }

  lemma UintHit(s: string, space: string, w: Way, at: nat, key: string, out: uint64, x: string)
    requires Reaches(s, space, w, at, key, AUnsigned) && EndsRun(s, at, x, Numeric)
    ensures UintField(s, key, out) == if Strtoull(x).None? then (false, out) else (true, Strtoull(x).value)
  {
    hide ScanObject, Reaches, EndsRun, Run, Strtoull;
    ReachedIsHit(s, space, w, at, key, AUnsigned);
    RunReads(s, at, x, Numeric);
  }

  /** A container that does not end fails and writes nothing. */
  lemma RawHit(s: string, space: string, w: Way, at: nat, key: string, kind: Kind, out: string)
    requires Reaches(s, space, w, at, key, kind)
    ensures at < |s|
    ensures RawField(s, key, kind, out)
            == match ParseValue(s, at)
               case Some(p) => (true, Text(p.t))
               case None => (false, out)
  {
    hide ScanObject, Reaches, ParseValue, Text;
    ReachedIsHit(s, space, w, at, key, kind);
    if ParseValue(s, at).Some? { SliceParses(s, at); }
  }
}
