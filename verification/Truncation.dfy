/**
 A tuning block that its buffer cuts off leaves an index that is no JSON value, wherever the
 index stands: every way of reading on from the cut ends one closing brace short.
 */
module Truncation {
  import opened Bytes
  import opened Strings
  import opened StringLaws
  import opened Numbers
  import opened Grammar
  import opened GrammarLaws
  import opened RowsLaws
  import opened Build

  // ---- Going down into a document whose end is unknown ----

  /** Known members before an unknown rest: parsing them all means parsing the rest. */
  lemma {:induction false} PastMembers(s: string, i: nat, ms: seq<Member>, j: nat)
    requires ms != [] && AllStrict(ms) && At(s, i, MembersText(ms))
    requires j == i + |MembersText(ms)| < |s| && s[j] == ','
    requires ParseMembers(s, i).Some?
    ensures ParseMembers(s, j + 1).Some?
    ensures ParseMembers(s, j + 1).value.end == ParseMembers(s, i).value.end
    decreases |ms|
  {
    hide At, MemberText, MembersText, StrictMember, ParseMember, ParseMembers, LenientMember;
    var m, rest := ms[0], ms[1..];
    var c := i + |MemberText(m)|;
    assert StrictMember(m);
    if rest == [] {
      assert ms == [m];
      MembersOne(m, 0);
      StrictMemberIsLenient(m, |s| - c);
      MemberExact(s, i, m, c);
      MembersStep(s, i);
    } else {
      assert ms == [m] + rest;
      MembersCons(m, rest, 0);
      AtSplit(s, i, MemberText(m), "," + MembersText(rest));
      AtSplit(s, c, ",", MembersText(rest));
      AtComma(s, c);
      StrictMemberIsLenient(m, |s| - c);
      MemberExact(s, i, m, c);
      MembersStep(s, i);
      PastMembers(s, c + 1, rest, j);
    }
  }

  lemma StrictMemberIsLenient(m: Member, left: nat)
    requires StrictMember(m)
    ensures LenientMember(m, left)
  {
    LegalAreAccepted(m.name, |m.mid| + 2 + |ItemText(m.item)| + left);
    StrictItemIsLenient(m.item, left);
  }

  /** What comes after the value of a member: its object ends, or goes on. */
  predicate GoesOn(s: string, e: nat, end: nat)
    requires e <= |s|
  {
    e < |s| && !In(s[e], Space) ==>
      || (s[e] == '}' && end == e + 1)
      || (s[e] == ',' && ParseMembers(s, e + 1).Some? && ParseMembers(s, e + 1).value.end == end)
  }

  /** A member whose value is a non-empty object: the object, and what follows it. */
  lemma IntoField(s: string, i: nat, name: string)
    requires IsName(name) && At(s, i, Key(name)) && ParseMembers(s, i).Some?
    requires var v := i + |Key(name)|; v + 1 < |s| && s[v] == '{' && s[v + 1] == '"'
    ensures var v := i + |Key(name)|;
            && ParseMembers(s, v + 1).Some?
            && ParseMembers(s, v + 1).value.end < |s|
            && GoesOn(s, ParseMembers(s, v + 1).value.end, ParseMembers(s, i).value.end)
  {
    hide At, ParseMember, ParseMembers, ParseItem, ParseValue, Run, PiecesAt, In;
    var v := i + |Key(name)|;
    MembersStep(s, i);
    MemberFromName(s, i, name, v);
    NotSpaces();
    ItemFromValue(s, v);
    ValueFromMembers(s, v);
    NoSkip(s, ParseValue(s, v).value.end);
  }

  lemma NoSkip(s: string, e: nat)
    requires e <= |s|
    ensures e < |s| && !In(s[e], Space) ==> SkipWs(s, e) == e
    ensures e == |s| ==> SkipWs(s, e) == e
  {}

  /** Reading a plain name and its colon. */
  lemma NameRead(s: string, i: nat, name: string)
    requires IsName(name) && At(s, i, Key(name))
    ensures SkipWs(s, i) == i && i < |s| && s[i] == '"'
    ensures var w := i + |name| + 2;
            && PiecesAt(s, i + 1) == Some(Written(RawPieces(name), w))
            && SkipWs(s, w) == w && w < |s| && s[w] == ':' && w + 1 == i + |Key(name)|
  {
    hide At, PiecesAt, RawPieces, IsRaw;
    var w := i + |name| + 2;
    var quoted := "\"" + name + "\"";
    assert Key(name) == quoted + ":";
    AtSplit(s, i, quoted, ":");
    AtColon(s, w);
    AtUnbracket(s, i, "\"", name, "\"");
    NameIsRaw(name);
    RawString(s, i + 1, name);
  }

  lemma MemberFromName(s: string, i: nat, name: string, v: nat)
    requires IsName(name) && i <= v <= |s| && At(s, i, Key(name)) && v == i + |Key(name)|
    requires ParseMember(s, i).Some?
    ensures ParseItem(s, v).Some? && ParseItem(s, v).value.end == ParseMember(s, i).value.end
    ensures ParseMember(s, i).value.t.item == ParseItem(s, v).value.t
  {
    hide ParseItem, PiecesAt, At, Key, Run;
    NameRead(s, i, name);
  }

  lemma ItemFromValue(s: string, v: nat)
    requires v < |s| && !In(s[v], Space) && ParseItem(s, v).Some?
    ensures ParseValue(s, v).Some? && ParseItem(s, v).value.end == SkipWs(s, ParseValue(s, v).value.end)
    ensures ParseItem(s, v).value.t.v == ParseValue(s, v).value.t
  {
    hide ParseValue, In;
    NoSkip(s, v);
  }

  lemma ValueFromMembers(s: string, v: nat)
    requires v + 1 < |s| && s[v] == '{' && s[v + 1] == '"' && ParseValue(s, v).Some?
    ensures ParseMembers(s, v + 1).Some? && ParseMembers(s, v + 1).value.end == ParseValue(s, v).value.end
    ensures ParseValue(s, v).value.t == ObjTree(ParseMembers(s, v + 1).value.t)
  {
    hide ParseMembers;
  }

  // ---- Fields of numbers, cut off ----

  datatype Num = Num(name: string, n: nat)

  function NumText(f: Num): string { Key(f.name) + NatText(f.n) }

  function NumsText(fs: seq<Num>): string {
    if fs == [] then "" else NumText(fs[0]) + (if |fs| == 1 then "" else "," + NumsText(fs[1..]))
  }

  predicate AllNames(fs: seq<Num>) {
    forall k :: 0 <= k < |fs| ==> IsName(fs[k].name)
  }

  predicate AreNums(fs: seq<Num>) { fs != [] && AllNames(fs) }

  lemma NumberMember(s: string, i: nat, name: string, d: string, e: nat)
    requires IsName(name) && d != "" && AllIn(d, Digit)
    requires At(s, i, Key(name) + d) && e == i + |Key(name) + d| < |s| && Closes(s[e])
    ensures ParseMember(s, i).Some? && ParseMember(s, i).value.end == e
  {
    hide At, Key, ParseMember, MemberText, LenientMember, FieldOf, IsName, AllIn;
    EntryText(Number(d));
    FieldText(name, Entry(Number(d)));
    NumberFieldIsLenient(name, d, |s| - e);
    MemberExact(s, i, Field(name, Number(d)), e);
  }

  lemma NumberFieldIsLenient(name: string, d: string, left: nat)
    requires IsName(name) && d != "" && AllIn(d, Digit)
    ensures LenientMember(Field(name, Number(d)), left)
  {
    hide RawPieces, PiecesText, AllAccepted;
    var m := Field(name, Number(d));
    forall k | 0 <= k < |name| ensures Legal(Raw(name[k])) {
      assert IsNameChar(name[k]);
    }
    RawPiecesLegal(name);
    LegalAreAccepted(m.name, |m.mid| + 2 + |ItemText(m.item)| + left);
    assert Lenient(Number(d), |m.item.post| + left);
  }

  /** No member name can end in what is written from j on. */
  predicate NoName(s: string, j: nat)
    requires j <= |s|
  {
    PiecesAt(s, j).Some? ==>
      var e := PiecesAt(s, j).value.end;
      e < |s| ==> s[e] != ':' && !In(s[e], Space)
  }

  lemma AtPrefix(s: string, i: nat, a: string, b: string, k: nat)
    requires k <= |a| + |b| && At(s, i, (a + b)[..k])
    ensures k <= |a| ==> At(s, i, a[..k])
    ensures k >= |a| ==> At(s, i, a) && At(s, i + |a|, b[..k - |a|])
  {
    if k <= |a| {
      assert (a + b)[..k] == a[..k];
    } else {
      assert (a + b)[..k] == a + b[..k - |a|];
      AtSplit(s, i, a, b[..k - |a|]);
    }
  }

  lemma QuoteAt(s: string, i: nat)
    requires At(s, i, "\"")
    ensures i < |s| && s[i] == '"'
  {
    assert s[i..i + 1][0] == s[i];
  }

  lemma NoColon(s: string, i: nat)
    requires i < |s| && s[i] == '"' && NoName(s, i + 1)
    ensures ParseMember(s, i).None?
  {
    hide PiecesAt;
  }

  predicate IsRaw(x: string) {
    forall k :: 0 <= k < |x| ==> Legal(Raw(x[k]))
  }

  lemma RawString(s: string, i: nat, x: string)
    requires IsRaw(x) && At(s, i, x) && i + |x| < |s| && s[i + |x|] == '"'
    ensures PiecesAt(s, i) == Some(Written(RawPieces(x), i + |x| + 1))
  {
    hide At, PiecesAt, RawPieces;
    RawPiecesText(x);
    RawPiecesLegal(x);
    LegalAreAccepted(RawPieces(x), |s| - (i + |x|));
    PiecesExact(s, i, RawPieces(x), i + |x|);
  }

  lemma NameIsRaw(x: string)
    requires IsName(x)
    ensures IsRaw(x)
  {
    forall k | 0 <= k < |x| ensures Legal(Raw(x[k])) {
      assert IsNameChar(x[k]);
    }
  }

  /** Ordinary characters do not end a string body. */
  lemma {:induction false} RawThen(s: string, i: nat, x: string)
    requires IsRaw(x) && At(s, i, x)
    ensures PiecesAt(s, i).Some? <==> PiecesAt(s, i + |x|).Some?
    ensures PiecesAt(s, i).Some? ==> PiecesAt(s, i).value.end == PiecesAt(s, i + |x|).value.end
    decreases |x|
  {
    hide PiecesAt, At;
    if x != "" {
      assert x == [x[0]] + x[1..];
      AtSplit(s, i, [x[0]], x[1..]);
      FirstAt(s, i, x);
      assert Legal(Raw(x[0]));
      PiecesStep(s, i, Raw(x[0]), i + 1);
      RawThen(s, i + 1, x[1..]);
    }
  }

  /** A name cut off in the middle runs on into what follows. */
  lemma CutInName(s: string, i: nat, x: string)
    requires IsName(x) && At(s, i, "\"" + x) && NoName(s, i + 1 + |x|)
    ensures ParseMember(s, i).None?
  {
    hide At, PiecesAt, ParseMember, IsRaw;
    AtSplit(s, i, "\"", x);
    QuoteAt(s, i);
    NameIsRaw(x);
    RawThen(s, i + 1, x);
    NoColon(s, i);
  }

  lemma CutAfterName(s: string, i: nat, x: string)
    requires IsName(x) && At(s, i, "\"" + x + "\"") && i + |x| + 2 < |s| && Closes(s[i + |x| + 2])
    ensures ParseMember(s, i).None?
  {
    hide At, PiecesAt, ParseMember, IsRaw;
    AtUnbracket(s, i, "\"", x, "\"");
    NameIsRaw(x);
    RawString(s, i + 1, x);
    NoColon(s, i);
  }

  lemma CutAfterColon(s: string, i: nat, x: string)
    requires IsName(x) && At(s, i, Key(x)) && i + |Key(x)| < |s| && Closes(s[i + |Key(x)|])
    ensures ParseMember(s, i).None?
  {
    hide At, ParseMember, Key, ParseItem, IsName;
    NoItemAtClose(s, i + |Key(x)|);
    if ParseMember(s, i).Some? { MemberFromName(s, i, x, i + |Key(x)|); }
  }

  lemma NoItemAtClose(s: string, i: nat)
    requires i < |s| && Closes(s[i])
    ensures ParseItem(s, i).None?
  {}

  /** A field cut off at j can only be read if the cut is within its digits. */
  lemma CutField(s: string, i: nat, name: string, d: string, k: nat)
    requires IsName(name) && d != "" && AllIn(d, Digit)
    requires k <= |Key(name)| + |d| && At(s, i, (Key(name) + d)[..k])
    requires i + k < |s| && Closes(s[i + k]) && NoName(s, i + k)
    requires ParseMember(s, i).Some?
    ensures ParseMember(s, i).value.end == i + k && k > |Key(name)|
  {
    hide At, ParseMember, IsName, NoName, AllIn, Closes;
    AtPrefix(s, i, Key(name), d, k);
    if k == 0 {
      NoMemberAtClose(s, i);
    } else if k <= |name| + 1 {
      assert Key(name)[..k] == "\"" + name[..k - 1];
      NamePrefix(name, k - 1);
      CutInName(s, i, name[..k - 1]);
    } else if k == |name| + 2 {
      assert Key(name)[..k] == "\"" + name + "\"";
      CutAfterName(s, i, name);
    } else if k == |name| + 3 {
      CutAfterColon(s, i, name);
    } else {
      var d' := d[..k - |Key(name)|];
      DigitsPrefix(d, |d'|);
      AtSplit(s, i, Key(name), d');
      NumberMember(s, i, name, d', i + k);
    }
  }

  lemma DigitsPrefix(d: string, k: nat)
    requires AllIn(d, Digit) && k <= |d|
    ensures AllIn(d[..k], Digit)
  {}

  lemma NoMemberAtClose(s: string, i: nat)
    requires i < |s| && Closes(s[i])
    ensures ParseMember(s, i).None?
  {}

  lemma NamePrefix(name: string, k: nat)
    requires IsName(name) && k <= |name|
    ensures IsName(name[..k])
  {}

  lemma NatIsDigits(n: nat)
    ensures NatText(n) != "" && AllIn(NatText(n), Digit)
  {
    NatTextInverse(n);
  }

  /** The first k bytes of the fields end in the digits of one of them. */
  predicate EndsInNumber(fs: seq<Num>, k: nat) {
    fs != []
    && var x := NumText(fs[0]);
       if k <= |x| then k > |Key(fs[0].name)| else EndsInNumber(fs[1..], k - |x| - 1)
  }

  /**
   Fields cut off anywhere, before a brace or a comma: if they can be read at all, the cut is
   within a number, and what follows is read as if nothing were missing.
   */
  lemma {:induction false} CutRun(s: string, i: nat, fs: seq<Num>, k: nat)
    requires AreNums(fs) && k <= |NumsText(fs)| && At(s, i, NumsText(fs)[..k])
    requires i + k < |s| && (s[i + k] == '}' || s[i + k] == ',') && NoName(s, i + k)
    requires ParseMembers(s, i).Some?
    ensures EndsInNumber(fs, k) && GoesOn(s, i + k, ParseMembers(s, i).value.end)
    decreases |fs|
  {
    hide At, ParseMember, ParseMembers, Key, NatText, NoName, IsName, In;
    var f, rest := fs[0], fs[1..];
    var x := Key(f.name) + NatText(f.n);
    NatIsDigits(f.n);
    MembersStep(s, i);
    if k <= |x| {
      assert NumsText(fs)[..k] == x[..k];
      CutField(s, i, f.name, NatText(f.n), k);
    } else {
      var y := NumsText(rest)[..k - |x| - 1];
      assert NumsText(fs)[..k] == x + ("," + y);
      AtSplit(s, i, x, "," + y);
      AtSplit(s, i + |x|, ",", y);
      AtComma(s, i + |x|);
      NumberMember(s, i, f.name, NatText(f.n), i + |x|);
      CutRun(s, i + |x| + 1, rest, k - |x| - 1);
    }
  }

  // ---- What can follow a cut ----

  /** After an index: the end, or the end of a list and its body, or another index. */
  predicate AfterIndex(s: string, j: nat) {
    || j == |s|
    || (j + 2 == |s| && s[j] == ']' && s[j + 1] == '}')
    || (j + 3 < |s| && s[j] == ',' && s[j + 1] == '{' && s[j + 2] == '"' && s[j + 3] == 'n')
  }

  /** n closing braces, and the end of an index. */
  predicate Closing(s: string, j: nat, n: nat) {
    j + n <= |s| && AfterIndex(s, j + n) && forall k :: j <= k < j + n ==> s[k] == '}'
  }

  /** Another field. */
  predicate NextField(s: string, j: nat) {
    j + 2 < |s| && s[j] == ',' && s[j + 1] == '"' && s[j + 2] == 'p'
  }

  lemma OneRaw(s: string, i: nat)
    requires i < |s| && s[i] != '"' && s[i] != '\\' && NoName(s, i + 1)
    ensures NoName(s, i)
  {
    hide PiecesAt, In;
    PiecesStep(s, i, Raw(s[i]), i + 1);
  }

  lemma QuoteEnds(s: string, i: nat)
    requires i < |s| && s[i] == '"'
    ensures PiecesAt(s, i) == Some(Written([], i + 1))
  {}

  lemma NextFieldEndsNoName(s: string, j: nat)
    requires NextField(s, j)
    ensures NoName(s, j)
  {
    QuoteEnds(s, j + 1);
    OneRaw(s, j);
  }

  lemma AfterIndexEndsNoName(s: string, j: nat)
    requires AfterIndex(s, j)
    ensures NoName(s, j)
  {
    hide PiecesAt;
    if j + 2 == |s| && s[j] == ']' {
      EndIsNoName(s);
      OneRaw(s, j + 1);
      OneRaw(s, j);
    } else if j < |s| {
      QuoteEnds(s, j + 2);
      OneRaw(s, j + 1);
      OneRaw(s, j);
    } else {
      EndIsNoName(s);
    }
  }

  lemma EndIsNoName(s: string)
    ensures PiecesAt(s, |s|).None?
  {}

  lemma {:induction false} ClosingEndsNoName(s: string, j: nat, n: nat)
    requires Closing(s, j, n)
    ensures NoName(s, j)
    decreases n
  {
    hide NoName, AfterIndex;
    if n == 0 {
      AfterIndexEndsNoName(s, j);
    } else {
      ClosingEndsNoName(s, j + 1, n - 1);
      OneRaw(s, j);
    }
  }

  /** A cut block before closing braces ends at the first of them. */
  lemma CutBlockEnds(s: string, i: nat, fs: seq<Num>, k: nat, n: nat)
    requires AreNums(fs) && k <= |NumsText(fs)| && At(s, i, NumsText(fs)[..k])
    requires n > 0 && Closing(s, i + k, n) && ParseMembers(s, i).Some?
    ensures ParseMembers(s, i).value.end == i + k + 1
  {
    hide At, NoName, ParseMembers, NumsText, AreNums, AfterIndex;
    ClosingEndsNoName(s, i + k, n);
    CutRun(s, i, fs, k);
  }

  /** A member that ends where its index should have ended: its object cannot be read. */
  lemma Dangles(s: string, e: nat, end: nat)
    requires e < |s| && AfterIndex(s, e)
    ensures !GoesOn(s, e, end)
  {
    hide ParseMembers;
    if s[e] == ',' { NoMembersAtBrace(s, e + 1); }
  }

  lemma NoMembersAtBrace(s: string, i: nat)
    requires i < |s| && s[i] == '{'
    ensures ParseMembers(s, i).None?
  {}

  // ---- Indexes with a cut block ----

  /** The text of an index from whose tuning blocks z lost its end. */
  function CutText(head: string, ann: string, name: string, z: string): string {
    head + "," + Key("options") + "{" + Key("ann") + ann + "," + Key(name) + z + "}}}"
  }

  /** An object that goes on with a name. */
  predicate Opens(x: string) { |x| >= 2 && x[0] == '{' && x[1] == '"' }

  /** Where the block begins in a cut text that is written at i. */
  function BlockStart(i: nat, head: string, ann: string, name: string): nat {
    i + |head| + 1 + |Key("options")| + 1 + |Key("ann")| + |ann| + 1 + |Key(name)|
  }

  /**
   If the block ends at e and only two closing braces follow, or only one, the index has no
   end: its own brace, or that of its options as well, is missing.
   */
  lemma CutIsBroken(s: string, i: nat, head: string, ms1: seq<Member>, ann: string, ms2: seq<Member>, name: string,
                    z: string, e: nat)
    requires Holds(head, "{", ms1) && Holds(ann, "{", ms2) && IsName(name)
    requires Opens(head) && Opens(ann) && Opens(z) && At(s, i, CutText(head, ann, name, z))
    requires var b := BlockStart(i, head, ann, name);
             b + 1 <= |s| && (ParseMembers(s, b + 1).Some? ==> ParseMembers(s, b + 1).value.end == e)
    requires Closing(s, e, 1) || Closing(s, e, 2)
    ensures ParseValue(s, i).None?
  {
    hide ParseValue, ParseMembers, MembersText, StrictMember, Key, At, CutText, AfterIndex, IsName, In;
    var i1 := i + |head| + 1;
    var i2 := i1 + |Key("options")| + 1;
    var i3 := i2 + |Key("ann")| + 1;
    var i4 := i2 + |Key("ann")| + |ann| + 1;
    assert IsName("options") && IsName("ann") by { OuterNames(); }
    CutPositions(s, i, head, ms1, ann, ms2, name, z);
    NotSpaces();
    if ParseValue(s, i).Some? {
      ValueFromMembers(s, i);
      PastMembers(s, i + 1, ms1, i + |head|);
      IntoField(s, i1, "options");
      IntoField(s, i2, "ann");
      PastMembers(s, i3, ms2, i4 - 1);
      IntoField(s, i4, name);
      if Closing(s, e, 1) {
        Dangles(s, e + 1, ParseMembers(s, i2).value.end);
      } else {
        Dangles(s, e + 2, ParseMembers(s, i1).value.end);
      }
    }
  }

  lemma OuterNames()
    ensures IsName("options") && IsName("ann")
  {}

  lemma NotSpaces()
    ensures !In('{', Space) && !In('}', Space) && !In(',', Space)
  {}

  /** Where the parts of the cut text are. */
  lemma CutPositions(s: string, i: nat, head: string, ms1: seq<Member>, ann: string, ms2: seq<Member>, name: string,
                     z: string)
    requires Holds(head, "{", ms1) && Holds(ann, "{", ms2) && Opens(head) && Opens(ann) && Opens(z)
    requires At(s, i, CutText(head, ann, name, z))
    ensures var i1 := i + |head| + 1;
            var i2 := i1 + |Key("options")| + 1;
            var i3 := i2 + |Key("ann")| + 1;
            var i4 := i2 + |Key("ann")| + |ann| + 1;
            && |head| == 1 + |MembersText(ms1)| && |ann| == 1 + |MembersText(ms2)|
            && |s| >= i4 + |Key(name)| + |z| + 3 && i4 + |Key(name)| == BlockStart(i, head, ann, name)
            && s[i] == '{' && s[i + 1] == '"' && At(s, i + 1, MembersText(ms1)) && s[i + |head|] == ','
            && At(s, i1, Key("options")) && s[i2 - 1] == '{' && s[i2] == '"'
            && At(s, i2, Key("ann")) && s[i3 - 1] == '{' && s[i3] == '"'
            && At(s, i3, MembersText(ms2)) && s[i4 - 1] == ','
            && At(s, i4, Key(name)) && s[i4 + |Key(name)|] == '{' && s[i4 + |Key(name)| + 1] == '"'
            && At(s, i4 + |Key(name)|, z) && At(s, i4 + |Key(name)| + |z|, "}}}")
  {
    hide At, MembersText, Key, CutText;
    var o, a, n := Key("options"), Key("ann"), Key(name);
    KeyOpens("options");
    KeyOpens("ann");
    KeyOpens(name);
    CutTextNested(head, ann, name, z);
    var tail := ann + ("," + (n + (z + "}}}")));
    OuterPositions(s, i, head, MembersText(ms1), o, a, tail);
    InnerPositions(s, i + |head| + 1 + |o| + 1 + |a|, ann, MembersText(ms2), n, z, "}}}");
  }

  lemma OuterPositions(s: string, i: nat, head: string, x: string, o: string, a: string, q: string)
    requires At(s, i, head + ("," + (o + ("{" + (a + q))))) && head == "{" + x && Opens(head)
    requires o != "" && a != "" && a[0] == '"'
    ensures |s| >= i + |head| + 1 + |o| + 1 + |a|
    ensures s[i] == '{' && s[i + 1] == '"' && At(s, i + 1, x) && s[i + |head|] == ','
    ensures var i1 := i + |head| + 1;
            var i2 := i1 + |o| + 1;
            && At(s, i1, o) && s[i2 - 1] == '{' && At(s, i2, a) && s[i2] == '"' && At(s, i2 + |a|, q)
  {
    hide At;
    Peel(s, i, head, "," + (o + ("{" + (a + q))));
    AtSplit(s, i, "{", x);
    FieldPositions(s, i + |head|, o, a, q);
  }

  lemma FieldPositions(s: string, i: nat, o: string, a: string, q: string)
    requires At(s, i, "," + (o + ("{" + (a + q)))) && o != "" && a != "" && a[0] == '"'
    ensures |s| >= i + 1 + |o| + 1 + |a|
    ensures var i2 := i + 1 + |o| + 1;
            && s[i] == ',' && At(s, i + 1, o) && s[i2 - 1] == '{' && At(s, i2, a) && s[i2] == '"' && At(s, i2 + |a|, q)
  {
    hide At;
    Peel(s, i, ",", o + ("{" + (a + q)));
    Peel(s, i + 1, o, "{" + (a + q));
    Peel(s, i + 1 + |o|, "{", a + q);
    Peel(s, i + 1 + |o| + 1, a, q);
  }

  lemma InnerPositions(s: string, i: nat, ann: string, x: string, n: string, z: string, q: string)
    requires At(s, i, ann + ("," + (n + (z + q)))) && ann == "{" + x && Opens(ann) && n != "" && Opens(z) && q != ""
    ensures var i4 := i + |ann| + 1;
            && |s| >= i4 + |n| + |z| + |q|
            && s[i] == '{' && s[i + 1] == '"' && At(s, i + 1, x) && s[i4 - 1] == ','
            && At(s, i4, n) && s[i4 + |n|] == '{' && s[i4 + |n| + 1] == '"' && At(s, i4 + |n|, z)
            && At(s, i4 + |n| + |z|, q)
  {
    hide At;
    Peel(s, i, ann, "," + (n + (z + q)));
    AtSplit(s, i, "{", x);
    Peel(s, i + |ann|, ",", n + (z + q));
    Peel(s, i + |ann| + 1, n, z + q);
    Peel(s, i + |ann| + 1 + |n|, z, q);
    FirstAt(s, i + |ann| + 1 + |n| + |z|, q);
  }

  /** One part of a text, and what follows it. */
  lemma Peel(s: string, i: nat, x: string, q: string)
    requires At(s, i, x + q) && x != ""
    ensures |s| >= i + |x| + |q| && At(s, i + |x|, q)
    ensures At(s, i, x) && s[i] == x[0]
    ensures |x| > 1 ==> s[i + 1] == x[1]
  {
    AtSplit(s, i, x, q);
    AtChars(s, i, x);
    assert s[i + 0] == x[0];
    assert |x| > 1 ==> s[i + 1] == x[1];
  }

  lemma WholeAt(s: string)
    ensures At(s, 0, s)
  {}

  lemma TwoAt(s: string, i: nat, x: string)
    requires At(s, i, x) && |x| >= 2
    ensures i + |x| <= |s| && s[i] == x[0] && s[i + 1] == x[1]
  {
    assert s[i..i + |x|][0] == s[i] && s[i..i + |x|][1] == s[i + 1];
  }

  lemma KeyOpens(name: string)
    ensures Key(name) != "" && Key(name)[0] == '"'
  {}

  lemma CutTextNested(head: string, ann: string, name: string, z: string)
    ensures CutText(head, ann, name, z)
            == head + ("," + (Key("options") + ("{" + (Key("ann") + (ann + ("," + (Key(name) + (z + "}}}"))))))))
  {
    hide Key;
  }
}
