/** Every accepted tree is parsed back from its text, so the text determines the tree. */
module GrammarLaws {
  import opened Bytes
  import opened Strings
  import opened Grammar

  // ---- Parsing is complete ----

  lemma AtUnbracket(s: string, i: nat, open: string, x: string, close: string)
    requires |open| == |close| == 1 && At(s, i, open + x + close)
    ensures i < |s| && s[i] == open[0]
    ensures At(s, i + 1, x)
    ensures i + 1 + |x| < |s| && s[i + 1 + |x|] == close[0]
  {
    AtSplit(s, i, open, x);
    AtSplit(s, i, open + x, close);
    AtChars(s, i, open);
    AtChars(s, i + 1 + |x|, close);
    assert s[i + 0] == open[0] && s[i + 1 + |x| + 0] == close[0];
  }

  lemma TextStarts(t: Tree, left: nat)
    requires Lenient(t, left)
    ensures Text(t) != "" && !In(Text(t)[0], Space)
  {
    hide PiecesText, ItemsText, MembersText;
  }

  /**
   The parser is exact: a tree whose text is written at i, and whose layout the walker
   accepts there, is the tree it builds, and it stops where that text ends.
   */
  lemma {:induction false} ValueExact(s: string, i: nat, t: Tree, e: nat)
    requires ReadsAs(s, i, t, e)
    ensures ParseValue(s, i) == Some(Parsed(t, e))
    decreases t, 1
  {
    hide At, ItemsText, MembersText, PiecesText, Run, ParseItems, ParseMembers, PiecesAt;
    match t {
      case Word(x) => WordExact(s, i, x, e);
      case Number(x) => NumberExact(s, i, x, e);
      case Str(ps) =>
        AtUnbracket(s, i, "\"", PiecesText(ps), "\"");
        PiecesExact(s, i + 1, ps, e - 1);
      case Arr(gap, items) =>
        if items == [] {
          AtUnbracket(s, i, "[", gap, "]");
          EmptyExact(s, i, gap, ']');
        } else {
          AtUnbracket(s, i, "[", ItemsText(items), "]");
          ItemsExact(s, i + 1, items, e - 1);
          ArrFromItems(s, i);
        }
      case Obj(gap, members) =>
        if members == [] {
          AtUnbracket(s, i, "{", gap, "}");
          EmptyExact(s, i, gap, '}');
        } else {
          AtUnbracket(s, i, "{", MembersText(members), "}");
          MembersExact(s, i + 1, members, e - 1);
          ObjFromMembers(s, i);
        }
    }
  }

  lemma ArrFromItems(s: string, i: nat)
    requires i < |s| && s[i] == '[' && ParseItems(s, i + 1).Some?
    ensures var p := ParseItems(s, i + 1).value; ParseValue(s, i) == Some(Parsed(Arr("", p.t), p.end))
  {
    hide ParseItems, Run;
    NotEmptyArr(s, i + 1);
  }

  lemma ObjFromMembers(s: string, i: nat)
    requires i < |s| && s[i] == '{' && ParseMembers(s, i + 1).Some?
    ensures var p := ParseMembers(s, i + 1).value; ParseValue(s, i) == Some(Parsed(Obj("", p.t), p.end))
  {
    hide ParseMembers, Run;
    NotEmptyObj(s, i + 1);
  }

  lemma WordExact(s: string, i: nat, x: string, e: nat)
    requires ReadsAs(s, i, Word(x), e)
    ensures i < |s| && StartsWord(s[i]) && Run(s, i, WordChar) == e && s[i..e] == x
  {
    AtChars(s, i, x);
    assert s[i + 0] == x[0];
    RunExact(s, i, x, WordChar);
  }

  lemma NumberExact(s: string, i: nat, x: string, e: nat)
    requires ReadsAs(s, i, Number(x), e)
    ensures i < |s| && StartsNumber(s[i]) && Run(s, i, Numeric) == e && s[i..e] == x
  {
    AtChars(s, i, x);
    assert s[i + 0] == x[0];
    RunExact(s, i, x, Numeric);
  }

  lemma EmptyExact(s: string, i: nat, gap: string, close: char)
    requires i + 1 <= |s| && At(s, i + 1, gap) && AllIn(gap, Space)
    requires i + 1 + |gap| < |s| && s[i + 1 + |gap|] == close && !In(close, Space)
    ensures SkipWs(s, i + 1) == i + 1 + |gap| && s[i + 1..i + 1 + |gap|] == gap
  {
    RunExact(s, i + 1, gap, Space);
  }

  lemma NotEmptyArr(s: string, i: nat)
    requires i <= |s| && ParseItems(s, i).Some?
    ensures SkipWs(s, i) < |s| && s[SkipWs(s, i)] != ']'
  {
    assert ParseItem(s, i).Some? && ParseValue(s, SkipWs(s, i)).Some?;
  }

  lemma NotEmptyObj(s: string, i: nat)
    requires i <= |s| && ParseMembers(s, i).Some?
    ensures SkipWs(s, i) < |s| && s[SkipWs(s, i)] != '}'
  {}

  predicate Closes(c: char) { c == ',' || c == ']' || c == '}' }

  lemma {:induction false} ItemExact(s: string, i: nat, it: Item, e: nat)
    requires At(s, i, ItemText(it)) && e == i + |ItemText(it)| < |s| && Closes(s[e])
    requires LenientItem(it, |s| - e)
    ensures ParseItem(s, i) == Some(Parsed(it, e))
    decreases it, 2
  {
    hide At, Text, Run, ParseValue, Lenient, Stops, In;
    var j := i + |it.pre|;
    var m := j + |Text(it.v)|;
    AtSplit(s, i, it.pre, Text(it.v));
    AtSplit(s, i, it.pre + Text(it.v), it.post);
    TextStarts(it.v, |s| - m);
    FirstAt(s, j, Text(it.v));
    RunExact(s, i, it.pre, Space);
    ClosesNotSpace(s[e]);
    RunExact(s, m, it.post, Space);
    AtSliceBack(s, i, it.pre);
    AtSliceBack(s, m, it.post);
    StopsBeforeGap(s, m, it.post, it.v);
    ValueExact(s, j, it.v, m);
  }

  lemma ClosesNotSpace(c: char)
    requires Closes(c)
    ensures !In(c, Space)
  {}

  lemma StopsBeforeGap(s: string, m: nat, gap: string, t: Tree)
    requires At(s, m, gap) && AllIn(gap, Space) && m + |gap| < |s| && Closes(s[m + |gap|])
    ensures Stops(t, s, m)
  {
    if gap != "" {
      FirstAt(s, m, gap);
      assert In(gap[0], Space);
    }
  }

  lemma FirstAt(s: string, i: nat, x: string)
    requires At(s, i, x) && x != ""
    ensures i + |x| <= |s| && s[i] == x[0]
  {
    assert s[i..i + |x|][0] == s[i];
  }

  lemma {:induction false} ItemsExact(s: string, i: nat, items: seq<Item>, e: nat)
    requires items != [] && At(s, i, ItemsText(items))
    requires e == i + |ItemsText(items)| < |s| && s[e] == ']'
    requires LenientItems(items, |s| - e)
    ensures ParseItems(s, i) == Some(Parsed(items, e + 1))
    decreases items, 3
  {
    hide At, ItemText, ItemsText, ParseItem, LenientItem, LenientItems;
    var it, rest := items[0], items[1..];
    if rest == [] {
      assert items == [it];
      ItemsOne(it, |s| - e);
      ItemExact(s, i, it, e);
    } else {
      assert items == [it] + rest;
      ItemsCons(it, rest, |s| - e);
      var m := i + |ItemText(it)|;
      AtSplit(s, i, ItemText(it), "," + ItemsText(rest));
      AtSplit(s, m, ",", ItemsText(rest));
      AtComma(s, m);
      ItemExact(s, i, it, m);
      ItemsExact(s, m + 1, rest, e);
    }
  }

  lemma AtComma(s: string, i: nat)
    requires At(s, i, ",")
    ensures i < |s| && s[i] == ','
  {
    AtChars(s, i, ",");
    assert s[i + 0] == ","[0];
  }

  lemma AtColon(s: string, i: nat)
    requires At(s, i, ":")
    ensures i < |s| && s[i] == ':'
  {
    AtChars(s, i, ":");
    assert s[i + 0] == ":"[0];
  }

  lemma NameExact(s: string, i: nat, m: Member, w: nat, k: nat)
    requires w == i + |m.pre| + |StrText(m.name)| && k == w + |m.mid| < |s|
    requires At(s, i, m.pre) && At(s, i + |m.pre|, StrText(m.name)) && At(s, w, m.mid)
    requires s[k] == ':' && AllIn(m.pre, Space) && AllIn(m.mid, Space)
    requires AllAccepted(m.name, |s| - w + 1)
    ensures SkipWs(s, i) == i + |m.pre| && s[i..i + |m.pre|] == m.pre
    ensures s[i + |m.pre|] == '"'
    ensures PiecesAt(s, i + |m.pre| + 1) == Some(Written(m.name, w))
    ensures SkipWs(s, w) == k && s[w..k] == m.mid
  {
    hide At, PiecesText, Run, PiecesAt, AllAccepted;
    var j := i + |m.pre|;
    AtUnbracket(s, j, "\"", PiecesText(m.name), "\"");
    PiecesExact(s, j + 1, m.name, w - 1);
    RunExact(s, i, m.pre, Space);
    RunExact(s, w, m.mid, Space);
    AtSliceBack(s, i, m.pre);
    AtSliceBack(s, w, m.mid);
  }

  lemma {:induction false} MemberExact(s: string, i: nat, m: Member, e: nat)
    requires At(s, i, MemberText(m)) && e == i + |MemberText(m)| < |s| && Closes(s[e])
    requires LenientMember(m, |s| - e)
    ensures ParseMember(s, i) == Some(Parsed(m, e))
    decreases m, 3
  {
    hide At, StrText, ItemText, Run, ParseItem, PiecesAt, LenientItem, AllAccepted;
    AtFive(s, i, m.pre, StrText(m.name), m.mid, ":", ItemText(m.item));
    var w := i + |m.pre| + |StrText(m.name)|;
    var k := w + |m.mid|;
    AtColon(s, k);
    NameExact(s, i, m, w, k);
    ItemExact(s, k + 1, m.item, e);
  }

  lemma AtSliceBack(s: string, i: nat, x: string)
    requires At(s, i, x)
    ensures i + |x| <= |s| && s[i..i + |x|] == x
  {}

  lemma {:induction false} MembersExact(s: string, i: nat, ms: seq<Member>, e: nat)
    requires ms != [] && At(s, i, MembersText(ms))
    requires e == i + |MembersText(ms)| < |s| && s[e] == '}'
    requires LenientMembers(ms, |s| - e)
    ensures ParseMembers(s, i) == Some(Parsed(ms, e + 1))
    decreases ms, 4
  {
    hide At, MemberText, MembersText, ParseMember, LenientMember, LenientMembers;
    var m, rest := ms[0], ms[1..];
    if rest == [] {
      assert ms == [m];
      MembersOne(m, |s| - e);
      MemberExact(s, i, m, e);
    } else {
      assert ms == [m] + rest;
      MembersCons(m, rest, |s| - e);
      var c := i + |MemberText(m)|;
      AtSplit(s, i, MemberText(m), "," + MembersText(rest));
      AtSplit(s, c, ",", MembersText(rest));
      AtComma(s, c);
      MemberExact(s, i, m, c);
      MembersExact(s, c + 1, rest, e);
    }
  }

  // ---- Fewer bytes after a tree never spoil it ----

  lemma {:induction false} LenientWithLess(t: Tree, left: nat, less: nat)
    requires Lenient(t, left) && less <= left
    ensures Lenient(t, less)
    decreases t, 1
  {
    match t {
      case Word(x) =>
      case Number(x) =>
      case Str(ps) => AcceptedWithLess(ps, left + 1, less + 1);
      case Arr(gap, items) => ItemsWithLess(items, left + 1, less + 1);
      case Obj(gap, members) => MembersWithLess(members, left + 1, less + 1);
    }
  }

  lemma {:induction false} ItemsWithLess(items: seq<Item>, left: nat, less: nat)
    requires LenientItems(items, left) && less <= left
    ensures LenientItems(items, less)
    decreases items, 3
  {
    if items != [] {
      ItemWithLess(items[0], AfterFirstItem(items, left), AfterFirstItem(items, less));
      ItemsWithLess(items[1..], left, less);
    }
  }

  lemma {:induction false} ItemWithLess(it: Item, left: nat, less: nat)
    requires LenientItem(it, left) && less <= left
    ensures LenientItem(it, less)
    decreases it, 2
  {
    LenientWithLess(it.v, |it.post| + left, |it.post| + less);
  }

  lemma {:induction false} MembersWithLess(ms: seq<Member>, left: nat, less: nat)
    requires LenientMembers(ms, left) && less <= left
    ensures LenientMembers(ms, less)
    decreases ms, 4
  {
    if ms != [] {
      var l, l' := AfterFirstMember(ms, left), AfterFirstMember(ms, less);
      var m := ms[0];
      AcceptedWithLess(m.name, |m.mid| + 2 + |ItemText(m.item)| + l, |m.mid| + 2 + |ItemText(m.item)| + l');
      ItemWithLess(m.item, l, l');
      MembersWithLess(ms[1..], left, less);
    }
  }

  // ---- Whole documents ----

  /** The text of an accepted tree, on its own, parses to that tree. */
  lemma ParseText(t: Tree)
    requires Lenient(t, 0)
    ensures Parse(Text(t)) == Some(t)
    ensures SkipWs(Text(t), 0) == 0 && ParseValue(Text(t), 0) == Some(Parsed(t, |Text(t)|))
  {
    hide Text, Lenient;
    TextStarts(t, 0);
    assert At(Text(t), 0, Text(t));
    ValueExact(Text(t), 0, t, |Text(t)|);
  }

  /** Different documents have different texts: the grammar is unambiguous. */
  lemma TextInjective(t: Tree, u: Tree)
    requires Lenient(t, 0) && Lenient(u, 0) && Text(t) == Text(u)
    ensures t == u
  {
    ParseText(t);
    ParseText(u);
  }

  /** A parsed value, cut out of its context, parses to the same tree. */
  lemma SliceParses(s: string, i: nat)
    requires i <= |s| && ParseValue(s, i).Some?
    ensures var p := ParseValue(s, i).value;
            s[i..p.end] == Text(p.t) && Lenient(p.t, 0) && Parse(s[i..p.end]) == Some(p.t)
  {
    var p := ParseValue(s, i).value;
    ValueSound(s, i);
    LenientWithLess(p.t, |s| - p.end, 0);
    ParseText(p.t);
  }

  // ---- The grammar of RFC 8259 ----

  predicate IntPart(a: string) {
    var d := if a != "" && a[0] == '-' then a[1..] else a;
    d != "" && AllIn(d, Digit) && (d[0] == '0' ==> |d| == 1)
  }

  predicate FracPart(b: string) {
    b != "" ==> b[0] == '.' && |b| > 1 && AllIn(b[1..], Digit)
  }

  predicate ExpPart(c: string) {
    c != "" ==>
      && (c[0] == 'e' || c[0] == 'E')
      && var d := if |c| > 1 && (c[1] == '+' || c[1] == '-') then c[2..] else c[1..];
         d != "" && AllIn(d, Digit)
  }

  predicate NumberParts(x: string, a: string, b: string, c: string) {
    x == a + b + c && IntPart(a) && FracPart(b) && ExpPart(c)
  }

  /** Section 6 of RFC 8259. */
  ghost predicate IsRfcNumber(x: string) {
    exists a, b, c :: NumberParts(x, a, b, c)
  }

  ghost predicate Strict(t: Tree)
    decreases t, 1
  {
    match t
    case Word(x) => x == "true" || x == "false" || x == "null"
    case Number(x) => IsRfcNumber(x)
    case Str(ps) => AllLegal(ps)
    case Arr(gap, items) =>
      && AllIn(gap, Space) && (items != [] ==> gap == "")
      && forall k :: 0 <= k < |items| ==> StrictItem(items[k])
    case Obj(gap, members) =>
      && AllIn(gap, Space) && (members != [] ==> gap == "")
      && forall k :: 0 <= k < |members| ==> StrictMember(members[k])
  }

  ghost predicate StrictItem(it: Item)
    decreases it, 2
  {
    AllIn(it.pre, Space) && AllIn(it.post, Space) && Strict(it.v)
  }

  ghost predicate StrictMember(m: Member)
    decreases m, 3
  {
    AllIn(m.pre, Space) && AllIn(m.mid, Space) && AllLegal(m.name) && StrictItem(m.item)
  }

  lemma NumberIsNumeric(x: string)
    requires IsRfcNumber(x)
    ensures x != "" && StartsNumber(x[0]) && AllIn(x, Numeric)
  {
    hide IntPart, FracPart, ExpPart, AllIn;
    var a, b, c :| NumberParts(x, a, b, c);
    IntIsNumeric(a);
    FracIsNumeric(b);
    ExpIsNumeric(c);
    JoinIsNumeric(a, b);
    JoinIsNumeric(a + b, c);
    assert x[0] == a[0];
  }

  lemma JoinIsNumeric(x: string, y: string)
    requires AllIn(x, Numeric) && AllIn(y, Numeric)
    ensures AllIn(x + y, Numeric)
  {
    hide In;
  }

  lemma IntIsNumeric(a: string)
    requires IntPart(a)
    ensures a != "" && StartsNumber(a[0]) && AllIn(a, Numeric)
  {
    var d := if a != "" && a[0] == '-' then a[1..] else a;
    assert In(d[0], Digit);
    DigitsAreNumeric(d);
    forall k | 0 <= k < |a| ensures In(a[k], Numeric) {
      if a[0] == '-' && k > 0 { assert a[k] == d[k - 1]; }
    }
  }

  lemma FracIsNumeric(b: string)
    requires FracPart(b)
    ensures AllIn(b, Numeric)
  {
    if b != "" {
      DigitsAreNumeric(b[1..]);
      forall k | 0 <= k < |b| ensures In(b[k], Numeric) {
        if k > 0 { assert b[k] == b[1..][k - 1]; }
      }
    }
  }

  lemma DigitsAreNumeric(d: string)
    requires AllIn(d, Digit)
    ensures AllIn(d, Numeric)
  {
    forall k | 0 <= k < |d| ensures In(d[k], Numeric) {
      assert In(d[k], Digit);
    }
  }

  lemma ExpIsNumeric(c: string)
    requires ExpPart(c)
    ensures AllIn(c, Numeric)
  {
    if c != "" {
      var sign := if |c| > 1 && (c[1] == '+' || c[1] == '-') then 2 else 1;
      DigitsAreNumeric(c[sign..]);
      forall k | 0 <= k < |c| ensures In(c[k], Numeric) {
        if k >= sign { assert c[k] == c[sign..][k - sign]; }
      }
    }
  }

  /** Every document of RFC 8259, in any layout, is accepted wherever it stands. */
  lemma {:induction false} StrictIsLenient(t: Tree, left: nat)
    requires Strict(t)
    ensures Lenient(t, left)
    decreases t, 1
  {
    match t {
      case Word(x) =>
      case Number(x) => NumberIsNumeric(x);
      case Str(ps) => LegalAreAccepted(ps, left + 1);
      case Arr(gap, items) => StrictItemsAreLenient(items, left + 1);
      case Obj(gap, members) => StrictMembersAreLenient(members, left + 1);
    }
  }

  lemma {:induction false} StrictItemIsLenient(it: Item, left: nat)
    requires StrictItem(it)
    ensures LenientItem(it, left)
    decreases it, 2
  {
    StrictIsLenient(it.v, |it.post| + left);
  }

  lemma {:induction false} StrictItemsAreLenient(items: seq<Item>, left: nat)
    requires forall k :: 0 <= k < |items| ==> StrictItem(items[k])
    ensures LenientItems(items, left)
    decreases items, 3
  {
    if items != [] {
      StrictItemIsLenient(items[0], AfterFirstItem(items, left));
      StrictItemsAreLenient(items[1..], left);
    }
  }

  lemma {:induction false} StrictMembersAreLenient(ms: seq<Member>, left: nat)
    requires forall k :: 0 <= k < |ms| ==> StrictMember(ms[k])
    ensures LenientMembers(ms, left)
    decreases ms, 4
  {
    if ms != [] {
      var l := AfterFirstMember(ms, left);
      LegalAreAccepted(ms[0].name, |ms[0].mid| + 2 + |ItemText(ms[0].item)| + l);
      StrictItemIsLenient(ms[0].item, l);
      StrictMembersAreLenient(ms[1..], left);
    }
  }

  /**
   A document of RFC 8259 between any prefix and any suffix that is empty or starts with
   white space, a comma or a closing bracket is parsed exactly, to its last byte.
   */
  lemma StrictExact(p: string, w: string, t: Tree, q: string)
    requires Strict(t) && AllIn(w, Space) && Delimited(q, 0)
    ensures var s := p + w + Text(t) + q;
            && SkipWs(s, |p|) == |p| + |w|
            && ParseValue(s, |p| + |w|) == Some(Parsed(t, |p| + |w| + |Text(t)|))
  {
    hide At, Text, Strict, Run, ParseValue, AllIn, Delimited;
    InContext(p + w + Text(t) + q, p, w, Text(t), q);
    StrictExactAt(p + w + Text(t) + q, |p|, w, t);
  }

  /** A document of RFC 8259 is parsed exactly wherever it is written and delimited. */
  lemma StrictExactAt(s: string, i: nat, w: string, t: Tree)
    requires Strict(t) && AllIn(w, Space) && At(s, i, w) && At(s, i + |w|, Text(t))
    requires Delimited(s, i + |w| + |Text(t)|)
    ensures SkipWs(s, i) == i + |w|
    ensures ParseValue(s, i + |w|) == Some(Parsed(t, i + |w| + |Text(t)|))
  {
    hide At, Text, Lenient, Strict, Run, ParseValue, Stops;
    var e := i + |w| + |Text(t)|;
    StrictIsLenient(t, 0);
    TextStarts(t, 0);
    FirstAt(s, i + |w|, Text(t));
    StrictIsLenient(t, |s| - e);
    RunExact(s, i, w, Space);
    StopsBeforeDelimiter(t, s, e);
    ValueExact(s, i + |w|, t, e);
  }

  lemma InContext(s: string, p: string, w: string, x: string, q: string)
    requires s == p + w + x + q && Delimited(q, 0)
    ensures At(s, |p|, w) && At(s, |p| + |w|, x)
    ensures Delimited(s, |p| + |w| + |x|)
  {
    hide At;
    assert s == p + w + (x + q);
    AtContext(p, w, x + q);
    AtContext(p + w, x, q);
  }

  lemma StopsBeforeDelimiter(t: Tree, s: string, e: nat)
    requires Delimited(s, e)
    ensures Stops(t, s, e)
  {}
}
