/**
 JSON documents as trees that keep their layout.

 Text writes a tree; ParseValue is the reference parser that builds the tree of the value
 at a position. Accepts the walker's lenient grammar; Strict is the grammar of sections 2 to
 7 of RFC 8259. The two main results are that parsing loses nothing (ValueSound) and that
 every accepted tree is parsed back from its text, in any context (ValueExact).
 */
module Grammar {
  import opened Bytes
  import opened Strings

  datatype Tree =
    | Word(x: string)
    | Number(x: string)
    | Str(ps: seq<Piece>)
    | Arr(gap: string, items: seq<Item>)
    | Obj(gap: string, members: seq<Member>)

  /** A value with the white space around it. */
  datatype Item = Item(pre: string, v: Tree, post: string)

  datatype Member = Member(pre: string, name: seq<Piece>, mid: string, item: Item)

  // ---- Writing ----

  function StrText(ps: seq<Piece>): string {
    "\"" + PiecesText(ps) + "\""
  }

  function Text(t: Tree): string
    decreases t, 1
  {
    match t
    case Word(x) => x
    case Number(x) => x
    case Str(ps) => StrText(ps)
    case Arr(gap, items) => "[" + (if items == [] then gap else ItemsText(items)) + "]"
    case Obj(gap, members) => "{" + (if members == [] then gap else MembersText(members)) + "}"
  }

  function ItemText(it: Item): string
    decreases it, 2
  {
    it.pre + Text(it.v) + it.post
  }

  function ItemsText(items: seq<Item>): string
    decreases items, 3
  {
    if items == [] then ""
    else ItemText(items[0]) + (if |items| == 1 then "" else "," + ItemsText(items[1..]))
  }

  function MemberText(m: Member): string
    decreases m, 3
  {
    m.pre + StrText(m.name) + m.mid + ":" + ItemText(m.item)
  }

  function MembersText(ms: seq<Member>): string
    decreases ms, 4
  {
    if ms == [] then ""
    else MemberText(ms[0]) + (if |ms| == 1 then "" else "," + MembersText(ms[1..]))
  }

  // ---- Parsing ----

  datatype Parsed<T> = Parsed(t: T, end: nat)

  function ParseValue(s: string, i: nat): (r: Option<Parsed<Tree>>)
    requires i <= |s|
    ensures r.Some? ==> i < r.value.end <= |s|
    decreases |s| - i, 0
  {
    if i == |s| then None
    else if s[i] == '"' then
      match PiecesAt(s, i + 1)
      case None => None
      case Some(w) => Some(Parsed(Str(w.pieces), w.end))
    else if s[i] == '{' then
      var j := SkipWs(s, i + 1);
      if j < |s| && s[j] == '}' then Some(Parsed(Obj(s[i + 1..j], []), j + 1))
      else (
        match ParseMembers(s, i + 1)
        case None => None
        case Some(p) => Some(Parsed(Obj("", p.t), p.end)))
    else if s[i] == '[' then
      var j := SkipWs(s, i + 1);
      if j < |s| && s[j] == ']' then Some(Parsed(Arr(s[i + 1..j], []), j + 1))
      else (
        match ParseItems(s, i + 1)
        case None => None
        case Some(p) => Some(Parsed(Arr("", p.t), p.end)))
    else if StartsWord(s[i]) then
      var e := Run(s, i, WordChar);
      Some(Parsed(Word(s[i..e]), e))
    else if StartsNumber(s[i]) then
      var e := Run(s, i, Numeric);
      Some(Parsed(Number(s[i..e]), e))
    else None
  }

  predicate StartsWord(c: char) { c == 't' || c == 'f' || c == 'n' }

  predicate StartsNumber(c: char) { c == '-' || IsDigit(c) }

  function ParseItem(s: string, i: nat): (r: Option<Parsed<Item>>)
    requires i <= |s|
    ensures r.Some? ==> i < r.value.end <= |s|
    decreases |s| - i, 1
  {
    var j := SkipWs(s, i);
    match ParseValue(s, j)
    case None => None
    case Some(p) =>
      var n := SkipWs(s, p.end);
      Some(Parsed(Item(s[i..j], p.t, s[p.end..n]), n))
  }

  /** Items up to and including the closing bracket. */
  function ParseItems(s: string, i: nat): (r: Option<Parsed<seq<Item>>>)
    requires i <= |s|
    ensures r.Some? ==> i < r.value.end <= |s| && r.value.t != []
    decreases |s| - i, 2
  {
    match ParseItem(s, i)
    case None => None
    case Some(p) =>
      if p.end == |s| then None
      else if s[p.end] == ',' then
        match ParseItems(s, p.end + 1)
        case None => None
        case Some(rest) => Some(Parsed([p.t] + rest.t, rest.end))
      else if s[p.end] == ']' then Some(Parsed([p.t], p.end + 1))
      else None
  }

  function ParseMember(s: string, i: nat): (r: Option<Parsed<Member>>)
    requires i <= |s|
    ensures r.Some? ==> i < r.value.end <= |s|
    decreases |s| - i, 2
  {
    var j := SkipWs(s, i);
    if j == |s| || s[j] != '"' then None
    else
      match PiecesAt(s, j + 1)
      case None => None
      case Some(w) =>
        var k := SkipWs(s, w.end);
        if k == |s| || s[k] != ':' then None
        else
          match ParseItem(s, k + 1)
          case None => None
          case Some(p) => Some(Parsed(Member(s[i..j], w.pieces, s[w.end..k], p.t), p.end))
  }

  /** Members up to and including the closing brace. */
  function ParseMembers(s: string, i: nat): (r: Option<Parsed<seq<Member>>>)
    requires i <= |s|
    ensures r.Some? ==> i < r.value.end <= |s| && r.value.t != []
    decreases |s| - i, 3
  {
    match ParseMember(s, i)
    case None => None
    case Some(p) =>
      if p.end == |s| then None
      else if s[p.end] == ',' then
        match ParseMembers(s, p.end + 1)
        case None => None
        case Some(rest) => Some(Parsed([p.t] + rest.t, rest.end))
      else if s[p.end] == '}' then Some(Parsed([p.t], p.end + 1))
      else None
  }

  /** The tree of the value that a body starts with, after white space. */
  function Parse(body: string): Option<Tree> {
    match ParseValue(body, SkipWs(body, 0))
    case None => None
    case Some(p) => Some(p.t)
  }

  // ---- The lenient grammar ----

  /** What the walker accepts when `left` bytes of input follow the tree. */
  predicate Lenient(t: Tree, left: nat)
    decreases t, 1
  {
    match t
    case Word(x) => x != "" && StartsWord(x[0]) && AllIn(x, WordChar)
    case Number(x) => x != "" && StartsNumber(x[0]) && AllIn(x, Numeric)
    case Str(ps) => AllAccepted(ps, left + 1)
    case Arr(gap, items) =>
      AllIn(gap, Space) && (items != [] ==> gap == "") && LenientItems(items, left + 1)
    case Obj(gap, members) =>
      AllIn(gap, Space) && (members != [] ==> gap == "") && LenientMembers(members, left + 1)
  }

  predicate LenientItem(it: Item, left: nat)
    decreases it, 2
  {
    AllIn(it.pre, Space) && AllIn(it.post, Space) && Lenient(it.v, |it.post| + left)
  }

  predicate LenientItems(items: seq<Item>, left: nat)
    decreases items, 3
  {
    items == []
    || (LenientItem(items[0], AfterFirstItem(items, left)) && LenientItems(items[1..], left))
  }

  function AfterFirstItem(items: seq<Item>, left: nat): nat
    requires items != []
  {
    if |items| == 1 then left else 1 + |ItemsText(items[1..])| + left
  }

  predicate LenientMember(m: Member, left: nat)
    decreases m, 3
  {
    && AllIn(m.pre, Space) && AllIn(m.mid, Space)
    && AllAccepted(m.name, |m.mid| + 2 + |ItemText(m.item)| + left)
    && LenientItem(m.item, left)
  }

  predicate LenientMembers(ms: seq<Member>, left: nat)
    decreases ms, 4
  {
    ms == []
    || (LenientMember(ms[0], AfterFirstMember(ms, left)) && LenientMembers(ms[1..], left))
  }

  function AfterFirstMember(ms: seq<Member>, left: nat): nat
    requires ms != []
  {
    if |ms| == 1 then left else 1 + |MembersText(ms[1..])| + left
  }

  /** The run of characters of a word or number does not go on at e. */
  predicate Stops(t: Tree, s: string, e: nat) {
    e < |s| ==>
      && (t.Word? ==> !In(s[e], WordChar))
      && (t.Number? ==> !In(s[e], Numeric))
  }

  /** End of input, white space, a comma or a closing bracket. */
  predicate Delimited(s: string, e: nat) {
    e < |s| ==> In(s[e], Space) || s[e] == ',' || s[e] == ']' || s[e] == '}'
  }

  // ---- Parsing is sound ----


  /** t is written at s[i..e], and that is how the walker's grammar reads it there. */
  predicate ReadsAs(s: string, i: nat, t: Tree, e: nat) {
    At(s, i, Text(t)) && e == i + |Text(t)| && Lenient(t, |s| - e) && Stops(t, s, e)
  }

  /** Parsing loses nothing: the tree's text is the consumed span, and its layout is accepted. */
  lemma {:induction false} ValueSound(s: string, i: nat)
    requires i <= |s| && ParseValue(s, i).Some?
    ensures ReadsAs(s, i, ParseValue(s, i).value.t, ParseValue(s, i).value.end)
    decreases |s| - i, 0
  {
    hide ReadsAs, At, ItemsText, MembersText, LenientItems, LenientMembers, ParseItems, ParseMembers;
    var p := ParseValue(s, i).value;
    match p.t {
      case Word(x) => LeafSound(s, i);
      case Number(x) => LeafSound(s, i);
      case Str(ps) => LeafSound(s, i);
      case Arr(gap, items) =>
        if items == [] {
          AtSlice(s, i + 1, p.end - 1);
          ArrReads(s, i, gap, items, p.end);
        } else {
          ItemsSound(s, i + 1);
          ArrReads(s, i, gap, items, p.end);
        }
      case Obj(gap, members) =>
        if members == [] {
          AtSlice(s, i + 1, p.end - 1);
          ObjReads(s, i, gap, members, p.end);
        } else {
          MembersSound(s, i + 1);
          ObjReads(s, i, gap, members, p.end);
        }
    }
  }

  lemma LeafSound(s: string, i: nat)
    requires i < |s| && s[i] != '{' && s[i] != '[' && ParseValue(s, i).Some?
    ensures ReadsAs(s, i, ParseValue(s, i).value.t, ParseValue(s, i).value.end)
  {
    hide ReadsAs, At, AllAccepted, PiecesAt, Run, PiecesText;
    if s[i] == '"' {
      PiecesSound(s, i + 1);
      StrReads(s, i, PiecesAt(s, i + 1).value.pieces, PiecesAt(s, i + 1).value.end);
    } else if StartsWord(s[i]) {
      WordReads(s, i, Run(s, i, WordChar));
    } else {
      NumberReads(s, i, Run(s, i, Numeric));
    }
  }

  lemma WordReads(s: string, i: nat, e: nat)
    requires i < |s| && StartsWord(s[i]) && e == Run(s, i, WordChar)
    ensures ReadsAs(s, i, Word(s[i..e]), e)
  {
    RunSound(s, i, e, WordChar);
  }

  lemma NumberReads(s: string, i: nat, e: nat)
    requires i < |s| && StartsNumber(s[i]) && e == Run(s, i, Numeric)
    ensures ReadsAs(s, i, Number(s[i..e]), e)
  {
    RunSound(s, i, e, Numeric);
  }

  lemma StrReads(s: string, i: nat, ps: seq<Piece>, e: nat)
    requires i < |s| && s[i] == '"'
    requires At(s, i + 1, PiecesText(ps))
    requires e == i + |PiecesText(ps)| + 2 <= |s| && s[e - 1] == '"'
    requires AllAccepted(ps, |s| - e + 1)
    ensures ReadsAs(s, i, Str(ps), e)
  {
    hide At, PiecesText;
    var t := Str(ps);
    AtBracketed(s, i, "\"", PiecesText(ps), "\"");
    assert At(s, i, Text(t)) && Lenient(t, |s| - e);
  }

  lemma ArrReads(s: string, i: nat, gap: string, items: seq<Item>, e: nat)
    requires i < |s| && s[i] == '['
    requires At(s, i + 1, if items == [] then gap else ItemsText(items))
    requires e == i + |if items == [] then gap else ItemsText(items)| + 2 <= |s| && s[e - 1] == ']'
    requires AllIn(gap, Space) && (items != [] ==> gap == "")
    requires items == [] || LenientItems(items, |s| - e + 1)
    ensures ReadsAs(s, i, Arr(gap, items), e)
  {
    hide At, ItemsText;
    var t := Arr(gap, items);
    AtBracketed(s, i, "[", if items == [] then gap else ItemsText(items), "]");
    assert At(s, i, Text(t)) && Lenient(t, |s| - e);
  }

  lemma ObjReads(s: string, i: nat, gap: string, members: seq<Member>, e: nat)
    requires i < |s| && s[i] == '{'
    requires At(s, i + 1, if members == [] then gap else MembersText(members))
    requires e == i + |if members == [] then gap else MembersText(members)| + 2 <= |s| && s[e - 1] == '}'
    requires AllIn(gap, Space) && (members != [] ==> gap == "")
    requires members == [] || LenientMembers(members, |s| - e + 1)
    ensures ReadsAs(s, i, Obj(gap, members), e)
  {
    hide At, MembersText;
    var t := Obj(gap, members);
    AtBracketed(s, i, "{", if members == [] then gap else MembersText(members), "}");
    assert At(s, i, Text(t)) && Lenient(t, |s| - e);
  }

  lemma RunSound(s: string, i: nat, e: nat, k: Class)
    requires i < |s| && In(s[i], k) && e == Run(s, i, k)
    ensures i < e && At(s, i, s[i..e]) && s[i..e][0] == s[i]
  {}

  lemma AtBracketed(s: string, i: nat, open: string, x: string, close: string)
    requires |open| == |close| == 1
    requires i < |s| && s[i] == open[0]
    requires At(s, i + 1, x)
    requires i + 1 + |x| < |s| && s[i + 1 + |x|] == close[0]
    ensures At(s, i, open + x + close)
  {
    AtSplit(s, i, open, x);
    AtSplit(s, i, open + x, close);
  }

  lemma {:induction false} ItemSound(s: string, i: nat)
    requires i <= |s| && ParseItem(s, i).Some?
    ensures var p := ParseItem(s, i).value;
            At(s, i, ItemText(p.t)) && p.end == i + |ItemText(p.t)| && LenientItem(p.t, |s| - p.end)
    decreases |s| - i, 1
  {
    hide At, Text, ParseValue, Lenient, Run;
    var j := SkipWs(s, i);
    ValueSound(s, j);
    var it := ParseItem(s, i).value.t;
    AtSlice(s, i, j);
    AtSlice(s, ParseValue(s, j).value.end, ParseItem(s, i).value.end);
    AtSplit(s, i, it.pre, Text(it.v));
    AtSplit(s, i, it.pre + Text(it.v), it.post);
  }

  lemma ItemsOne(it: Item, left: nat)
    ensures ItemsText([it]) == ItemText(it)
    ensures LenientItems([it], left) <==> LenientItem(it, left)
  {
    hide ItemText, LenientItem;
    assert [it][1..] == [];
    assert ItemText(it) + "" == ItemText(it);
  }

  lemma ItemsCons(it: Item, rest: seq<Item>, left: nat)
    requires rest != []
    ensures ItemsText([it] + rest) == ItemText(it) + ("," + ItemsText(rest))
    ensures LenientItems([it] + rest, left) <==>
              LenientItem(it, 1 + |ItemsText(rest)| + left) && LenientItems(rest, left)
  {
    hide ItemText, LenientItem;
    assert ([it] + rest)[1..] == rest;
  }

  lemma {:induction false} ItemsSound(s: string, i: nat)
    requires i <= |s| && ParseItems(s, i).Some?
    ensures var p := ParseItems(s, i).value;
            && At(s, i, ItemsText(p.t)) && p.end == i + |ItemsText(p.t)| + 1 && s[p.end - 1] == ']'
            && LenientItems(p.t, |s| - p.end + 1)
    decreases |s| - i, 2
  {
    hide At, ItemText, ItemsText, ParseItem, LenientItem, LenientItems;
    var p := ParseItem(s, i).value;
    var e := ParseItems(s, i).value.end;
    ItemSound(s, i);
    if s[p.end] == ',' {
      AtChar(s, p.end, ",");
      ItemsSound(s, p.end + 1);
      var rest := ParseItems(s, p.end + 1).value.t;
      AtSplit(s, p.end, ",", ItemsText(rest));
      AtSplit(s, i, ItemText(p.t), "," + ItemsText(rest));
      ItemsCons(p.t, rest, |s| - e + 1);
    } else {
      ItemsOne(p.t, |s| - e + 1);
    }
  }

  lemma AtFive(s: string, i: nat, a: string, b: string, c: string, d: string, e: string)
    ensures At(s, i, a + b + c + d + e) <==>
            && At(s, i, a) && At(s, i + |a|, b) && At(s, i + |a| + |b|, c)
            && At(s, i + |a| + |b| + |c|, d) && At(s, i + |a| + |b| + |c| + |d|, e)
  {
    AtSplit(s, i, a, b);
    AtSplit(s, i, a + b, c);
    AtSplit(s, i, a + b + c, d);
    AtSplit(s, i, a + b + c + d, e);
  }

  lemma {:induction false} MemberSound(s: string, i: nat)
    requires i <= |s| && ParseMember(s, i).Some?
    ensures var p := ParseMember(s, i).value;
            At(s, i, MemberText(p.t)) && p.end == i + |MemberText(p.t)| && LenientMember(p.t, |s| - p.end)
    decreases |s| - i, 2
  {
    hide At, ItemText, ParseItem, PiecesAt, PiecesText, Run, LenientItem, AllAccepted;
    var m := ParseMember(s, i).value.t;
    var j := SkipWs(s, i);
    AtSlice(s, i, j);
    PiecesSound(s, j + 1);
    AtBracketed(s, j, "\"", PiecesText(m.name), "\"");
    var e := PiecesAt(s, j + 1).value.end;
    var k := SkipWs(s, e);
    AtSlice(s, e, k);
    AtChar(s, k, ":");
    ItemSound(s, k + 1);
    AtFive(s, i, m.pre, StrText(m.name), m.mid, ":", ItemText(m.item));
  }

  lemma MembersOne(m: Member, left: nat)
    ensures MembersText([m]) == MemberText(m)
    ensures LenientMembers([m], left) <==> LenientMember(m, left)
  {
    hide MemberText, LenientMember;
    assert [m][1..] == [];
    assert MemberText(m) + "" == MemberText(m);
  }

  lemma MembersCons(m: Member, rest: seq<Member>, left: nat)
    requires rest != []
    ensures MembersText([m] + rest) == MemberText(m) + ("," + MembersText(rest))
    ensures LenientMembers([m] + rest, left) <==>
              LenientMember(m, 1 + |MembersText(rest)| + left) && LenientMembers(rest, left)
  {
    hide MemberText, LenientMember;
    assert ([m] + rest)[1..] == rest;
  }

  lemma {:induction false} MembersSound(s: string, i: nat)
    requires i <= |s| && ParseMembers(s, i).Some?
    ensures var p := ParseMembers(s, i).value;
            && At(s, i, MembersText(p.t)) && p.end == i + |MembersText(p.t)| + 1 && s[p.end - 1] == '}'
            && LenientMembers(p.t, |s| - p.end + 1)
    decreases |s| - i, 3
  {
    hide At, MemberText, MembersText, ParseMember, LenientMember, LenientMembers;
    var p := ParseMember(s, i).value;
    var e := ParseMembers(s, i).value.end;
    MemberSound(s, i);
    if s[p.end] == ',' {
      AtChar(s, p.end, ",");
      MembersSound(s, p.end + 1);
      var rest := ParseMembers(s, p.end + 1).value.t;
      AtSplit(s, p.end, ",", MembersText(rest));
      AtSplit(s, i, MemberText(p.t), "," + MembersText(rest));
      MembersCons(p.t, rest, |s| - e + 1);
    } else {
      MembersOne(p.t, |s| - e + 1);
    }
  }
}
