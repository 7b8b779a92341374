/** Compact documents, and how text grows member by member into one. */
module Build {
  import opened Bytes
  import opened Strings
  import opened StringLaws
  import opened Numbers
  import opened Grammar
  import opened GrammarLaws

  // ---- Text ----

  /** A member name as the builders write it, with its colon. */
  function Key(name: string): string {
    "\"" + name + "\":"
  }

  function Commas(parts: seq<string>): string {
    if parts == [] then ""
    else parts[0] + (if |parts| == 1 then "" else "," + Commas(parts[1..]))
  }

  lemma {:induction false} CommasAppend(parts: seq<string>, x: string)
    ensures Commas(parts + [x]) == if parts == [] then x else Commas(parts) + "," + x
    decreases |parts|
  {
    if parts == [] {
      assert [x][1..] == [];
    } else {
      var rest := parts[1..];
      assert (parts + [x])[1..] == rest + [x];
      CommasAppend(rest, x);
      if rest != [] {
        assert parts[0] + ("," + (Commas(rest) + "," + x)) == (parts[0] + ("," + Commas(rest))) + "," + x;
      }
    }
  }

  // ---- Compact trees ----

  predicate IsNameChar(c: char) { 'a' <= c <= 'z' || c == '_' }

  predicate IsName(x: string) {
    forall k :: 0 <= k < |x| ==> IsNameChar(x[k])
  }

  function Field(name: string, v: Tree): Member { FieldOf(name, Entry(v)) }

  /** A field whose value comes with white space around it. */
  function FieldOf(name: string, it: Item): Member {
    Member("", RawPieces(name), "", it)
  }

  function Entry(v: Tree): Item { Item("", v, "") }

  function StrTree(x: string): Tree { Str(EscapePieces(x)) }

  function IntTree(n: int): Tree { Number(IntText(n)) }

  function BoolTree(b: bool): Tree { Word(if b then "true" else "false") }

  function ObjTree(ms: seq<Member>): Tree { Obj("", ms) }

  function ArrTree(items: seq<Item>): Tree { Arr("", items) }

  lemma {:induction false} RawPiecesText(x: string)
    ensures PiecesText(RawPieces(x)) == x
    decreases |x|
  {
    if x != "" {
      RawPiecesText(x[1..]);
      assert RawPieces(x)[1..] == RawPieces(x[1..]);
      assert x == [x[0]] + x[1..];
    }
  }

  lemma StrTreeText(x: string)
    ensures Text(StrTree(x)) == Quoted(x) && Strict(StrTree(x))
  {
    EscapeFaithful(x);
  }

  /** Decimal text has no leading zero. */
  lemma {:induction false} NatTextLeads(n: nat)
    ensures NatText(n)[0] == '0' ==> n == 0
    ensures n == 0 ==> NatText(n) == "0"
  {
    if n >= 10 { NatTextLeads(n / 10); }
  }

  lemma IntTreeStrict(n: int)
    ensures Text(IntTree(n)) == IntText(n) && Strict(IntTree(n))
  {
    var x := IntText(n);
    NatTextLeads(Abs(n));
    assert n < 0 ==> x[1..] == NatText(-n);
    assert n >= 0 ==> In(x[0], Digit);
    assert NumberParts(x, x, "", "");
  }

  // ---- Lists ----

  lemma {:induction false} ItemsAreCommas(items: seq<Item>, parts: seq<string>)
    requires |items| == |parts|
    requires forall k :: 0 <= k < |items| ==> ItemText(items[k]) == parts[k]
    ensures ItemsText(items) == Commas(parts)
    decreases |items|
  {
    hide ItemText;
    if items != [] {
      ItemsAreCommas(items[1..], parts[1..]);
    }
  }

  lemma EntryText(v: Tree)
    ensures ItemText(Entry(v)) == Text(v)
    ensures Strict(v) ==> StrictItem(Entry(v))
  {}

  // ---- Objects, grown as the builders grow them ----

  lemma FieldText(name: string, it: Item)
    ensures MemberText(FieldOf(name, it)) == Key(name) + ItemText(it)
    ensures IsName(name) && StrictItem(it) ==> StrictMember(FieldOf(name, it))
  {
    hide ItemText, PiecesText, RawPieces, StrictItem;
    RawPiecesText(name);
    if IsName(name) {
      forall k | 0 <= k < |name| ensures Legal(Raw(name[k])) {
        assert IsNameChar(name[k]);
      }
      RawPiecesLegal(name);
    }
  }

  lemma {:induction false} MembersAppend(ms: seq<Member>, m: Member)
    requires ms != []
    ensures MembersText(ms + [m]) == MembersText(ms) + ("," + MemberText(m))
    decreases |ms|
  {
    hide MemberText;
    var rest := ms[1..];
    assert (ms + [m])[1..] == rest + [m];
    if rest == [] {
      assert rest + [m] == [m];
      assert [m][1..] == [];
    } else {
      MembersAppend(rest, m);
      assert MemberText(ms[0]) + ("," + (MembersText(rest) + ("," + MemberText(m))))
             == (MemberText(ms[0]) + ("," + MembersText(rest))) + ("," + MemberText(m));
    }
  }

  ghost predicate AllStrict(ms: seq<Member>) {
    forall k :: 0 <= k < |ms| ==> StrictMember(ms[k])
  }

  /** body is a prefix followed by the members ms, all strict. */
  ghost predicate Holds(body: string, prefix: string, ms: seq<Member>) {
    ms != [] && body == prefix + MembersText(ms) && AllStrict(ms)
  }

  lemma StartItem(prefix: string, name: string, it: Item)
    requires IsName(name) && StrictItem(it)
    ensures Holds(prefix + Key(name) + ItemText(it), prefix, [FieldOf(name, it)])
  {
    hide Key, ItemText, MemberText, StrictMember, StrictItem, FieldOf;
    FieldText(name, it);
    MembersOne(FieldOf(name, it), 0);
    assert prefix + Key(name) + ItemText(it) == prefix + (Key(name) + ItemText(it));
  }

  lemma GrowItem(body: string, prefix: string, ms: seq<Member>, name: string, it: Item)
    requires Holds(body, prefix, ms) && IsName(name) && StrictItem(it)
    ensures Holds(body + "," + Key(name) + ItemText(it), prefix, ms + [FieldOf(name, it)])
  {
    hide Key, ItemText, MemberText, MembersText, StrictMember, StrictItem, FieldOf;
    FieldText(name, it);
    MembersAppend(ms, FieldOf(name, it));
    assert body + "," + Key(name) + ItemText(it) == prefix + (MembersText(ms) + ("," + (Key(name) + ItemText(it))));
  }

  lemma Start(prefix: string, name: string, v: Tree)
    requires IsName(name) && Strict(v)
    ensures Holds(prefix + Key(name) + Text(v), prefix, [Field(name, v)])
  {
    hide Key, Text, Strict, Holds;
    EntryText(v);
    StartItem(prefix, name, Entry(v));
  }

  lemma Grow(body: string, prefix: string, ms: seq<Member>, name: string, v: Tree)
    requires Holds(body, prefix, ms) && IsName(name) && Strict(v)
    ensures Holds(body + "," + Key(name) + Text(v), prefix, ms + [Field(name, v)])
  {
    hide Key, Text, Strict, Holds;
    EntryText(v);
    GrowItem(body, prefix, ms, name, Entry(v));
  }

  lemma Finish(body: string, prefix: string, ms: seq<Member>)
    requires Holds(body, prefix + "{", ms)
    ensures body + "}" == prefix + Text(ObjTree(ms)) && Strict(ObjTree(ms))
  {
    hide MembersText, StrictMember;
    assert (prefix + "{") + MembersText(ms) + "}" == prefix + ("{" + MembersText(ms) + "}");
  }

  /** A one-member object around an inner object. */
  lemma WrapText(name: string, body: string, ms: seq<Member>)
    requires IsName(name) && Holds(body, "{" + Key(name) + "{", ms)
    ensures body + "}" + "}" == Text(ObjTree([Field(name, ObjTree(ms))]))
    ensures Strict(ObjTree([Field(name, ObjTree(ms))]))
  {
    hide Key, Text, Strict, Holds;
    var inner := ObjTree(ms);
    Finish(body, "{" + Key(name), ms);
    Start("{", name, inner);
    assert "" + "{" == "{";
    Finish("{" + Key(name) + Text(inner), "", [Field(name, inner)]);
  }

  // ---- Whole bodies ----

  /** A strict body is one complete value: parsing it consumes its last byte. */
  lemma StrictBody(t: Tree)
    requires Strict(t)
    ensures Parse(Text(t)) == Some(t)
    ensures SkipWs(Text(t), 0) == 0 && ParseValue(Text(t), 0) == Some(Parsed(t, |Text(t)|))
  {
    StrictIsLenient(t, 0);
    ParseText(t);
  }
}
