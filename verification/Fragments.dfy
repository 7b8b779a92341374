/**
 JSON text, as callers supply it and as bodies are assembled from it.

 A fragment is JSON text of section 2 of RFC 8259: a value with white space around it. A
 whole text has no such white space; that is what the builders promise of their bodies.
 */
module Fragments {
  import opened Bytes
  import opened Strings
  import opened StringLaws
  import opened Numbers
  import opened Grammar
  import opened GrammarLaws
  import opened Build
  import Walker

  ghost predicate IsFragment(x: string) {
    exists it :: StrictItem(it) && ItemText(it) == x
  }

  ghost predicate IsWhole(x: string) {
    exists t :: Strict(t) && Text(t) == x
  }

  /** The value of a fragment and the white space around it. */
  ghost function FragmentItem(x: string): (it: Item)
    requires IsFragment(x)
    ensures StrictItem(it) && ItemText(it) == x
  {
    var it :| StrictItem(it) && ItemText(it) == x;
    it
  }

  ghost function FragmentTree(x: string): (t: Tree)
    requires IsFragment(x)
    ensures Strict(t)
  {
    FragmentItem(x).v
  }

  // ---- A fragment has one reading ----

  /** Parsing a fragment skips the white space before its value and stops right after it. */
  lemma ItemParsed(it: Item)
    requires StrictItem(it)
    ensures var x := ItemText(it);
            && SkipWs(x, 0) == |it.pre|
            && ParseValue(x, |it.pre|) == Some(Parsed(it.v, |it.pre| + |Text(it.v)|))
            && Parse(x) == Some(it.v)
  {
    hide Text, Strict, ParseValue, Run, AllIn;
    assert it.pre + Text(it.v) + it.post == "" + it.pre + Text(it.v) + it.post;
    GapDelimits(it.post);
    StrictExact("", it.pre, it.v, it.post);
  }

  lemma GapDelimits(gap: string)
    requires AllIn(gap, Space)
    ensures Delimited(gap, 0)
  {}

  lemma ItemUnique(it: Item)
    requires StrictItem(it)
    ensures IsFragment(ItemText(it)) && FragmentItem(ItemText(it)) == it
  {
    hide Text, Strict, ParseValue, Run, AllIn, Parse;
    var x := ItemText(it);
    var u := FragmentItem(x);
    ItemParsed(it);
    ItemParsed(u);
    assert x[..|it.pre|] == it.pre && x[..|u.pre|] == u.pre;
    assert x[|it.pre| + |Text(it.v)|..] == it.post && x[|u.pre| + |Text(u.v)|..] == u.post;
  }

  lemma ParseFragment(x: string)
    requires IsFragment(x)
    ensures Parse(x) == Some(FragmentTree(x))
    ensures ParseValue(x, SkipWs(x, 0)).Some?
  {
    hide ItemText, StrictItem, Parse, ParseValue, Run;
    ItemParsed(FragmentItem(x));
  }

  /** A whole text is a fragment without white space around its value. */
  lemma FragmentUnique(t: Tree)
    requires Strict(t)
    ensures IsWhole(Text(t)) && IsFragment(Text(t))
    ensures FragmentItem(Text(t)) == Entry(t) && FragmentTree(Text(t)) == t
  {
    hide ItemText, StrictItem, Text, Strict;
    EntryText(t);
    ItemUnique(Entry(t));
  }

  lemma WholeIsFragment(x: string)
    requires IsWhole(x)
    ensures IsFragment(x) && Text(FragmentTree(x)) == x
  {
    hide Text, Strict, IsFragment;
    var t :| Strict(t) && Text(t) == x;
    FragmentUnique(t);
  }

  /** A whole text on its own is one complete value: the walker consumes it to the last byte. */
  lemma WholeIsComplete(x: string)
    requires IsWhole(x)
    ensures SkipWs(x, 0) == 0
    ensures ParseValue(x, 0).Some? && ParseValue(x, 0).value.end == |x|
    ensures Walker.SkipEnd(x, 0) == Some(|x|)
  {
    hide Text, Strict, ParseValue, Run;
    var t :| Strict(t) && Text(t) == x;
    StrictBody(t);
  }

  // ---- Lists of fragments ----

  ghost predicate AllFragments(parts: seq<string>) {
    forall k :: 0 <= k < |parts| ==> IsFragment(parts[k])
  }

  ghost function FragmentItems(parts: seq<string>): (items: seq<Item>)
    requires AllFragments(parts)
    ensures |items| == |parts| && forall k :: 0 <= k < |parts| ==> items[k] == FragmentItem(parts[k])
  {
    seq(|parts|, k requires 0 <= k < |parts| => FragmentItem(parts[k]))
  }

  /** Fragments joined by commas between brackets are the array of their items. */
  lemma ListIsFragment(parts: seq<string>)
    requires AllFragments(parts)
    ensures IsFragment("[" + Commas(parts) + "]")
    ensures FragmentTree("[" + Commas(parts) + "]") == ArrTree(FragmentItems(parts))
  {
    hide IsFragment, Text, Strict, ItemText, StrictItem;
    var items := FragmentItems(parts);
    ItemsAreCommas(items, parts);
    ListText(items, parts);
    FragmentUnique(ArrTree(items));
  }

  lemma ListText(items: seq<Item>, parts: seq<string>)
    requires |items| == |parts| && ItemsText(items) == Commas(parts)
    requires forall k :: 0 <= k < |items| ==> StrictItem(items[k])
    ensures Text(ArrTree(items)) == "[" + Commas(parts) + "]" && Strict(ArrTree(items))
  {
    hide StrictItem, Commas;
    assert items == [] ==> ItemsText(items) == "";
  }

  /** The value of the first member with a name, of whatever kind. */
  function Named(ms: seq<Member>, key: string): Option<Tree> {
    if ms == [] then None
    else if Meaning(ms[0].name) == key then Some(ms[0].item.v)
    else Named(ms[1..], key)
  }

  function OrElse<T>(a: Option<T>, b: Option<T>): Option<T> {
    if a.Some? then a else b
  }

  lemma {:induction false} NamedAppend(ms: seq<Member>, m: Member, key: string)
    ensures Named(ms + [m], key) == OrElse(Named(ms, key), if Meaning(m.name) == key then Some(m.item.v) else None)
    decreases |ms|
  {
    hide Meaning;
    if ms == [] {
      assert [m][1..] == [];
      assert [] + [m] == [m];
    } else {
      assert (ms + [m])[1..] == ms[1..] + [m];
      NamedAppend(ms[1..], m, key);
    }
  }

  lemma NameMeaning(name: string)
    ensures Meaning(RawPieces(name)) == name
  {
    RawMeaning(name, []);
    assert RawPieces(name) + [] == RawPieces(name);
    assert name + "" == name;
  }

  /** Appends a field whose value is a fragment; lookups see it after the fields before it. */
  lemma GrowFragment(b: string, prefix: string, ms: seq<Member>, name: string, x: string) returns (ms': seq<Member>)
    requires Holds(b, prefix, ms) && IsName(name) && IsFragment(x)
    ensures Holds(b + "," + Key(name) + x, prefix, ms')
    ensures forall key :: Named(ms', key) == OrElse(Named(ms, key), if key == name then Some(FragmentTree(x)) else None)
  {
    hide Holds, Key, ItemText, StrictItem, IsFragment, Meaning, Named;
    var m := FieldOf(name, FragmentItem(x));
    GrowItem(b, prefix, ms, name, FragmentItem(x));
    ms' := ms + [m];
    NameMeaning(name);
    forall key ensures Named(ms', key) == OrElse(Named(ms, key), if key == name then Some(FragmentTree(x)) else None) {
      NamedAppend(ms, m, key);
    }
  }

  lemma StartFragment(prefix: string, name: string, x: string) returns (ms: seq<Member>)
    requires IsName(name) && IsFragment(x)
    ensures Holds(prefix + Key(name) + x, prefix, ms)
    ensures forall key :: Named(ms, key) == if key == name then Some(FragmentTree(x)) else None
  {
    hide Holds, Key, ItemText, StrictItem, IsFragment, Meaning;
    StartItem(prefix, name, FragmentItem(x));
    ms := [FieldOf(name, FragmentItem(x))];
    NameMeaning(name);
    assert ms[1..] == [];
  }

  lemma FinishFragment(b: string, ms: seq<Member>)
    requires Holds(b, "{", ms)
    ensures IsWhole(b + "}") && IsFragment(b + "}") && FragmentTree(b + "}") == ObjTree(ms)
  {
    hide Holds, Text, Strict, IsFragment, IsWhole;
    assert "" + "{" == "{";
    Finish(b, "", ms);
    assert b + "}" == Text(ObjTree(ms));
    FragmentUnique(ObjTree(ms));
  }

  lemma QuotedIsFragment(x: string)
    ensures IsFragment(Quoted(x)) && FragmentTree(Quoted(x)) == StrTree(x)
  {
    hide Text, Strict, IsFragment;
    StrTreeText(x);
    FragmentUnique(StrTree(x));
  }

  lemma IntIsFragment(n: int)
    ensures IsFragment(IntText(n)) && FragmentTree(IntText(n)) == IntTree(n)
  {
    IntTreeStrict(n);
    FragmentUnique(IntTree(n));
  }

  lemma NameIsFragment(name: string)
    requires IsName(name)
    ensures IsFragment("\"" + name + "\"") && FragmentTree("\"" + name + "\"") == Str(RawPieces(name))
  {
    hide RawPieces, PiecesText, IsFragment;
    var t := Str(RawPieces(name));
    RawPiecesText(name);
    forall k | 0 <= k < |name| ensures Legal(Raw(name[k])) {
      assert IsNameChar(name[k]);
    }
    RawPiecesLegal(name);
    assert Text(t) == "\"" + name + "\"" && Strict(t);
    FragmentUnique(t);
  }

  lemma BoolIsFragment(b: bool)
    ensures var x := if b then "true" else "false"; IsFragment(x) && FragmentTree(x) == BoolTree(b)
  {
    hide IsFragment;
    var t := BoolTree(b);
    assert Text(t) == (if b then "true" else "false") && Strict(t);
    FragmentUnique(t);
  }
}
