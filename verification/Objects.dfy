/** Objects as lists of names and texts: the text of an object determines the list. */
module Objects {
  import opened Bytes
  import opened StringLaws
  import opened Numbers
  import opened Grammar
  import opened GrammarLaws
  import opened Build
  import opened Fragments
  import opened Paths

  datatype Pair = Pair(name: string, text: string)

  function PairText(p: Pair): string { Key(p.name) + p.text }

  function PairTexts(ps: seq<Pair>): seq<string> {
    seq(|ps|, k requires 0 <= k < |ps| => PairText(ps[k]))
  }

  function ObjectText(ps: seq<Pair>): string { "{" + Commas(PairTexts(ps)) + "}" }

  ghost predicate Writable(ps: seq<Pair>) {
    forall k :: 0 <= k < |ps| ==> IsName(ps[k].name) && IsFragment(ps[k].text)
  }

  ghost function PairMembers(ps: seq<Pair>): (ms: seq<Member>)
    requires Writable(ps)
    ensures |ms| == |ps| && forall k :: 0 <= k < |ps| ==> ms[k] == FieldOf(ps[k].name, FragmentItem(ps[k].text))
  {
    seq(|ps|, k requires 0 <= k < |ps| => FieldOf(ps[k].name, FragmentItem(ps[k].text)))
  }

  lemma {:induction false} MembersAreCommas(ms: seq<Member>, parts: seq<string>)
    requires |ms| == |parts|
    requires forall k :: 0 <= k < |ms| ==> MemberText(ms[k]) == parts[k]
    ensures MembersText(ms) == Commas(parts)
    decreases |ms|
  {
    hide MemberText;
    if ms != [] {
      MembersAreCommas(ms[1..], parts[1..]);
    }
  }

  /** The tree of an object that is written from names and texts. */
  lemma ObjectIsWritten(ps: seq<Pair>)
    requires Writable(ps)
    ensures Text(ObjTree(PairMembers(ps))) == ObjectText(ps) && Strict(ObjTree(PairMembers(ps)))
  {
    hide MemberText, StrictMember, Key, ItemText, StrictItem, FieldOf, IsName, IsFragment;
    var ms := PairMembers(ps);
    forall k | 0 <= k < |ps| ensures MemberText(ms[k]) == PairTexts(ps)[k] && StrictMember(ms[k]) {
      FieldText(ps[k].name, FragmentItem(ps[k].text));
    }
    MembersAreCommas(ms, PairTexts(ps));
    MembersInBraces(ms, PairTexts(ps));
  }

  lemma MembersInBraces(ms: seq<Member>, parts: seq<string>)
    requires |ms| == |parts| && MembersText(ms) == Commas(parts)
    requires forall k :: 0 <= k < |ms| ==> StrictMember(ms[k])
    ensures Text(ObjTree(ms)) == "{" + Commas(parts) + "}" && Strict(ObjTree(ms))
  {
    hide StrictMember, Commas;
    assert ms == [] ==> MembersText(ms) == "";
  }

  /** Two objects with the same text have the same names and texts, in the same order. */
  lemma ObjectInjective(ps: seq<Pair>, qs: seq<Pair>)
    requires Writable(ps) && Writable(qs) && ObjectText(ps) == ObjectText(qs)
    ensures ps == qs
  {
    hide Text, Strict, ObjectText, IsFragment, IsWhole, IsName, FieldOf, ItemText, StrictItem;
    ObjectIsWritten(ps);
    ObjectIsWritten(qs);
    FragmentUnique(ObjTree(PairMembers(ps)));
    FragmentUnique(ObjTree(PairMembers(qs)));
    assert PairMembers(ps) == PairMembers(qs);
    forall k | 0 <= k < |ps| ensures ps[k] == qs[k] {
      assert PairMembers(ps)[k] == PairMembers(qs)[k];
      FieldInjective(ps[k].name, FragmentItem(ps[k].text), qs[k].name, FragmentItem(qs[k].text));
    }
  }

  lemma FieldInjective(name: string, it: Item, name': string, it': Item)
    requires FieldOf(name, it) == FieldOf(name', it')
    ensures name == name' && it == it'
  {
    hide RawPieces;
    NameMeaning(name);
    NameMeaning(name');
  }

  /** Two lists with the same text have the same elements. */
  lemma ListInjective(xs: seq<string>, ys: seq<string>)
    requires AllFragments(xs) && AllFragments(ys) && "[" + Commas(xs) + "]" == "[" + Commas(ys) + "]"
    ensures xs == ys
  {
    hide IsFragment, Commas, ItemText, StrictItem;
    ListIsFragment(xs);
    ListIsFragment(ys);
    assert FragmentItems(xs) == FragmentItems(ys);
    forall k | 0 <= k < |xs| ensures xs[k] == ys[k] {
      assert FragmentItems(xs)[k] == FragmentItems(ys)[k];
    }
  }

  lemma QuotedInjective(x: string, y: string)
    ensures Quoted(x) == Quoted(y) <==> x == y
  {
    hide Quoted, IsFragment;
    QuotedHolds(x);
    QuotedHolds(y);
  }

  lemma IntTextInjective(m: int, n: int)
    ensures IntText(m) == IntText(n) <==> m == n
  {
    hide IntText;
    IntTextPlain(m);
    IntTextPlain(n);
  }

  lemma NatTextInjective(m: nat, n: nat)
    ensures NatText(m) == NatText(n) <==> m == n
  {
    hide NatText;
    NatTextInverse(m);
    NatTextInverse(n);
  }

  // ---- Members that may be left out ----

  /** The pairs of those names that have a text. */
  function Select(names: seq<string>, xs: seq<Option<string>>): seq<Pair>
    requires |names| == |xs|
  {
    if names == [] then []
    else (if xs[0].Some? then [Pair(names[0], xs[0].value)] else []) + Select(names[1..], xs[1..])
  }

  predicate Distinct(names: seq<string>) {
    forall i, j :: 0 <= i < j < |names| ==> names[i] != names[j]
  }

  ghost predicate AllWritable(names: seq<string>, xs: seq<Option<string>>)
    requires |names| == |xs|
  {
    forall k :: 0 <= k < |names| ==> IsName(names[k]) && (xs[k].Some? ==> IsFragment(xs[k].value))
  }

  lemma WritableStep(name: string, names: seq<string>, x: Option<string>, xs: seq<Option<string>>)
    requires |names| == |xs| && AllWritable(names, xs) && IsName(name) && (x.Some? ==> IsFragment(x.value))
    ensures AllWritable([name] + names, [x] + xs)
  {
    hide IsName, IsFragment;
  }

  lemma NothingWritable()
    ensures AllWritable([], [])
  {}

  lemma {:induction false} SelectWritable(names: seq<string>, xs: seq<Option<string>>)
    requires |names| == |xs| && AllWritable(names, xs)
    ensures Writable(Select(names, xs))
    decreases |names|
  {
    hide IsName, IsFragment;
    if names != [] { SelectWritable(names[1..], xs[1..]); }
  }

  lemma {:induction false} SelectNames(names: seq<string>, xs: seq<Option<string>>)
    requires |names| == |xs|
    ensures forall k :: 0 <= k < |Select(names, xs)| ==> Select(names, xs)[k].name in names
    decreases |names|
  {
    if names != [] { SelectNames(names[1..], xs[1..]); }
  }

  /** The first name is there exactly if its text is. */
  lemma SelectHead(names: seq<string>, xs: seq<Option<string>>)
    requires |names| == |xs| && names != [] && Distinct(names)
    ensures var ps, rest := Select(names, xs), Select(names[1..], xs[1..]);
            && (xs[0].Some? <==> ps != [] && ps[0].name == names[0])
            && (xs[0].Some? ==> ps[0].text == xs[0].value && ps[1..] == rest)
            && (xs[0].None? ==> ps == rest)
  {
    SelectNames(names[1..], xs[1..]);
    FirstNotLater(names);
  }

  /** With distinct names, what is there determines what was to be written. */
  lemma {:induction false} SelectInjective(names: seq<string>, xs: seq<Option<string>>, ys: seq<Option<string>>)
    requires |names| == |xs| == |ys| && Distinct(names) && Select(names, xs) == Select(names, ys)
    ensures xs == ys
    decreases |names|
  {
    hide Select;
    if names != [] {
      SelectHead(names, xs);
      SelectHead(names, ys);
      FirstNotLater(names);
      SelectInjective(names[1..], xs[1..], ys[1..]);
      assert xs == [xs[0]] + xs[1..] && ys == [ys[0]] + ys[1..];
    }
  }

  lemma FirstNotLater(names: seq<string>)
    requires Distinct(names) && names != []
    ensures names[0] !in names[1..] && Distinct(names[1..])
  {}

  function WithOption(b: string, name: string, x: Option<string>): string {
    if x.Some? then b + "," + Key(name) + x.value else b
  }

  /** The text of an object, member by member. */
  function Chain(b: string, names: seq<string>, xs: seq<Option<string>>): string
    requires |names| == |xs|
    decreases |names|
  {
    if names == [] then b else Chain(WithOption(b, names[0], xs[0]), names[1..], xs[1..])
  }

  lemma ChainStep(b: string, name: string, names: seq<string>, x: Option<string>, xs: seq<Option<string>>)
    requires |names| == |xs|
    ensures Chain(b, [name] + names, [x] + xs) == Chain(WithOption(b, name, x), names, xs)
  {
    assert ([name] + names)[1..] == names && ([x] + xs)[1..] == xs;
  }

  lemma ChainEnds(b: string)
    ensures Chain(b, [], []) == b
  {}

  lemma {:induction false} ChainIsSelect(ps: seq<Pair>, names: seq<string>, xs: seq<Option<string>>)
    requires |names| == |xs| && ps != []
    ensures Chain("{" + Commas(PairTexts(ps)), names, xs) == "{" + Commas(PairTexts(ps + Select(names, xs)))
    decreases |names|
  {
    hide Key, Commas;
    if names == [] {
      assert ps + [] == ps;
    } else {
      var front := if xs[0].Some? then [Pair(names[0], xs[0].value)] else [];
      assert ps + Select(names, xs) == (ps + front) + Select(names[1..], xs[1..]);
      ChainIsSelect(ps + front, names[1..], xs[1..]);
      PairAppended(ps, names[0], xs[0]);
    }
  }

  lemma PairAppended(ps: seq<Pair>, name: string, x: Option<string>)
    requires ps != []
    ensures var front := if x.Some? then [Pair(name, x.value)] else [];
            "{" + Commas(PairTexts(ps + front)) == WithOption("{" + Commas(PairTexts(ps)), name, x)
  {
    hide Key, Commas;
    if x.Some? {
      var p := Pair(name, x.value);
      assert PairTexts(ps + [p]) == PairTexts(ps) + [PairText(p)];
      CommasAppend(PairTexts(ps), PairText(p));
      var done := Commas(PairTexts(ps));
      assert "{" + (done + "," + (Key(name) + x.value)) == "{" + done + "," + Key(name) + x.value;
    } else {
      assert ps + [] == ps;
    }
  }

  /** The first member is always there. */
  lemma ChainIsObject(name: string, x: string, names: seq<string>, xs: seq<Option<string>>)
    requires |names| == |xs|
    ensures Chain("{" + Key(name) + x, names, xs) + "}" == ObjectText(Select([name] + names, [Some(x)] + xs))
  {
    hide Key;
    var ps := [Pair(name, x)];
    assert PairTexts(ps) == [Key(name) + x];
    assert Commas(PairTexts(ps)) == Key(name) + x;
    assert "{" + (Key(name) + x) == "{" + Key(name) + x;
    ChainIsSelect(ps, names, xs);
    assert ([name] + names)[1..] == names && ([Some(x)] + xs)[1..] == xs;
  }

  /** Two objects built over the same distinct names have the same text only if they have the same parts. */
  lemma BuiltInjective(names: seq<string>, xs: seq<Option<string>>, ys: seq<Option<string>>)
    requires |names| == |xs| == |ys| && Distinct(names) && AllWritable(names, xs) && AllWritable(names, ys)
    requires ObjectText(Select(names, xs)) == ObjectText(Select(names, ys))
    ensures xs == ys
  {
    hide ObjectText, Select, Writable, AllWritable, Distinct;
    SelectWritable(names, xs);
    SelectWritable(names, ys);
    ObjectInjective(Select(names, xs), Select(names, ys));
    SelectInjective(names, xs, ys);
  }

  // ---- Lists that may be left out ----

  function ListPart(parts: seq<string>): Option<string> {
    if parts == [] then None else Some("[" + Commas(parts) + "]")
  }

  lemma ListPartInjective(xs: seq<string>, ys: seq<string>)
    requires AllFragments(xs) && AllFragments(ys)
    ensures ListPart(xs) == ListPart(ys) <==> xs == ys
    ensures ListPart(xs).Some? ==> IsFragment(ListPart(xs).value)
  {
    hide IsFragment, Commas;
    ListIsFragment(xs);
    if xs != [] && ys != [] && ListPart(xs) == ListPart(ys) { ListInjective(xs, ys); }
  }
}
