/** Reading values out of a body along a path of member names. */
module Paths {
  import opened Bytes
  import opened StringLaws
  import opened Strings
  import opened Numbers
  import opened Grammar
  import opened Build
  import opened Fragments

  function Along(t: Tree, path: seq<string>): Option<Tree>
    decreases path
  {
    if path == [] then Some(t)
    else if !t.Obj? then None
    else
      match Named(t.members, path[0])
      case None => None
      case Some(v) => Along(v, path[1..])
  }

  lemma AlongStep(t: Tree, name: string, rest: seq<string>)
    requires t.Obj? && Named(t.members, name).Some?
    ensures Along(t, [name] + rest) == Along(Named(t.members, name).value, rest)
  {
    assert ([name] + rest)[1..] == rest;
  }

  /** The member called name of the object a body consists of. */
  function MemberIn(body: string, name: string): Option<Tree> {
    match Parse(body)
    case None => None
    case Some(t) => if t.Obj? then Named(t.members, name) else None
  }

  lemma MemberOfFragment(body: string, name: string)
    requires IsFragment(body) && FragmentTree(body).Obj?
    ensures MemberIn(body, name) == Named(FragmentTree(body).members, name)
  {
    hide IsFragment, Named, Parse;
    ParseFragment(body);
  }

  // ---- What a member holds ----

  function StringOf(v: Option<Tree>): Option<string> {
    match v
    case Some(Str(ps)) => Some(Meaning(ps))
    case _ => None
  }

  function IntOf(v: Option<Tree>): Option<int> {
    match v
    case Some(Number(x)) => if IsPlain(x) then Some(PlainValue(x)) else None
    case _ => None
  }

  function LexemeOf(v: Option<Tree>): Option<string> {
    match v
    case Some(Number(x)) => Some(x)
    case _ => None
  }

  function BoolOf(v: Option<Tree>): Option<bool> {
    match v
    case Some(Word(x)) => if x == "true" then Some(true) else if x == "false" then Some(false) else None
    case _ => None
  }

  function Elements(items: seq<Item>): seq<Tree> {
    seq(|items|, k requires 0 <= k < |items| => items[k].v)
  }

  /** The elements of an array member; none if there is no such member. */
  function ListOf(v: Option<Tree>): seq<Tree> {
    match v
    case Some(Arr(_, items)) => Elements(items)
    case _ => []
  }

  lemma NothingHeld()
    ensures StringOf(None) == None && IntOf(None) == None && LexemeOf(None) == None && ListOf(None) == []
  {}

  lemma QuotedHolds(x: string)
    ensures IsFragment(Quoted(x)) && StringOf(Some(FragmentTree(Quoted(x)))) == Some(x)
  {
    hide IsFragment;
    QuotedIsFragment(x);
    EscapeFaithful(x);
  }

  lemma IntHolds(n: int)
    ensures IsFragment(IntText(n)) && IntOf(Some(FragmentTree(IntText(n)))) == Some(n)
  {
    hide IsFragment;
    IntIsFragment(n);
    IntTextPlain(n);
  }

  lemma BoolHolds(b: bool)
    ensures var x := if b then "true" else "false"; IsFragment(x) && BoolOf(Some(FragmentTree(x))) == Some(b)
  {
    hide IsFragment;
    BoolIsFragment(b);
    assert "true"[0] != "false"[0];
  }

  lemma NameHolds(name: string)
    requires IsName(name)
    ensures IsFragment("\"" + name + "\"") && StringOf(Some(FragmentTree("\"" + name + "\""))) == Some(name)
  {
    hide IsFragment;
    NameIsFragment(name);
    NameMeaning(name);
  }

  ghost function Trees(parts: seq<string>): (ts: seq<Tree>)
    requires AllFragments(parts)
    ensures |ts| == |parts| && forall k :: 0 <= k < |parts| ==> ts[k] == FragmentTree(parts[k])
  {
    seq(|parts|, k requires 0 <= k < |parts| => FragmentTree(parts[k]))
  }

  /** A list in brackets holds its parts, in order. */
  lemma ListHolds(parts: seq<string>)
    requires AllFragments(parts)
    ensures IsFragment("[" + Commas(parts) + "]")
    ensures ListOf(Some(FragmentTree("[" + Commas(parts) + "]"))) == Trees(parts)
  {
    hide IsFragment;
    ListIsFragment(parts);
    assert Elements(FragmentItems(parts)) == Trees(parts);
  }

  /** An array member, or its absence, holds exactly what its parts parse to, in order. */
  predicate ListReads(v: Option<Tree>, parts: seq<string>) {
    && |ListOf(v)| == |parts|
    && forall k :: 0 <= k < |parts| ==> Parse(parts[k]) == Some(ListOf(v)[k])
  }

  lemma ListIsRead(parts: seq<string>)
    requires AllFragments(parts)
    ensures IsFragment("[" + Commas(parts) + "]")
    ensures ListReads(Some(FragmentTree("[" + Commas(parts) + "]")), parts)
  {
    hide IsFragment, Parse, ListOf;
    ListHolds(parts);
    forall k | 0 <= k < |parts| ensures Parse(parts[k]) == Some(FragmentTree(parts[k])) {
      ParseFragment(parts[k]);
    }
  }

  lemma NothingRead(parts: seq<string>)
    ensures parts == [] ==> ListReads(None, parts)
  {}

  /** Looking up the fields of a built object. */
  lemma FieldThen(name: string, v: Tree, rest: seq<Member>, key: string)
    ensures Named([Field(name, v)] + rest, key) == if key == name then Some(v) else Named(rest, key)
  {
    hide RawPieces, Meaning;
    NameMeaning(name);
    assert ([Field(name, v)] + rest)[1..] == rest;
  }
}
