/**
 What the getters return on a body that starts with an object, in any layout: the value of
 the first member with the key's decoded name and the wanted kind, at that level only.
 */
module Fields {
  import opened Bytes
  import opened Strings
  import opened Numbers
  import opened Grammar
  import opened GrammarLaws
  import opened Values
  import opened Lookup

  // ---- Reading a member of a tree ----

  function StringIn(t: Tree, key: string, other: string): string {
    match Find(t, key, AString)
    case Some(v) => Meaning(v.ps)
    case None => other
  }

  function BoolIn(t: Tree, key: string, other: bool): bool {
    match Find(t, key, ABool)
    case Some(v) => v.x == "true"
    case None => other
  }

  /** The exact source text of a container member. */
  function RawIn(t: Tree, key: string, kind: Kind, other: string): string {
    match Find(t, key, kind)
    case Some(v) => Text(v)
    case None => other
  }

  function UintIn(t: Tree, key: string): Option<uint64> {
    match Find(t, key, AUnsigned)
    case Some(v) => Strtoull(v.x)
    case None => Some(0)
  }

  function IntIn(t: Tree, key: string, cast: string -> int64): int64 {
    match Find(t, key, ANumber)
    case Some(v) => ToInt(v.x, cast)
    case None => 0
  }

  // ---- The getters read members ----

  /**
   get_string: on a non-empty object it always returns true, and writes the decoded first
   matching string, or nothing; on an empty object it returns false and writes nothing.
   */
  lemma StringFieldIsFind(body: string, key: string, out: string)
    requires IsObject(body)
    ensures var t := Parse(body).value;
            StringField(body, key, out) == (t.members != [], StringIn(t, key, out))
  {
    hide StringAt, PiecesAt, Find, Parse, Meaning;
    ScanIsFind(body, key, AString);
    EmptyHasNone(body, key, AString);
    match ScanObject(body, key, AString) {
      case Hit(at) => StringIsMeaning(body, at + 1);
      case Miss =>
      case Bad =>
    }
  }

  lemma EmptyHasNone(body: string, key: string, kind: Kind)
    requires IsObject(body)
    ensures Parse(body).value.members == [] ==> Find(Parse(body).value, key, kind).None?
  {
    hide Parse;
  }

  lemma BoolFieldIsFind(body: string, key: string, out: bool)
    requires IsObject(body)
    requires var v := Find(Parse(body).value, key, ABool); v.Some? ==> IsKeyword(v.value)
    ensures var t := Parse(body).value;
            BoolField(body, key, out) == (t.members != [], BoolIn(t, key, out))
  {
    hide Find, Parse, Run;
    ScanIsFind(body, key, ABool);
    EmptyHasNone(body, key, ABool);
    match ScanObject(body, key, ABool) {
      case Hit(at) => KeywordRuns(body, at);
      case Miss =>
      case Bad =>
    }
  }

  /** The number lexeme a numeric getter converts is the member's. */
  lemma LexemeAt(body: string, at: nat)
    requires at < |body| && StartsNumber(body[at])
    ensures ParseValue(body, at) == Some(Parsed(Number(body[at..Run(body, at, Numeric)]), Run(body, at, Numeric)))
  {
    hide Run;
  }

  lemma IntFieldIsFind(body: string, key: string, out: int64, cast: string -> int64)
    requires IsObject(body)
    ensures var t := Parse(body).value;
            IntField(body, key, out, cast) == if t.members == [] then (false, out) else (true, IntIn(t, key, cast))
  {
    hide Find, Parse, Run, ToInt;
    ScanIsFind(body, key, ANumber);
    match ScanObject(body, key, ANumber) {
      case Hit(at) => LexemeAt(body, at);
      case Miss =>
      case Bad =>
    }
  }

  /** get_uint64 fails on an empty object and on a number that is not a run of digits. */
  lemma UintFieldIsFind(body: string, key: string, out: uint64)
    requires IsObject(body)
    ensures var t := Parse(body).value;
            UintField(body, key, out) ==
              if t.members == [] then (false, out)
              else if Find(t, key, AUnsigned).None? then (true, out)
              else if UintIn(t, key).None? then (false, out)
              else (true, UintIn(t, key).value)
  {
    hide Find, Parse, Run, Strtoull;
    ScanIsFind(body, key, AUnsigned);
    match ScanObject(body, key, AUnsigned) {
      case Hit(at) => LexemeAt(body, at);
      case Miss =>
      case Bad =>
    }
  }

  /** get_object_raw and get_array_raw write the exact source slice, which parses by itself. */
  lemma RawFieldIsFind(body: string, key: string, kind: Kind, out: string)
    requires IsObject(body)
    ensures var t := Parse(body).value;
            && RawField(body, key, kind, out) == (t.members != [], RawIn(t, key, kind, out))
            && (Find(t, key, kind).Some? ==> Parse(RawIn(t, key, kind, out)) == Find(t, key, kind))
  {
    hide Find, Parse, Text, ParseValue;
    ScanIsFind(body, key, kind);
    EmptyHasNone(body, key, kind);
    match ScanObject(body, key, kind) {
      case Hit(at) => SliceParses(body, at);
      case Miss =>
      case Bad =>
    }
  }

  /** On a body that starts with anything but an object, every getter fails and writes nothing. */
  lemma NoObjectFails(body: string, key: string, cast: string -> int64)
    requires var j := SkipWs(body, 0); j < |body| ==> body[j] != '{'
    ensures forall out :: StringField(body, key, out) == (false, out)
    ensures forall out :: BoolField(body, key, out) == (false, out)
    ensures forall out: int64 :: IntField(body, key, out, cast) == (false, out)
    ensures forall out: uint64 :: UintField(body, key, out) == (false, out)
    ensures forall kind, out :: RawField(body, key, kind, out) == (false, out)
  {
    hide SkipWs;
  }

  /**
   The comment on the getters, "returns true on success", is false of the code: a getter
   returns true, and writes nothing, on {"a":1} for a key that is not there.
   */
  lemma FoundIsNotPresent()
    ensures StringField("{\"a\":1}", "b", "before") == (true, "before")
  {
    var t := Obj("", [Member("", [Raw('a')], "", Item("", Number("1"), ""))]);
    assert t.members[1..] == [];
    assert PiecesText([Raw('a')]) == "a" by { assert [Raw('a')][1..] == []; }
    assert Text(t) == "{\"a\":1}";
    assert AllAccepted([Raw('a')], 4);
    ParseText(t);
    StringFieldIsFind(Text(t), "b", "before");
    assert Find(t, "b", AString).None?;
  }
}
