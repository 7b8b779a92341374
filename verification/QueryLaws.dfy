/** Every query, sql and retrieve_text body is a complete object that carries its request. */
module QueryLaws {
  import opened Bytes
  import opened Strings
  import opened StringLaws
  import opened Numbers
  import opened Grammar
  import opened GrammarLaws
  import opened Build
  import opened Fragments
  import opened Paths
  import opened Requests

  // ---- The document of a query ----

  /** Bounds are finite, in the at most 24 characters of %.17g, and raw JSON is valid. */
  ghost predicate SendableCondition(c: Condition) {
    match c.conditionJson
    case Some(x) => IsFragment(x)
    case None => c.kind == Range ==> SendableBound(c.lo) && SendableBound(c.hi)
  }

  ghost predicate SendableBound(bound: Option<string>) {
    bound.Some? ==> IsRfcNumber(bound.value) && |bound.value| <= 24
  }

  function BoundField(name: string, bound: Option<string>): seq<Member> {
    match bound
    case Some(x) => [Field(name, Number(x))]
    case None => []
  }

  function ConditionMembers(c: Condition): seq<Member> {
    var column := [Field("column_id", IntTree(c.columnId))];
    match c.kind
    case Pk => [Field("value", if c.strValue != "" then StrTree(c.strValue) else IntTree(c.intValue))]
    case BitmapEq => column + [Field("value", StrTree(c.strValue))]
    case Range => column + BoundField("lo", c.lo) + BoundField("hi", c.hi)
    case FmContains => column + [Field("pattern", StrTree(c.strValue))]
    case IsNull => column
    case IsNotNull => column
  }

  /** The tree of a condition that is built, not given as JSON. */
  function ConditionTree(c: Condition): Tree {
    ObjTree([Field(CondName(c.kind), ObjTree(ConditionMembers(c)))])
  }

  lemma GrowBound(b: string, prefix: string, ms: seq<Member>, name: string, bound: Option<string>)
    requires Holds(b, prefix, ms) && IsName(name) && |name| == 2 && SendableBound(bound)
    ensures Holds(WithBound(b, name, bound), prefix, ms + BoundField(name, bound))
  {
    hide Holds, IsName, IsRfcNumber, Field;
    if bound.Some? {
      var x := bound.value;
      assert |"," + Key(name) + x| == 6 + |x|;
      Grow(b, prefix, ms, name, Number(x));
      assert b + ("," + Key(name) + x) == b + "," + Key(name) + x;
    } else {
      assert ms + [] == ms;
    }
  }

  /** A condition on a column, up to its second field. */
  lemma ColumnHolds(c: Condition)
    ensures var prefix := "{" + Key(CondName(c.kind)) + "{";
            Holds(prefix + Key("column_id") + IntText(c.columnId), prefix, [Field("column_id", IntTree(c.columnId))])
  {
    hide Key, IntText, Holds, CondName;
    IntTreeStrict(c.columnId);
    Start("{" + Key(CondName(c.kind)) + "{", "column_id", IntTree(c.columnId));
  }

  lemma PkHolds(c: Condition)
    requires c.kind == Pk
    ensures Holds(ConditionHead(c), "{" + Key(CondName(c.kind)) + "{", ConditionMembers(c))
  {
    hide Key, Quoted, IntText, Holds, Text, Strict, CondName;
    var v := if c.strValue != "" then StrTree(c.strValue) else IntTree(c.intValue);
    StrTreeText(c.strValue);
    IntTreeStrict(c.intValue);
    Start("{" + Key(CondName(c.kind)) + "{", "value", v);
  }

  lemma RangeHolds(c: Condition)
    requires c.kind == Range && SendableBound(c.lo) && SendableBound(c.hi)
    ensures Holds(ConditionHead(c), "{" + Key(CondName(c.kind)) + "{", ConditionMembers(c))
  {
    hide Key, IntText, Holds, WithBound, SendableBound, CondName, BoundField;
    var prefix := "{" + Key(CondName(c.kind)) + "{";
    var b := prefix + Key("column_id") + IntText(c.columnId);
    var ms := [Field("column_id", IntTree(c.columnId))];
    ColumnHolds(c);
    GrowBound(b, prefix, ms, "lo", c.lo);
    GrowBound(WithBound(b, "lo", c.lo), prefix, ms + BoundField("lo", c.lo), "hi", c.hi);
  }

  lemma TextHolds(c: Condition)
    requires c.kind == BitmapEq || c.kind == FmContains
    ensures Holds(ConditionHead(c), "{" + Key(CondName(c.kind)) + "{", ConditionMembers(c))
  {
    hide Key, IntText, Quoted, Holds, CondName, IntTree, StrTree;
    ColumnAndText(c, if c.kind == BitmapEq then "value" else "pattern");
  }

  lemma ColumnAndText(c: Condition, key: string)
    requires IsName(key)
    ensures var prefix := "{" + Key(CondName(c.kind)) + "{";
            Holds(prefix + Key("column_id") + IntText(c.columnId) + "," + Key(key) + Quoted(c.strValue), prefix,
                  [Field("column_id", IntTree(c.columnId))] + [Field(key, StrTree(c.strValue))])
  {
    hide Key, IntText, Quoted, Holds, CondName, Text, Strict, Field, StrTree, IntTree, IsName;
    var prefix := "{" + Key(CondName(c.kind)) + "{";
    ColumnHolds(c);
    StrTreeText(c.strValue);
    Grow(prefix + Key("column_id") + IntText(c.columnId), prefix, [Field("column_id", IntTree(c.columnId))], key,
         StrTree(c.strValue));
  }

  lemma NullHolds(c: Condition)
    requires c.kind == IsNull || c.kind == IsNotNull
    ensures Holds(ConditionHead(c), "{" + Key(CondName(c.kind)) + "{", ConditionMembers(c))
  {
    hide Key, IntText, Holds, CondName;
    ColumnHolds(c);
  }

  /** Every condition is a complete RFC 8259 value; a built one has the tree ConditionTree. */
  lemma ConditionIsFragment(c: Condition)
    requires SendableCondition(c)
    ensures IsFragment(ConditionText(c)) && (c.conditionJson.None? ==> IsWhole(ConditionText(c)))
    ensures c.conditionJson.None? ==> FragmentTree(ConditionText(c)) == ConditionTree(c)
  {
    hide Key, Holds, Text, Strict, ConditionHead, SendableBound, CondName, ConditionMembers, IsFragment, IsWhole;
    if c.conditionJson.None? {
      match c.kind {
        case Pk => PkHolds(c);
        case BitmapEq => TextHolds(c);
        case Range => RangeHolds(c);
        case FmContains => TextHolds(c);
        case IsNull => NullHolds(c);
        case IsNotNull => NullHolds(c);
      }
      WrapText(CondName(c.kind), ConditionHead(c), ConditionMembers(c));
      FragmentUnique(ConditionTree(c));
    }
  }

  // ---- Reading a condition back ----

  /** What a condition asks for: the fields that its kind uses. */
  datatype Test =
    | PkText(key: string)
    | PkInt(n: int)
    | Equals(column: int, value: string)
    | Within(column: int, lo: Option<string>, hi: Option<string>)
    | Contains(column: int, pattern: string)
    | Null(column: int, negated: bool)

  function TestOf(c: Condition): Test {
    match c.kind
    case Pk => if c.strValue != "" then PkText(c.strValue) else PkInt(c.intValue)
    case BitmapEq => Equals(c.columnId, c.strValue)
    case Range => Within(c.columnId, c.lo, c.hi)
    case FmContains => Contains(c.columnId, c.strValue)
    case IsNull => Null(c.columnId, false)
    case IsNotNull => Null(c.columnId, true)
  }

  /** A reader of conditions, independent of the kinds of the builder. */
  function DecodeTest(x: string): Option<Test> {
    match Parse(x)
    case Some(Obj(_, ms)) =>
      if |ms| == 1 && ms[0].item.v.Obj? then TestIn(Meaning(ms[0].name), ms[0].item.v.members) else None
    case _ => None
  }

  function TestIn(name: string, ms: seq<Member>): Option<Test> {
    var value := Named(ms, "value");
    if name == "pk" then
      if StringOf(value).Some? then Some(PkText(StringOf(value).value))
      else if IntOf(value).Some? then Some(PkInt(IntOf(value).value))
      else None
    else
      match IntOf(Named(ms, "column_id"))
      case None => None
      case Some(column) =>
        if name == "bitmap_eq" && StringOf(value).Some? then Some(Equals(column, StringOf(value).value))
        else if name == "range" then Some(Within(column, LexemeOf(Named(ms, "lo")), LexemeOf(Named(ms, "hi"))))
        else if name == "fm_contains" && StringOf(Named(ms, "pattern")).Some? then
          Some(Contains(column, StringOf(Named(ms, "pattern")).value))
        else if name == "is_null" then Some(Null(column, false))
        else if name == "is_not_null" then Some(Null(column, true))
        else None
  }

  lemma KindNamesDiffer()
    ensures var p, b, r, f, n, m := "pk", "bitmap_eq", "range", "fm_contains", "is_null", "is_not_null";
            && p != b && p != r && p != f && p != n && p != m && b != r && b != f && b != n && b != m
            && r != f && r != n && r != m && f != n && f != m && n != m
  {
    assert |"pk"| == 2 && |"bitmap_eq"| == 9 && |"range"| == 5 && |"fm_contains"| == 11 && |"is_null"| == 7;
    assert |"is_not_null"| == 11 && "is_not_null"[0] == 'i' && "fm_contains"[0] == 'f';
  }

  lemma FieldNamesDiffer()
    ensures var c, v, p, l, h := "column_id", "value", "pattern", "lo", "hi";
            c != v && c != p && c != l && c != h && v != p && v != l && v != h && p != l && p != h && l != h
  {
    assert |"column_id"| == 9 && |"value"| == 5 && |"pattern"| == 7 && "lo"[0] == 'l' && "hi"[0] == 'h';
    assert |"lo"| == 2 && |"hi"| == 2;
  }

  lemma StrTreeHeld(x: string)
    ensures StringOf(Some(StrTree(x))) == Some(x)
  {
    EscapeFaithful(x);
  }

  lemma IntTreeHeld(n: int)
    ensures IntOf(Some(IntTree(n))) == Some(n) && StringOf(Some(IntTree(n))) == None
  {
    IntTextPlain(n);
  }

  lemma TwoFields(name: string, v: Tree, name2: string, v2: Tree, key: string)
    ensures var ms := [Field(name, v)] + [Field(name2, v2)];
            Named(ms, key) == if key == name then Some(v) else if key == name2 then Some(v2) else None
    ensures Named([Field(name, v)], key) == if key == name then Some(v) else None
  {
    hide Named, Field;
    FieldThen(name, v, [Field(name2, v2)], key);
    FieldThen(name2, v2, [], key);
    FieldThen(name, v, [], key);
    assert [Field(name2, v2)] + [] == [Field(name2, v2)] && [Field(name, v)] + [] == [Field(name, v)];
    NoFields(key);
  }

  lemma NoFields(key: string)
    ensures Named([], key) == None
  {}

  lemma RangeFields(c: Condition)
    requires c.kind == Range
    ensures var ms := ConditionMembers(c);
            && Named(ms, "column_id") == Some(IntTree(c.columnId))
            && LexemeOf(Named(ms, "lo")) == c.lo && LexemeOf(Named(ms, "hi")) == c.hi
  {
    hide Named, Field;
    FieldNamesDiffer();
    NothingHeld();
    var lo, hi := BoundField("lo", c.lo), BoundField("hi", c.hi);
    assert ConditionMembers(c) == [Field("column_id", IntTree(c.columnId))] + (lo + hi);
    forall key ensures Named(ConditionMembers(c), key)
                       == if key == "column_id" then Some(IntTree(c.columnId)) else Named(lo + hi, key) {
      FieldThen("column_id", IntTree(c.columnId), lo + hi, key);
    }
    forall key ensures Named(lo + hi, key)
                       == if key == "lo" && c.lo.Some? then Some(Number(c.lo.value)) else Named(hi, key) {
      if c.lo.Some? { FieldThen("lo", Number(c.lo.value), hi, key); } else { assert lo + hi == hi; }
    }
    forall key ensures Named(hi, key) == if key == "hi" && c.hi.Some? then Some(Number(c.hi.value)) else None {
      NoFields(key);
      if c.hi.Some? { FieldThen("hi", Number(c.hi.value), [], key); assert hi + [] == hi; }
    }
  }

  lemma TestRecovered(c: Condition)
    ensures TestIn(CondName(c.kind), ConditionMembers(c)) == Some(TestOf(c))
  {
    hide Named, Field, StringOf, IntOf, LexemeOf, StrTree, IntTree;
    KindNamesDiffer();
    FieldNamesDiffer();
    StrTreeHeld(c.strValue);
    IntTreeHeld(c.columnId);
    IntTreeHeld(c.intValue);
    match c.kind {
      case Pk =>
        var v := if c.strValue != "" then StrTree(c.strValue) else IntTree(c.intValue);
        TwoFields("value", v, "", IntTree(0), "value");
      case BitmapEq =>
        TwoFields("column_id", IntTree(c.columnId), "value", StrTree(c.strValue), "column_id");
        TwoFields("column_id", IntTree(c.columnId), "value", StrTree(c.strValue), "value");
      case Range => RangeFields(c);
      case FmContains =>
        TwoFields("column_id", IntTree(c.columnId), "pattern", StrTree(c.strValue), "column_id");
        TwoFields("column_id", IntTree(c.columnId), "pattern", StrTree(c.strValue), "pattern");
      case IsNull => TwoFields("column_id", IntTree(c.columnId), "", IntTree(0), "column_id");
      case IsNotNull => TwoFields("column_id", IntTree(c.columnId), "", IntTree(0), "column_id");
    }
  }

  /** Reading a built condition gives back the kind and every field the kind uses. */
  lemma ConditionRecovered(c: Condition)
    requires SendableCondition(c) && c.conditionJson.None?
    ensures DecodeTest(ConditionText(c)) == Some(TestOf(c))
  {
    hide IsFragment, IsWhole, Text, Strict, Parse, TestIn, ConditionMembers, TestOf, CondName, ConditionText, RawPieces,
         Meaning;
    ConditionIsFragment(c);
    ParseFragment(ConditionText(c));
    NameMeaning(CondName(c.kind));
    TestRecovered(c);
  }

  // ---- Whole bodies ----

  lemma BodyNamesDiffer()
    ensures var t, c, p, l, o := "table", "conditions", "projection", "limit", "offset";
            && t != c && t != p && t != l && t != o && c != p && c != l && c != o && p != l && p != o && l != o
            && IsName(t) && IsName(c) && IsName(p) && IsName(l) && IsName(o)
  {
    assert "table"[0] == 't' && "conditions"[0] == 'c' && "projection"[0] == 'p';
    assert "limit"[0] == 'l' && "offset"[0] == 'o';
  }

  lemma ConditionsAreFragments(conditions: seq<Condition>)
    requires forall k :: 0 <= k < |conditions| ==> SendableCondition(conditions[k])
    ensures AllFragments(ConditionTexts(conditions))
  {
    hide IsFragment, IsWhole, ConditionText, SendableCondition;
    forall k | 0 <= k < |conditions| ensures IsFragment(ConditionTexts(conditions)[k]) {
      ConditionIsFragment(conditions[k]);
    }
  }

  lemma IntsAreFragments(ns: seq<int64>)
    ensures AllFragments(IntTexts(ns))
    ensures forall k :: 0 <= k < |ns| ==> IntOf(Parse(IntTexts(ns)[k])) == Some(ns[k])
  {
    hide IsFragment, IsWhole, IntText, IntOf, Parse;
    forall k | 0 <= k < |ns| ensures IsFragment(IntTexts(ns)[k]) && IntOf(Parse(IntTexts(ns)[k])) == Some(ns[k]) {
      IntHolds(ns[k]);
      ParseFragment(IntText(ns[k]));
    }
  }

  /** The members of a query: limits below one and a zero offset are left out. */
  ghost predicate QueryReads(
    ms: seq<Member>, table: string, conditions: seq<Condition>, projection: seq<int64>, limit: int64, offset: int64)
  {
    && StringOf(Named(ms, "table")) == Some(table)
    && ListReads(Named(ms, "conditions"), ConditionTexts(conditions))
    && ListReads(Named(ms, "projection"), IntTexts(projection))
    && IntOf(Named(ms, "limit")) == (if limit > 0 then Some(limit) else None)
    && IntOf(Named(ms, "offset")) == (if offset != 0 then Some(offset) else None)
  }

  /** Every query body is a complete RFC 8259 object that carries the whole query. */
  lemma QueryBodyIsFragment(
    table: string, conditions: seq<Condition>, projection: seq<int64>, limit: int64, offset: int64)
    requires forall k :: 0 <= k < |conditions| ==> SendableCondition(conditions[k])
    ensures var x := QueryBody(table, conditions, projection, limit, offset);
            && IsWhole(x) && IsFragment(x) && FragmentTree(x).Obj?
            && QueryReads(FragmentTree(x).members, table, conditions, projection, limit, offset)
  {
    hide Key, Quoted, IntText, Holds, IsFragment, IsWhole, Commas, ConditionTexts, IntTexts, SendableCondition, Named,
         IsName, StringOf, IntOf, ListReads;
    NothingHeld();
    BodyNamesDiffer();
    QuotedHolds(table);
    ConditionsAreFragments(conditions);
    IntsAreFragments(projection);
    IntHolds(limit);
    IntHolds(offset);
    NothingRead(ConditionTexts(conditions));
    NothingRead(IntTexts(projection));
    assert |ConditionTexts(conditions)| == |conditions| && |IntTexts(projection)| == |projection| by {
      TextCounts(conditions, projection);
    }
    var ms := StartFragment("{", "table", Quoted(table));
    var b := "{" + Key("table") + Quoted(table);
    if conditions != [] {
      ListIsRead(ConditionTexts(conditions));
      ms := GrowFragment(b, "{", ms, "conditions", "[" + Commas(ConditionTexts(conditions)) + "]");
      b := b + "," + Key("conditions") + ("[" + Commas(ConditionTexts(conditions)) + "]");
    }
    if projection != [] {
      ListIsRead(IntTexts(projection));
      ms := GrowFragment(b, "{", ms, "projection", "[" + Commas(IntTexts(projection)) + "]");
      b := b + "," + Key("projection") + ("[" + Commas(IntTexts(projection)) + "]");
    }
    if limit > 0 {
      ms := GrowFragment(b, "{", ms, "limit", IntText(limit));
      b := b + "," + Key("limit") + IntText(limit);
    }
    if offset != 0 {
      ms := GrowFragment(b, "{", ms, "offset", IntText(offset));
      b := b + "," + Key("offset") + IntText(offset);
    }
    FinishFragment(b, ms);
  }

  lemma TextCounts(conditions: seq<Condition>, projection: seq<int64>)
    ensures |ConditionTexts(conditions)| == |conditions| && |IntTexts(projection)| == |projection|
  {}

  // ---- sql and retrieve_text ----

  /** An sql body carries the statement, whatever bytes it has, and asks for JSON. */
  lemma SqlBodyIsFragment(statement: string)
    ensures var x := SqlBody(statement);
            && IsWhole(x)
            && StringOf(MemberIn(x, "sql")) == Some(statement) && StringOf(MemberIn(x, "format")) == Some("json")
  {
    hide Key, Quoted, Holds, IsFragment, IsWhole, Named, StringOf;
    QuotedHolds(statement);
    assert |"sql"| == 3 && |"format"| == 6;
    var ms := StartFragment("{", "sql", Quoted(statement));
    var b := "{" + Key("sql") + Quoted(statement);
    NameHolds("json");
    assert "\"" + "json" + "\"" == "\"json\"";
    ms := GrowFragment(b, "{", ms, "format", "\"json\"");
    FinishFragment(b + "," + Key("format") + "\"json\"", ms);
    MemberOfFragment(SqlBody(statement), "sql");
    MemberOfFragment(SqlBody(statement), "format");
  }

  lemma RetrieveNamesDiffer()
    ensures var t, e, x, k := "table", "embedding_column", "text", "k";
            t != e && t != x && t != k && e != x && e != k && x != k && IsName(t) && IsName(e) && IsName(x) && IsName(k)
  {
    assert |"table"| == 5 && |"embedding_column"| == 16 && |"text"| == 4 && |"k"| == 1;
  }

  /** A retrieve_text body carries the table, the column, the text and a positive k. */
  lemma RetrieveTextBodyIsFragment(table: string, embeddingColumn: int64, text: string, k: int64)
    ensures var x := RetrieveTextBody(table, embeddingColumn, text, k);
            && IsWhole(x)
            && StringOf(MemberIn(x, "table")) == Some(table) && StringOf(MemberIn(x, "text")) == Some(text)
            && IntOf(MemberIn(x, "embedding_column")) == Some(embeddingColumn)
            && IntOf(MemberIn(x, "k")) == if k > 0 then Some(k) else None
  {
    hide Key, Quoted, IntText, Holds, IsFragment, IsWhole, Named, StringOf, IntOf, IsName;
    NothingHeld();
    RetrieveNamesDiffer();
    QuotedHolds(table);
    IntHolds(embeddingColumn);
    QuotedHolds(text);
    IntHolds(k);
    var x := RetrieveTextBody(table, embeddingColumn, text, k);
    var ms := StartFragment("{", "table", Quoted(table));
    var b := "{" + Key("table") + Quoted(table);
    ms := GrowFragment(b, "{", ms, "embedding_column", IntText(embeddingColumn));
    b := b + "," + Key("embedding_column") + IntText(embeddingColumn);
    ms := GrowFragment(b, "{", ms, "text", Quoted(text));
    b := b + "," + Key("text") + Quoted(text);
    if k > 0 {
      ms := GrowFragment(b, "{", ms, "k", IntText(k));
      b := b + "," + Key("k") + IntText(k);
    }
    FinishFragment(b, ms);
    MemberOfFragment(x, "table");
    MemberOfFragment(x, "embedding_column");
    MemberOfFragment(x, "text");
    MemberOfFragment(x, "k");
  }
}
