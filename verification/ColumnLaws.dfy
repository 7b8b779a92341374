/** Every column is a complete object from which all its fields are read back. */
module ColumnLaws {
  import opened Bytes
  import opened StringLaws
  import opened Numbers
  import opened Grammar
  import opened GrammarLaws
  import opened Build
  import opened Fragments
  import opened Paths
  import opened Objects
  import opened Tables

  /** Raw JSON fields hold valid JSON, as their documentation asks. */
  ghost predicate SendableColumn(col: Column) {
    && (col.defaultValueJson.Some? ==> IsFragment(col.defaultValueJson.value))
    && (col.embeddingSourceJson.Some? ==> IsFragment(col.embeddingSourceJson.value))
  }

  // ---- The fields that are always there ----

  lemma HeadNamesDiffer()
    ensures var i, n, t, p, u := "id", "name", "ty", "primary_key", "nullable";
            && i != n && i != t && i != p && i != u && n != t && n != p && n != u && t != p && t != u && p != u
            && IsName(i) && IsName(n) && IsName(t) && IsName(p) && IsName(u)
  {
    assert "id"[0] == 'i' && "name"[0] == 'n' && "ty"[0] == 't' && "primary_key"[0] == 'p';
    assert |"name"| == 4 && |"nullable"| == 8;
  }

  ghost predicate RequiredReads(col: Column, ms: seq<Member>) {
    && IntOf(Named(ms, "id")) == Some(col.id)
    && StringOf(Named(ms, "name")) == Some(col.name)
    && StringOf(Named(ms, "ty")) == Some(col.ty)
    && BoolOf(Named(ms, "primary_key")) == Some(col.primaryKey)
    && BoolOf(Named(ms, "nullable")) == Some(col.nullable)
  }

  predicate IsTailName(key: string) {
    key == "enum_variants" || key == "default_expr" || key == "default_value" || key == "embedding_source"
  }

  lemma TailNamesDiffer(key: string)
    requires IsTailName(key)
    ensures IsName(key)
    ensures key != "id" && key != "name" && key != "ty" && key != "primary_key" && key != "nullable"
    ensures var v, e, d, s := "enum_variants", "default_expr", "default_value", "embedding_source";
            v != e && v != d && v != s && e != d && e != s && d != s
  {
    assert |key| > 11;
    assert "enum_variants"[0] == 'e' && "default_value"[0] == 'd' && |"enum_variants"| == |"default_value"| == 13;
    assert |"default_expr"| == 12 && |"embedding_source"| == 16;
  }

  lemma TailNames()
    ensures var v, e, d, s := "enum_variants", "default_expr", "default_value", "embedding_source";
            && v != e && v != d && v != s && e != d && e != s && d != s
            && IsTailName(v) && IsTailName(e) && IsTailName(d) && IsTailName(s)
  {
    TailNamesDiffer("enum_variants");
  }

  lemma ColumnHeadHolds(col: Column) returns (ms: seq<Member>)
    ensures Holds(ColumnHead(col), "{", ms) && RequiredReads(col, ms)
    ensures forall key | IsTailName(key) :: Named(ms, key) == None
  {
    hide Key, Quoted, IntText, BoolText, Holds, IsFragment, IsWhole, Named, IsName, StringOf, IntOf, BoolOf, IsTailName;
    HeadNamesDiffer();
    IntHolds(col.id);
    QuotedHolds(col.name);
    QuotedHolds(col.ty);
    BoolTextHolds(col.primaryKey);
    BoolTextHolds(col.nullable);
    ms := StartFragment("{", "id", IntText(col.id));
    var b := "{" + Key("id") + IntText(col.id);
    ms := GrowFragment(b, "{", ms, "name", Quoted(col.name));
    b := b + "," + Key("name") + Quoted(col.name);
    ms := GrowFragment(b, "{", ms, "ty", Quoted(col.ty));
    b := b + "," + Key("ty") + Quoted(col.ty);
    ms := GrowFragment(b, "{", ms, "primary_key", BoolText(col.primaryKey));
    b := b + "," + Key("primary_key") + BoolText(col.primaryKey);
    ms := GrowFragment(b, "{", ms, "nullable", BoolText(col.nullable));
    forall key | IsTailName(key) ensures Named(ms, key) == None {
      TailNamesDiffer(key);
    }
  }

  lemma BoolTextHolds(b: bool)
    ensures IsFragment(BoolText(b)) && BoolOf(Some(FragmentTree(BoolText(b)))) == Some(b)
  {
    hide IsFragment, IsWhole, BoolOf;
    BoolHolds(b);
  }

  // ---- The fields that may be left out ----

  /** v is the value written as x; or neither is there. */
  ghost predicate WrittenAs(v: Option<Tree>, x: Option<string>) {
    match x
    case None => v == None
    case Some(text) => IsFragment(text) && v == Some(FragmentTree(text))
  }

  function QuotedOption(x: Option<string>): Option<string> {
    match x
    case None => None
    case Some(s) => Some(Quoted(s))
  }

  /** An expression wins over a JSON default, and that over a string default. */
  function DefaultValueText(col: Column): Option<string> {
    if col.defaultExpr.Some? then None
    else if col.defaultValueJson.Some? then col.defaultValueJson
    else QuotedOption(col.defaultValue)
  }

  function VariantsText(col: Column): Option<string> {
    if col.enumVariants == [] then None else Some("[" + Commas(QuotedTexts(col.enumVariants)) + "]")
  }

  ghost predicate TailReads(col: Column, ms: seq<Member>) {
    && WrittenAs(Named(ms, "enum_variants"), VariantsText(col))
    && WrittenAs(Named(ms, "default_expr"), QuotedOption(col.defaultExpr))
    && WrittenAs(Named(ms, "default_value"), DefaultValueText(col))
    && WrittenAs(Named(ms, "embedding_source"), col.embeddingSourceJson)
  }

  /** Appends a field if it has a value; the fields of the head stay readable. */
  lemma GrowOption(col: Column, b: string, ms: seq<Member>, name: string, x: Option<string>) returns (ms': seq<Member>)
    requires Holds(b, "{", ms) && RequiredReads(col, ms) && IsTailName(name) && Named(ms, name) == None
    requires x.Some? ==> IsFragment(x.value)
    ensures Holds(WithOption(b, name, x), "{", ms')
    ensures RequiredReads(col, ms') && WrittenAs(Named(ms', name), x)
    ensures forall key :: key != name ==> Named(ms', key) == Named(ms, key)
  {
    hide Key, Holds, IsFragment, IsWhole, Named, IsName, StringOf, IntOf, BoolOf, IsTailName;
    TailNamesDiffer(name);
    ms' := ms;
    if x.Some? {
      ms' := GrowFragment(b, "{", ms, name, x.value);
    }
  }

  lemma StringsAreFragments(xs: seq<string>)
    ensures AllFragments(QuotedTexts(xs)) && IsFragment("[" + Commas(QuotedTexts(xs)) + "]")
  {
    hide IsFragment, IsWhole, Quoted;
    forall k | 0 <= k < |xs| ensures IsFragment(QuotedTexts(xs)[k]) {
      QuotedIsFragment(xs[k]);
    }
    ListHolds(QuotedTexts(xs));
  }

  lemma TailIsFragments(col: Column)
    requires SendableColumn(col)
    ensures VariantsText(col).Some? ==> IsFragment(VariantsText(col).value)
    ensures col.defaultExpr.Some? ==> IsFragment(Quoted(col.defaultExpr.value))
    ensures DefaultValueText(col).Some? ==> IsFragment(DefaultValueText(col).value)
  {
    hide IsFragment, IsWhole, Quoted, Commas, QuotedTexts;
    StringsAreFragments(col.enumVariants);
    if col.defaultExpr.Some? { QuotedIsFragment(col.defaultExpr.value); }
    if col.defaultValue.Some? { QuotedIsFragment(col.defaultValue.value); }
  }

  lemma ColumnTextParts(col: Column)
    ensures var b := WithOption(ColumnHead(col), "enum_variants", VariantsText(col));
            var b := WithOption(b, "default_expr", QuotedOption(col.defaultExpr));
            var b := WithOption(b, "default_value", DefaultValueText(col));
            ColumnText(col) == WithOption(b, "embedding_source", col.embeddingSourceJson) + "}"
  {
    hide Key, Quoted, Commas, QuotedTexts, ColumnHead;
  }

  /** Every column is a complete RFC 8259 object, for all names, types and variants. */
  lemma ColumnIsFragment(col: Column)
    requires SendableColumn(col)
    ensures IsWhole(ColumnText(col)) && IsFragment(ColumnText(col))
    ensures var t := FragmentTree(ColumnText(col)); t.Obj? && RequiredReads(col, t.members) && TailReads(col, t.members)
  {
    hide Key, Holds, IsFragment, IsWhole, Named, ColumnHead, RequiredReads, VariantsText, QuotedOption,
         DefaultValueText, ColumnText, Quoted, WrittenAs, IsTailName, WithOption;
    TailNames();
    ColumnTextParts(col);
    TailIsFragments(col);
    QuotedOptionIsFragment(col.defaultExpr);
    var ms := ColumnHeadHolds(col);
    var b := ColumnHead(col);
    ms := GrowOption(col, b, ms, "enum_variants", VariantsText(col));
    b := WithOption(b, "enum_variants", VariantsText(col));
    ms := GrowOption(col, b, ms, "default_expr", QuotedOption(col.defaultExpr));
    b := WithOption(b, "default_expr", QuotedOption(col.defaultExpr));
    ms := GrowOption(col, b, ms, "default_value", DefaultValueText(col));
    b := WithOption(b, "default_value", DefaultValueText(col));
    ms := GrowOption(col, b, ms, "embedding_source", col.embeddingSourceJson);
    FinishFragment(WithOption(b, "embedding_source", col.embeddingSourceJson), ms);
  }

  lemma QuotedOptionIsFragment(x: Option<string>)
    ensures QuotedOption(x).Some? ==> IsFragment(QuotedOption(x).value)
  {
    hide IsFragment, IsWhole, Quoted;
    if x.Some? { QuotedIsFragment(x.value); }
  }

  // ---- Reading a column back ----

  function Strings(ts: seq<Tree>): seq<Option<string>> {
    seq(|ts|, k requires 0 <= k < |ts| => StringOf(Some(ts[k])))
  }

  function Somes(xs: seq<string>): seq<Option<string>> {
    seq(|xs|, k requires 0 <= k < |xs| => Some(xs[k]))
  }

  lemma VariantsRead(xs: seq<string>)
    ensures IsFragment("[" + Commas(QuotedTexts(xs)) + "]")
    ensures Strings(ListOf(Some(FragmentTree("[" + Commas(QuotedTexts(xs)) + "]")))) == Somes(xs)
  {
    hide IsFragment, IsWhole, StringOf, Quoted, ListOf, Commas;
    StringsAreFragments(xs);
    ListHolds(QuotedTexts(xs));
    var ts := Trees(QuotedTexts(xs));
    forall k | 0 <= k < |xs| ensures StringOf(Some(ts[k])) == Some(xs[k]) {
      QuotedHolds(xs[k]);
      assert QuotedTexts(xs)[k] == Quoted(xs[k]);
    }
  }

  lemma QuotedRead(v: Option<Tree>, x: Option<string>)
    requires WrittenAs(v, QuotedOption(x))
    ensures StringOf(v) == x
  {
    hide IsFragment, IsWhole, Quoted;
    if x.Some? { QuotedHolds(x.value); }
  }

  /** Raw JSON comes back as the tree it parses to. */
  lemma RawRead(v: Option<Tree>, x: string)
    requires WrittenAs(v, Some(x))
    ensures v.Some? && Parse(x) == v
  {
    hide Text, Strict, Parse;
    ParseFragment(x);
  }

  /** Parsing a serialised column gives back every field, with defaults by precedence. */
  lemma ColumnRecovered(col: Column)
    requires SendableColumn(col)
    ensures var x := ColumnText(col);
            && Parse(x).Some? && Parse(x).value.Obj? && RequiredReads(col, Parse(x).value.members)
            && Strings(ListOf(MemberIn(x, "enum_variants"))) == Somes(col.enumVariants)
            && StringOf(MemberIn(x, "default_expr")) == col.defaultExpr
            && (col.defaultExpr.Some? ==> MemberIn(x, "default_value") == None)
            && (col.defaultExpr.None? ==>
                  if col.defaultValueJson.Some?
                  then MemberIn(x, "default_value") == Parse(col.defaultValueJson.value)
                  else StringOf(MemberIn(x, "default_value")) == col.defaultValue)
            && MemberIn(x, "embedding_source")
               == if col.embeddingSourceJson.Some? then Parse(col.embeddingSourceJson.value) else None
  {
    hide IsFragment, IsWhole, Parse, Named, ColumnText, RequiredReads, StringOf, ListOf, Text, Strict, Quoted, Commas,
         Strings, Somes, QuotedOption;
    var x := ColumnText(col);
    ColumnIsFragment(col);
    var ms := FragmentTree(x).members;
    ParseFragment(x);
    QuotedRead(Named(ms, "default_expr"), col.defaultExpr);
    VariantsRead(col.enumVariants);
    NoVariants();
    if col.defaultExpr.None? {
      if col.defaultValueJson.Some? {
        RawRead(Named(ms, "default_value"), col.defaultValueJson.value);
      } else {
        QuotedRead(Named(ms, "default_value"), col.defaultValue);
      }
    }
    if col.embeddingSourceJson.Some? {
      RawRead(Named(ms, "embedding_source"), col.embeddingSourceJson.value);
    }
  }

  lemma NoVariants()
    ensures Strings(ListOf(None)) == Somes([])
  {}
}
