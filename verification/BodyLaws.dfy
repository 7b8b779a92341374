/** A create_table body is one JSON value exactly when all its indexes fit, and then holds the table. */
module BodyLaws {
  import opened Bytes
  import opened StringLaws
  import opened Numbers
  import opened Grammar
  import opened GrammarLaws
  import opened RowsLaws
  import opened Build
  import opened Fragments
  import opened Paths
  import opened Tables
  import opened TableLaws
  import opened Truncation
  import opened TuningLaws
  import ColumnLaws

  ghost predicate AllSendableColumns(cols: seq<Column>) {
    forall k :: 0 <= k < |cols| ==> ColumnLaws.SendableColumn(cols[k])
  }

  predicate AllIndexesFit(ixs: seq<Index>) {
    forall k :: 0 <= k < |ixs| ==> IndexFits(ixs[k])
  }

  /** Raw JSON in the columns and the constraints is valid, as its documentation asks. */
  ghost predicate SendableTable(cols: seq<Column>, constraintsJson: string) {
    AllSendableColumns(cols) && (constraintsJson != "" ==> IsFragment(constraintsJson))
  }

  lemma ColumnsAreFragments(cols: seq<Column>)
    requires AllSendableColumns(cols)
    ensures AllFragments(ColumnTexts(cols))
  {
    hide IsFragment, IsWhole, ColumnText, ColumnLaws.SendableColumn;
    forall k | 0 <= k < |cols| ensures IsFragment(ColumnTexts(cols)[k]) {
      ColumnLaws.ColumnIsFragment(cols[k]);
    }
  }

  lemma IndexesAreFragments(ixs: seq<Index>)
    requires AllIndexesFit(ixs)
    ensures AllFragments(IndexTexts(ixs))
  {
    hide IsFragment, IsWhole, IndexText, IndexFits;
    forall k | 0 <= k < |ixs| ensures IsFragment(IndexTexts(ixs)[k]) {
      IndexIsFragment(ixs[k]);
    }
  }

  lemma TableNamesDiffer()
    ensures var n, c, k, i := "name", "columns", "constraints", "indexes";
            n != c && n != k && n != i && c != k && c != i && k != i && IsName(n) && IsName(c) && IsName(k) && IsName(i)
  {
    assert |"name"| == 4 && |"columns"| == 7 && |"constraints"| == 11 && |"indexes"| == 7;
    assert "columns"[0] == 'c' && "indexes"[0] == 'i';
  }

  // ---- The body before its indexes ----

  function TableHead(name: string, cols: seq<Column>, constraintsJson: string): string {
    var b := "{" + Key("name") + Quoted(name);
    var b := b + "," + Key("columns") + ("[" + Commas(ColumnTexts(cols)) + "]");
    if constraintsJson != "" then b + "," + Key("constraints") + constraintsJson else b
  }

  /** What a create_table body holds before its indexes: every column as serialised on its own, in order. */
  ghost predicate HeadReads(ms: seq<Member>, name: string, cols: seq<Column>, constraintsJson: string) {
    && StringOf(Named(ms, "name")) == Some(name)
    && ListReads(Named(ms, "columns"), ColumnTexts(cols))
    && Named(ms, "constraints") == (if constraintsJson != "" then Parse(constraintsJson) else None)
  }

  lemma TableHeadHolds(name: string, cols: seq<Column>, constraintsJson: string) returns (ms: seq<Member>)
    requires SendableTable(cols, constraintsJson)
    ensures Holds(TableHead(name, cols, constraintsJson), "{", ms)
    ensures HeadReads(ms, name, cols, constraintsJson) && Named(ms, "indexes") == None
  {
    hide Key, Quoted, Holds, IsFragment, IsWhole, Commas, ColumnTexts, Named, AllSendableColumns, StringOf, Parse,
         ListReads, IsName;
    NothingHeld();
    TableNamesDiffer();
    QuotedHolds(name);
    ColumnsAreFragments(cols);
    ListIsRead(ColumnTexts(cols));
    ms := StartFragment("{", "name", Quoted(name));
    var b := "{" + Key("name") + Quoted(name);
    ms := GrowFragment(b, "{", ms, "columns", "[" + Commas(ColumnTexts(cols)) + "]");
    b := b + "," + Key("columns") + ("[" + Commas(ColumnTexts(cols)) + "]");
    if constraintsJson != "" {
      ParseFragment(constraintsJson);
      ms := GrowFragment(b, "{", ms, "constraints", constraintsJson);
    }
  }

  lemma BodyFromHead(name: string, cols: seq<Column>, constraintsJson: string, ixs: seq<Index>)
    ensures var b := TableHead(name, cols, constraintsJson);
            CreateTableBody(name, cols, constraintsJson, ixs)
            == (if ixs != [] then b + "," + Key("indexes") + ("[" + Commas(IndexTexts(ixs)) + "]") else b) + "}"
  {
    hide Key, Quoted, Commas, ColumnTexts, IndexTexts;
  }

  // ---- Bodies whose indexes fit ----

  /**
   Every create_table body whose raw fragments are valid and whose blocks fit is a complete
   RFC 8259 object with the whole table definition in it.
   */
  lemma CreateTableIsFragment(name: string, cols: seq<Column>, constraintsJson: string, ixs: seq<Index>)
    requires SendableTable(cols, constraintsJson) && AllIndexesFit(ixs)
    ensures var x := CreateTableBody(name, cols, constraintsJson, ixs);
            && IsWhole(x) && Parse(x).Some? && Parse(x).value.Obj?
            && HeadReads(Parse(x).value.members, name, cols, constraintsJson)
            && ListReads(MemberIn(x, "indexes"), IndexTexts(ixs))
  {
    hide Key, Holds, IsFragment, IsWhole, Commas, ColumnTexts, IndexTexts, Named, StringOf, Parse, ListReads, IsName,
         TableHead, CreateTableBody, AllIndexesFit, SendableTable;
    TableNamesDiffer();
    IndexesAreFragments(ixs);
    ListIsRead(IndexTexts(ixs));
    NothingRead(IndexTexts(ixs));
    NoIndexes();
    BodyFromHead(name, cols, constraintsJson, ixs);
    var x := CreateTableBody(name, cols, constraintsJson, ixs);
    var ms := TableHeadHolds(name, cols, constraintsJson);
    var b := TableHead(name, cols, constraintsJson);
    if ixs != [] {
      ms := GrowFragment(b, "{", ms, "indexes", "[" + Commas(IndexTexts(ixs)) + "]");
      b := b + "," + Key("indexes") + ("[" + Commas(IndexTexts(ixs)) + "]");
    }
    FinishFragment(b, ms);
    ParseFragment(x);
  }

  lemma NoIndexes()
    ensures IndexTexts([]) == []
  {}

  // ---- Bodies with an index that does not fit ----

  predicate OpensWithName(x: string) { |x| >= 3 && x[0] == '{' && x[1] == '"' && x[2] == 'n' }

  lemma StartsMore(x: string, y: string)
    requires OpensWithName(x)
    ensures OpensWithName(x + y)
  {}

  lemma IndexTextStarts(ix: Index)
    ensures OpensWithName(IndexText(ix))
  {
    hide Key, Quoted, IntText, KindName, AnnText, MinHashText, LearnedRangeText, OpensWithName;
    NameStarts();
    var a := "{" + Key("name");
    StartsMore(a, Quoted(ix.name));
    var b := a + Quoted(ix.name);
    StartsMore(b, "," + Key("column_id") + IntText(ix.columnId));
    var c := b + "," + Key("column_id") + IntText(ix.columnId);
    assert c == b + ("," + Key("column_id") + IntText(ix.columnId));
    StartsMore(c, "," + Key("kind") + Quoted(KindName(ix.kind)));
    var d := c + "," + Key("kind") + Quoted(KindName(ix.kind));
    assert d == c + ("," + Key("kind") + Quoted(KindName(ix.kind)));
    RestStarts(ix, d);
  }

  lemma NameStarts()
    ensures OpensWithName("{" + Key("name"))
  {}

  lemma RestStarts(ix: Index, d: string)
    requires OpensWithName(d)
    requires d == "{" + Key("name") + Quoted(ix.name) + "," + Key("column_id") + IntText(ix.columnId)
                  + "," + Key("kind") + Quoted(KindName(ix.kind))
    ensures OpensWithName(IndexText(ix))
  {
    hide Key, Quoted, IntText, KindName, AnnText, MinHashText, LearnedRangeText;
  }

  /** What follows an index in a list: another one, or the end of the list and the body. */
  lemma AfterListed(s: string, i: nat, ixs: seq<Index>)
    requires ixs != [] && At(s, i, Commas(IndexTexts(ixs)))
    requires var e := i + |Commas(IndexTexts(ixs))|; e + 2 == |s| && s[e] == ']' && s[e + 1] == '}'
    ensures var m := i + |IndexText(ixs[0])|;
            && At(s, i, IndexText(ixs[0])) && AfterIndex(s, m)
            && (|ixs| > 1 ==>
                  && m + 1 + |Commas(IndexTexts(ixs[1..]))| == i + |Commas(IndexTexts(ixs))|
                  && s[m] == ',' && At(s, m + 1, Commas(IndexTexts(ixs[1..]))))
  {
    hide At, IndexText;
    var x, rest := IndexText(ixs[0]), ixs[1..];
    var m := i + |x|;
    assert IndexTexts(ixs)[1..] == IndexTexts(rest);
    if rest == [] {
      assert Commas(IndexTexts(ixs)) == x + "";
      assert x + "" == x;
    } else {
      var more := Commas(IndexTexts(rest));
      assert Commas(IndexTexts(ixs)) == x + ("," + more);
      AtSplit(s, i, x, "," + more);
      AtSplit(s, m, ",", more);
      AtComma(s, m);
      ListStarts(s, m + 1, rest);
    }
  }

  lemma ListStarts(s: string, i: nat, ixs: seq<Index>)
    requires ixs != [] && At(s, i, Commas(IndexTexts(ixs)))
    ensures i + 2 < |s| && s[i] == '{' && s[i + 1] == '"' && s[i + 2] == 'n'
  {
    hide IndexText;
    var x := Commas(IndexTexts(ixs));
    IndexTextStarts(ixs[0]);
    AtChars(s, i, x);
    assert s[i + 0] == x[0] && s[i + 1] == x[1] && s[i + 2] == x[2];
  }

  lemma FittingItem(s: string, i: nat, ix: Index)
    requires IndexFits(ix) && At(s, i, IndexText(ix))
    requires var m := i + |IndexText(ix)|; m < |s| && s[m] == ','
    ensures ParseItem(s, i).Some? && ParseItem(s, i).value.end == i + |IndexText(ix)|
  {
    hide At, IndexText, IndexFits, IsWhole, IsFragment, Text, Strict, ParseItem, ItemText, StrictItem, LenientItem,
         IndexReads, OptionsOf, HasFragment, Named;
    IndexIsFragment(ix);
    WholeIsFragment(IndexText(ix));
    var t := FragmentTree(IndexText(ix));
    EntryText(t);
    StrictItemIsLenient(Entry(t), |s| - (i + |IndexText(ix)|));
    ItemExact(s, i, Entry(t), i + |IndexText(ix)|);
  }

  lemma NoItem(s: string, i: nat)
    requires i < |s| && s[i] == '{' && ParseValue(s, i).None?
    ensures ParseItem(s, i).None?
  {
    hide ParseValue;
  }

  /** A list with an index that does not fit cannot be read. */
  lemma {:induction false} UnfitListBreaks(s: string, i: nat, ixs: seq<Index>)
    requires !AllIndexesFit(ixs) && At(s, i, Commas(IndexTexts(ixs)))
    requires var e := i + |Commas(IndexTexts(ixs))|; e + 2 == |s| && s[e] == ']' && s[e + 1] == '}'
    ensures ParseItems(s, i).None?
    decreases |ixs|
  {
    hide At, IndexText, IndexTexts, Commas, IndexFits, ParseValue, ParseItem, ParseItems, AfterIndex;
    var m := i + |IndexText(ixs[0])|;
    AfterListed(s, i, ixs);
    ListStarts(s, i, ixs);
    if !IndexFits(ixs[0]) {
      UnfitIndexBreaks(s, i, ixs[0]);
      NoItem(s, i);
    } else {
      var k :| 0 <= k < |ixs| && !IndexFits(ixs[k]);
      assert !IndexFits(ixs[1..][k - 1]);
      FittingItem(s, i, ixs[0]);
      UnfitListBreaks(s, m + 1, ixs[1..]);
    }
    if ParseItems(s, i).Some? { ItemsStep(s, i); }
  }

  /** A member whose value is a non-empty array. */
  lemma IntoList(s: string, i: nat, name: string)
    requires IsName(name) && At(s, i, Key(name)) && ParseMembers(s, i).Some?
    requires var v := i + |Key(name)|; v + 1 < |s| && s[v] == '[' && s[v + 1] == '{'
    ensures ParseItems(s, i + |Key(name)| + 1).Some?
  {
    hide At, Key, ParseMember, ParseMembers, ParseItem, ParseItems, ParseValue;
    var v := i + |Key(name)|;
    MembersStep(s, i);
    MemberFromName(s, i, name, v);
    ItemFromValue(s, v);
    ValueFromItems(s, v);
  }

  lemma ValueFromItems(s: string, v: nat)
    requires v + 1 < |s| && s[v] == '[' && s[v + 1] == '{' && ParseValue(s, v).Some?
    ensures ParseItems(s, v + 1).Some?
  {
    hide ParseItems;
  }

  function Nested(b: string, k: string, list: string): string { b + ("," + (k + ("[" + (list + "]}")))) }

  lemma BodyNested(name: string, cols: seq<Column>, constraintsJson: string, ixs: seq<Index>)
    requires ixs != []
    ensures CreateTableBody(name, cols, constraintsJson, ixs)
            == Nested(TableHead(name, cols, constraintsJson), Key("indexes"), Commas(IndexTexts(ixs)))
  {
    hide Key, Commas, IndexTexts, TableHead, CreateTableBody;
    BodyFromHead(name, cols, constraintsJson, ixs);
  }

  /** Where the indexes of a body are. */
  lemma IndexPlaces(s: string, b: string, k: string, list: string)
    requires At(s, 0, Nested(b, k, list)) && |s| == |Nested(b, k, list)|
    requires Opens(b) && k != "" && list != "" && list[0] == '{'
    ensures var v := |b| + 1 + |k|;
            && |s| == v + 1 + |list| + 2
            && s[0] == '{' && s[1] == '"' && At(s, 0, b) && s[|b|] == ',' && At(s, |b| + 1, k)
            && s[v] == '[' && s[v + 1] == '{' && At(s, v + 1, list)
            && s[v + 1 + |list|] == ']' && s[v + 1 + |list| + 1] == '}'
  {
    hide At;
    var tail := "[" + (list + "]}");
    Peel(s, 0, b, "," + (k + tail));
    Peel(s, |b|, ",", k + tail);
    ListPlaces(s, |b| + 1, k, list);
  }

  lemma ListPlaces(s: string, i: nat, k: string, list: string)
    requires At(s, i, k + ("[" + (list + "]}"))) && k != "" && list != "" && list[0] == '{'
    ensures var v := i + |k|;
            && |s| >= v + 1 + |list| + 2 && At(s, i, k)
            && s[v] == '[' && s[v + 1] == '{' && At(s, v + 1, list)
            && s[v + 1 + |list|] == ']' && s[v + 1 + |list| + 1] == '}'
  {
    hide At;
    Peel(s, i, k, "[" + (list + "]}"));
    Peel(s, i + |k|, "[", list + "]}");
    Peel(s, i + |k| + 1, list, "]}");
    TwoAt(s, i + |k| + 1 + |list|, "]}");
  }

  lemma TableHeadOpens(name: string, cols: seq<Column>, constraintsJson: string)
    ensures Opens(TableHead(name, cols, constraintsJson))
  {
    hide Key, Quoted, ColumnTexts, Commas;
    KeyOpens("name");
    var b := "{" + Key("name") + Quoted(name);
    assert Opens(b);
    var c := b + "," + Key("columns") + ("[" + Commas(ColumnTexts(cols)) + "]");
    assert Opens(c);
  }

  /** An object whose last member is a list of indexes, one of which does not fit. */
  lemma UnfitMembersBreak(s: string, b: string, ms: seq<Member>, v: nat, ixs: seq<Index>)
    requires Holds(b, "{", ms) && At(s, 0, b) && |b| + 1 < |s| && s[0] == '{' && s[1] == '"' && s[|b|] == ','
    requires At(s, |b| + 1, Key("indexes")) && v == |b| + 1 + |Key("indexes")|
    requires v + 1 < |s| && s[v] == '[' && s[v + 1] == '{'
    requires !AllIndexesFit(ixs) && At(s, v + 1, Commas(IndexTexts(ixs)))
    requires var e := v + 1 + |Commas(IndexTexts(ixs))|; e + 2 == |s| && s[e] == ']' && s[e + 1] == '}'
    ensures ParseValue(s, 0).None?
  {
    hide At, Holds, IndexTexts, Commas, Key, ParseValue, ParseItems, ParseMembers, IsName, AllIndexesFit, MembersText,
         AllStrict, StrictMember;
    TableNamesDiffer();
    HeadPlace(s, b, ms);
    if ParseValue(s, 0).Some? {
      ValueFromMembers(s, 0);
      PastMembers(s, 1, ms, |b|);
      IntoList(s, |b| + 1, "indexes");
      UnfitListBreaks(s, v + 1, ixs);
    }
  }

  lemma UnfitBodyBreaks(name: string, cols: seq<Column>, constraintsJson: string, ixs: seq<Index>)
    requires SendableTable(cols, constraintsJson) && !AllIndexesFit(ixs)
    ensures ParseValue(CreateTableBody(name, cols, constraintsJson, ixs), 0).None?
  {
    hide At, Holds, TableHead, CreateTableBody, IndexTexts, Commas, Key, ParseValue, Opens, SendableTable,
         AllIndexesFit, HeadReads, Named, Nested;
    var s := CreateTableBody(name, cols, constraintsJson, ixs);
    var b, list := TableHead(name, cols, constraintsJson), Commas(IndexTexts(ixs));
    SomeIndex(ixs);
    BodyNested(name, cols, constraintsJson, ixs);
    WholeAt(s);
    TableHeadOpens(name, cols, constraintsJson);
    CommasStart(ixs);
    KeyOpens("indexes");
    IndexPlaces(s, b, Key("indexes"), list);
    var ms := TableHeadHolds(name, cols, constraintsJson);
    UnfitMembersBreak(s, b, ms, |b| + 1 + |Key("indexes")|, ixs);
  }

  lemma SomeIndex(ixs: seq<Index>)
    requires !AllIndexesFit(ixs)
    ensures ixs != []
  {}

  lemma CommasStart(ixs: seq<Index>)
    requires ixs != []
    ensures var x := Commas(IndexTexts(ixs)); x != "" && x[0] == '{'
  {
    hide IndexText;
    IndexTextStarts(ixs[0]);
  }

  lemma HeadPlace(s: string, b: string, ms: seq<Member>)
    requires Holds(b, "{", ms) && At(s, 0, b)
    ensures ms != [] && AllStrict(ms) && At(s, 1, MembersText(ms)) && 1 + |MembersText(ms)| == |b|
  {
    hide At, MembersText, StrictMember;
    AtSplit(s, 0, "{", MembersText(ms));
  }

  /**
   With valid raw parts, a whole create_table body is one complete JSON value if and only if
   the tuning blocks of every index fit; otherwise not even the lenient walker can read it.
   */
  lemma CreateTableIsValueIffIndexesFit(name: string, cols: seq<Column>, constraintsJson: string, ixs: seq<Index>)
    requires SendableTable(cols, constraintsJson)
    ensures var x := CreateTableBody(name, cols, constraintsJson, ixs);
            && (IsWhole(x) <==> AllIndexesFit(ixs))
            && (ParseValue(x, 0).Some? <==> AllIndexesFit(ixs))
  {
    hide ParseValue, IsWhole, CreateTableBody, SendableTable, AllIndexesFit, Parse, HeadReads, ListReads, MemberIn;
    var x := CreateTableBody(name, cols, constraintsJson, ixs);
    if AllIndexesFit(ixs) {
      CreateTableIsFragment(name, cols, constraintsJson, ixs);
      WholeIsComplete(x);
    } else {
      UnfitBodyBreaks(name, cols, constraintsJson, ixs);
      if IsWhole(x) { WholeIsComplete(x); }
    }
  }
}
