/** Exactly which queries have a JSON body. */
module QueryValidity {
  import opened Bytes
  import opened StringLaws
  import opened Numbers
  import opened Grammar
  import opened GrammarLaws
  import opened RowsLaws
  import opened Build
  import opened Fragments
  import opened Requests
  import opened QueryLaws
  import opened QueryIdentity
  import opened Truncation
  import opened RangeLaws

  // ---- Strict lists ----

  ghost predicate StrictItemsAt(s: string, i: nat) {
    && i <= |s| && ParseItems(s, i).Some?
    && forall k :: 0 <= k < |ParseItems(s, i).value.t| ==> StrictItem(ParseItems(s, i).value.t[k])
  }

  lemma StrictFirstItem(s: string, i: nat)
    requires StrictItemsAt(s, i)
    ensures ParseItem(s, i).Some? && StrictItem(ParseItem(s, i).value.t)
    ensures var e := ParseItem(s, i).value.end; e < |s| && (s[e] == ',' ==> StrictItemsAt(s, e + 1))
  {
    hide ParseItem, ParseItems, StrictItem;
    ItemsStep(s, i);
    var items := ParseItems(s, i).value.t;
    var e := ParseItem(s, i).value.end;
    assert StrictItem(items[0]);
    if s[e] == ',' {
      assert forall k :: 0 <= k < |items[1..]| ==> items[1..][k] == items[k + 1];
    }
  }

  /** A fragment before a comma or a closing bracket is read to its end. */
  lemma FragmentItemRead(s: string, i: nat, x: string)
    requires IsFragment(x) && At(s, i, x) && i + |x| < |s| && Closes(s[i + |x|])
    ensures ParseItem(s, i).Some? && ParseItem(s, i).value.end == i + |x|
  {
    hide At, ItemText, StrictItem, LenientItem, ParseItem, IsFragment, Closes;
    var it := FragmentItem(x);
    StrictItemIsLenient(it, |s| - (i + |x|));
    ItemExact(s, i, it, i + |x|);
  }

  /** Raw JSON is valid, and bounds are whatever %.17g prints. */
  ghost predicate IsPrintedCondition(c: Condition) {
    && (c.conditionJson.Some? ==> IsFragment(c.conditionJson.value))
    && (IsBuiltRange(c) ==> IsPrinted(c.lo) && IsPrinted(c.hi))
  }

  ghost predicate AllPrinted(cs: seq<Condition>) {
    forall k :: 0 <= k < |cs| ==> IsPrintedCondition(cs[k])
  }

  predicate IsFiniteCondition(c: Condition) { IsBuiltRange(c) ==> IsFinite(c.lo) && IsFinite(c.hi) }

  predicate AllFinite(cs: seq<Condition>) {
    forall k :: 0 <= k < |cs| ==> IsFiniteCondition(cs[k])
  }

  lemma FiniteIsSendable(c: Condition)
    requires IsPrintedCondition(c) && IsFiniteCondition(c)
    ensures SendableCondition(c)
  {
    hide IsRfcNumber, IsFragment;
  }

  /** The texts of a list, the first one and the rest. */
  lemma ConditionPlaces(s: string, i: nat, cs: seq<Condition>)
    requires cs != [] && At(s, i, Commas(ConditionTexts(cs)))
    ensures var x := ConditionText(cs[0]);
            var m := i + |x|;
            && At(s, i, x)
            && (|cs| == 1 ==> Commas(ConditionTexts(cs)) == x)
            && (|cs| > 1 ==>
                  && m < |s| && s[m] == ',' && At(s, m + 1, Commas(ConditionTexts(cs[1..])))
                  && m + 1 + |Commas(ConditionTexts(cs[1..]))| == i + |Commas(ConditionTexts(cs))|)
  {
    hide At, ConditionText;
    var x, rest := ConditionText(cs[0]), cs[1..];
    assert ConditionTexts(cs)[1..] == ConditionTexts(rest);
    if rest == [] {
      assert x + "" == x;
    } else {
      var more := Commas(ConditionTexts(rest));
      assert Commas(ConditionTexts(cs)) == x + ("," + more);
      AtSplit(s, i, x, "," + more);
      AtSplit(s, i + |x|, ",", more);
      AtComma(s, i + |x|);
    }
  }

  lemma {:induction false} NonFiniteListBreaks(s: string, i: nat, cs: seq<Condition>)
    requires AllPrinted(cs) && !AllFinite(cs) && At(s, i, Commas(ConditionTexts(cs)))
    requires var e := i + |Commas(ConditionTexts(cs))|; e < |s| && s[e] == ']'
    ensures !StrictItemsAt(s, i)
    decreases |cs|
  {
    hide At, ConditionText, ConditionTexts, Commas, StrictItemsAt, IsPrintedCondition, IsFiniteCondition, ParseItem,
         ParseValue, StrictItem, Strict, IsFragment;
    ConditionPlaces(s, i, cs);
    var c, m := cs[0], i + |ConditionText(cs[0])|;
    if StrictItemsAt(s, i) {
      StrictFirstItem(s, i);
      if !IsFiniteCondition(c) {
        NonFiniteItem(s, i, c);
      } else {
        var k :| 0 <= k < |cs| && !IsFiniteCondition(cs[k]);
        assert !IsFiniteCondition(cs[1..][k - 1]);
        FiniteIsSendable(c);
        ConditionIsFragment(c);
        FragmentItemRead(s, i, ConditionText(c));
        NonFiniteListBreaks(s, m + 1, cs[1..]);
      }
    }
  }

  lemma NonFiniteItem(s: string, i: nat, c: Condition)
    requires IsPrintedCondition(c) && !IsFiniteCondition(c) && At(s, i, ConditionText(c)) && i <= |s|
    ensures ParseItem(s, i).Some? ==> !StrictItem(ParseItem(s, i).value.t)
  {
    hide At, ConditionText, ParseValue, Strict, IsFragment, IsPrinted, IsFinite, In, ParseItem, StrictItem;
    NonFiniteRangeBreaks(s, i, c);
    NotSpaces();
    if ParseItem(s, i).Some? && StrictItem(ParseItem(s, i).value.t) {
      ItemFromValue(s, i);
      StrictInItem(ParseItem(s, i).value.t);
    }
  }

  lemma StrictInItem(it: Item)
    requires StrictItem(it)
    ensures Strict(it.v)
  {}

  /** Nothing that a condition starts with closes a list. */
  lemma ListIsNotEmpty(s: string, i: nat, cs: seq<Condition>)
    requires AllPrinted(cs) && cs != [] && At(s, i, Commas(ConditionTexts(cs)))
    requires var e := i + |Commas(ConditionTexts(cs))|; e < |s| && s[e] == ']'
    ensures SkipWs(s, i) < |s| && s[SkipWs(s, i)] != ']'
  {
    hide At, ConditionText, ConditionTexts, Commas, IsPrintedCondition, IsFiniteCondition, ParseItem, ParseValue, Run,
         IsFragment, SendableCondition;
    ConditionPlaces(s, i, cs);
    if IsFiniteCondition(cs[0]) {
      FiniteIsSendable(cs[0]);
      ConditionIsFragment(cs[0]);
      FragmentItemRead(s, i, ConditionText(cs[0]));
      ItemStarts(s, i);
    } else {
      RangeStarts(s, i, cs[0]);
    }
  }

  lemma ItemStarts(s: string, i: nat)
    requires i <= |s| && ParseItem(s, i).Some?
    ensures SkipWs(s, i) < |s| && s[SkipWs(s, i)] != ']'
  {
    hide Run;
  }

  lemma RangeStarts(s: string, i: nat, c: Condition)
    requires IsPrintedCondition(c) && !IsFiniteCondition(c) && At(s, i, ConditionText(c))
    ensures i < |s| && SkipWs(s, i) == i && s[i] == '{'
  {
    hide At, ConditionText, ParseValue, Strict, IsFragment, IsPrinted, IsFinite;
    NonFiniteRangeBreaks(s, i, c);
  }

  /** A strict list that is not empty. */
  lemma StrictListInto(s: string, v: nat)
    requires v < |s| && s[v] == '[' && ParseValue(s, v).Some? && Strict(ParseValue(s, v).value.t)
    requires SkipWs(s, v + 1) < |s| && s[SkipWs(s, v + 1)] != ']'
    ensures StrictItemsAt(s, v + 1)
  {
    hide ParseItems, Run, StrictItem;
  }

  /** Past a member of any text. */
  lemma StrictPastText(s: string, i: nat, name: string, x: string, e: nat)
    requires StrictAt(s, i) && IsName(name) && IsFragment(x)
    requires At(s, i, Key(name) + x) && e == i + |Key(name) + x| < |s| && s[e] == ','
    ensures StrictAt(s, e + 1)
  {
    hide At, Key, ParseMember, MemberText, LenientMember, StrictMember, FieldOf, IsName, IsFragment, StrictItem,
         ItemText, StrictAt;
    StrictFirst(s, i);
    FieldText(name, FragmentItem(x));
    StrictMemberIsLenient(FieldOf(name, FragmentItem(x)), |s| - e);
    MemberExact(s, i, FieldOf(name, FragmentItem(x)), e);
  }

  lemma QueryShape(q: Query)
    requires q.conditions != []
    ensures exists tail :: BodyOf(q) == QueryNested(q, tail)
  {
    hide Key, Quoted, Commas, ConditionTexts, IntTexts, IntText, QueryNested;
    var b := "{" + Key("table") + Quoted(q.table);
    var list := "[" + Commas(ConditionTexts(q.conditions)) + "]";
    var t1 := if q.projection != [] then "," + Key("projection") + ("[" + Commas(IntTexts(q.projection)) + "]") else "";
    var t2 := if q.limit > 0 then "," + Key("limit") + IntText(q.limit) else "";
    var t3 := if q.offset != 0 then "," + Key("offset") + IntText(q.offset) else "";
    var c := b + "," + Key("conditions") + list;
    BodyTail(q, c, t1, t2, t3);
    QueryRegroup(q, t1 + t2 + t3 + "}");
    assert c + (t1 + t2 + t3 + "}") == QueryNested(q, t1 + t2 + t3 + "}");
  }

  function QueryNested(q: Query, tail: string): string {
    "{" + ((Key("table") + Quoted(q.table)) + ("," + (Key("conditions") + ("["
    + (Commas(ConditionTexts(q.conditions)) + ("]" + tail))))))
  }

  lemma QueryRegroup(q: Query, tail: string)
    ensures "{" + Key("table") + Quoted(q.table) + "," + Key("conditions")
            + ("[" + Commas(ConditionTexts(q.conditions)) + "]") + tail == QueryNested(q, tail)
  {
    hide Key, Quoted, Commas, ConditionTexts;
    SixParts(Key("table"), Quoted(q.table), Key("conditions"), Commas(ConditionTexts(q.conditions)), tail);
  }

  lemma SixParts(a: string, b: string, c: string, d: string, e: string)
    ensures "{" + a + b + "," + c + ("[" + d + "]") + e == "{" + ((a + b) + ("," + (c + ("[" + (d + ("]" + e))))))
  {}

  lemma BodyTail(q: Query, c: string, t1: string, t2: string, t3: string)
    requires q.conditions != []
    requires c == "{" + Key("table") + Quoted(q.table) + "," + Key("conditions")
                  + ("[" + Commas(ConditionTexts(q.conditions)) + "]")
    requires t1 == if q.projection != []
                   then "," + Key("projection") + ("[" + Commas(IntTexts(q.projection)) + "]") else ""
    requires t2 == if q.limit > 0 then "," + Key("limit") + IntText(q.limit) else ""
    requires t3 == if q.offset != 0 then "," + Key("offset") + IntText(q.offset) else ""
    ensures BodyOf(q) == c + (t1 + t2 + t3 + "}")
  {
    hide Key, Quoted, Commas, ConditionTexts, IntTexts, IntText;
    var c1 := if q.projection != []
              then c + "," + Key("projection") + ("[" + Commas(IntTexts(q.projection)) + "]") else c;
    Appended(c, Key("projection"), "[" + Commas(IntTexts(q.projection)) + "]", t1, c1);
    var c2 := if q.limit > 0 then c1 + "," + Key("limit") + IntText(q.limit) else c1;
    Appended(c1, Key("limit"), IntText(q.limit), t2, c2);
    var c3 := if q.offset != 0 then c2 + "," + Key("offset") + IntText(q.offset) else c2;
    Appended(c2, Key("offset"), IntText(q.offset), t3, c3);
    assert BodyOf(q) == c3 + "}";
    FourParts(c, t1, t2, t3);
  }

  lemma Appended(b: string, k: string, x: string, t: string, r: string)
    requires (t == "," + k + x && r == b + "," + k + x) || (t == "" && r == b)
    ensures r == b + t
  {}

  lemma FourParts(c: string, t1: string, t2: string, t3: string)
    ensures c + t1 + t2 + t3 + "}" == c + (t1 + t2 + t3 + "}")
  {}

  /** Where the conditions of a query are. */
  lemma QueryPlaces(s: string, table: string, k: string, list: string, tail: string)
    requires At(s, 0, "{" + (table + ("," + (k + ("[" + (list + ("]" + tail)))))))
    requires table != "" && table[0] == '"' && k != ""
    ensures var i := 1 + |table|;
            var v := i + 1 + |k|;
            && v + 1 + |list| < |s| && s[0] == '{' && s[1] == '"' && At(s, 1, table) && s[i] == ',' && At(s, i + 1, k)
            && s[v] == '[' && At(s, v + 1, list) && s[v + 1 + |list|] == ']'
  {
    hide At;
    Peel(s, 0, "{", table + ("," + (k + ("[" + (list + ("]" + tail))))));
    Peel(s, 1, table, "," + (k + ("[" + (list + ("]" + tail)))));
    Peel(s, 1 + |table|, ",", k + ("[" + (list + ("]" + tail))));
    Peel(s, 1 + |table| + 1, k, "[" + (list + ("]" + tail)));
    ListPeel(s, 1 + |table| + 1 + |k|, list, tail);
  }

  lemma ListPeel(s: string, v: nat, list: string, tail: string)
    requires At(s, v, "[" + (list + ("]" + tail)))
    ensures v + 1 + |list| < |s| && s[v] == '[' && At(s, v + 1, list) && s[v + 1 + |list|] == ']'
  {
    hide At;
    Peel(s, v, "[", list + ("]" + tail));
    AtSplit(s, v + 1, list, "]" + tail);
    Peel(s, v + 1 + |list|, "]", tail);
  }

  lemma TableStarts(table: string)
    ensures Key("table") + Quoted(table) != "" && (Key("table") + Quoted(table))[0] == '"'
    ensures IsName("table") && IsName("conditions") && Key("conditions") != ""
  {
    hide Quoted;
  }

  lemma NonFiniteQueryBreaks(q: Query)
    requires AllPrinted(q.conditions) && !AllFinite(q.conditions)
    ensures !IsFragment(BodyOf(q))
  {
    hide At, Key, Quoted, Commas, ConditionTexts, BodyOf, IsFragment, StrictAt, StrictItemsAt, ParseValue, Strict,
         IsName, AllPrinted, AllFinite, SkipWs, In;
    assert q.conditions != [] by { SomeCondition(q.conditions); }
    var s := BodyOf(q);
    var table, list := Key("table") + Quoted(q.table), Commas(ConditionTexts(q.conditions));
    QueryShape(q);
    var tail :| s == QueryNested(q, tail);
    WholeAt(s);
    TableStarts(q.table);
    QueryPlaces(s, table, Key("conditions"), list, tail);
    var i := 1 + |table|;
    var v := i + 1 + |Key("conditions")|;
    if IsFragment(s) {
      FragmentFromStart(s);
      StrictStart(s, 0);
      QuotedIsFragment(q.table);
      StrictPastText(s, 1, "table", Quoted(q.table), i);
      BracketIsNoSpace();
      StrictValue(s, i + 1, "conditions", v);
      ListIsNotEmpty(s, v + 1, q.conditions);
      StrictListInto(s, v);
      NonFiniteListBreaks(s, v + 1, q.conditions);
    }
  }

  lemma BracketIsNoSpace()
    ensures !In('[', Space)
  {}

  lemma SomeCondition(cs: seq<Condition>)
    requires !AllFinite(cs)
    ensures cs != []
  {}

  /**
   A query whose raw conditions are valid JSON, its bounds being whatever %.17g prints, has a
   JSON body if and only if every built range bound is finite.
   */
  lemma QueryIsJsonIffFinite(q: Query)
    requires AllPrinted(q.conditions)
    ensures IsFragment(BodyOf(q)) <==> AllFinite(q.conditions)
    ensures IsWhole(BodyOf(q)) <==> AllFinite(q.conditions)
  {
    hide IsFragment, IsWhole, IsPrintedCondition, IsFiniteCondition, SendableCondition, QueryReads;
    if AllFinite(q.conditions) {
      forall k | 0 <= k < |q.conditions| ensures SendableCondition(q.conditions[k]) {
        FiniteIsSendable(q.conditions[k]);
      }
      QueryBodyIsFragment(q.table, q.conditions, q.projection, q.limit, q.offset);
    } else {
      NonFiniteQueryBreaks(q);
      if IsWhole(BodyOf(q)) { WholeIsFragment(BodyOf(q)); }
    }
  }

  // ---- Raw text that is no value can still make a body ----

  function RawCondition(x: string): Condition { Condition(Pk, 0, None, None, true, true, "", 0, Some(x)) }

  lemma ListOfTwoIsNoValue()
    ensures !IsFragment("1,2")
  {
    hide AllIn, ParseValue, Run;
    CommaIsNoSpace();
    if IsFragment("1,2") {
      var it := FragmentItem("1,2");
      ItemParsed(it);
      WhatFollows(it);
    }
  }

  lemma CommaIsNoSpace()
    ensures !AllIn(",2", Space)
  {
    assert !In(",2"[0], Space);
  }

  lemma WhatFollows(it: Item)
    requires ItemText(it) == "1,2" && SkipWs("1,2", 0) == |it.pre|
    requires ParseValue("1,2", |it.pre|) == Some(Parsed(it.v, |it.pre| + |Text(it.v)|))
    ensures it.post == ",2"
  {
    assert it.pre == "";
    assert Run("1,2", 0, Numeric) == 1;
  }

  lemma NumeralIsFragment(n: nat, x: string)
    requires IntText(n) == x
    ensures IsFragment(x)
  {
    IntIsFragment(n);
  }

  /** The raw condition `1,2` is no JSON, and the body that carries it is: that of two conditions. */
  lemma RawListPassesAsTwo(table: string)
    ensures !IsFragment("1,2")
    ensures IsWhole(BodyOf(Query(table, [RawCondition("1,2")], [], 0, 0)))
  {
    hide BodyOf, IsFragment, IsWhole, IntText;
    ListOfTwoIsNoValue();
    assert IntText(1) == "1" && IntText(2) == "2" by { OneAndTwo(); }
    NumeralIsFragment(1, "1");
    NumeralIsFragment(2, "2");
    var two := Query(table, [RawCondition("1"), RawCondition("2")], [], 0, 0);
    SameList(table);
    QueryIsJsonIffFinite(two);
  }

  lemma OneAndTwo()
    ensures IntText(1) == "1" && IntText(2) == "2"
  {}

  lemma SameList(table: string)
    ensures BodyOf(Query(table, [RawCondition("1,2")], [], 0, 0))
            == BodyOf(Query(table, [RawCondition("1"), RawCondition("2")], [], 0, 0))
  {
    hide Key, Quoted;
    assert ConditionTexts([RawCondition("1,2")]) == ["1,2"];
    assert ConditionTexts([RawCondition("1"), RawCondition("2")]) == ["1", "2"];
    assert ["1", "2"][1..] == ["2"];
    assert Commas(["1", "2"]) == "1" + ("," + Commas(["2"]));
    assert Commas(["1,2"]) == "1,2";
  }
}
