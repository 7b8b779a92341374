/** Exactly which queries have the same body. */
module QueryIdentity {
  import opened Bytes
  import opened StringLaws
  import opened Numbers
  import opened Build
  import opened Fragments
  import opened Objects
  import opened Requests
  import opened QueryLaws

  datatype Query = Query(
    table: string, conditions: seq<Condition>, projection: seq<int64>, limit: int64, offset: int64)

  function BodyOf(q: Query): string {
    QueryBody(q.table, q.conditions, q.projection, q.limit, q.offset)
  }

  // ---- What is not sent ----

  /** Whether a bound is inclusive is never sent: the flags change no body. */
  lemma InclusiveFlagsAreLost(q: Query, k: nat, lo: bool, hi: bool)
    requires k < |q.conditions|
    ensures var c := q.conditions[k].(loInclusive := lo, hiInclusive := hi);
            BodyOf(q.(conditions := q.conditions[k := c])) == BodyOf(q)
  {
    hide Commas, Key, Quoted, IntText, ConditionText, IntTexts;
    var c := q.conditions[k].(loInclusive := lo, hiInclusive := hi);
    FlagsAreLost(q.conditions[k], lo, hi);
    assert ConditionTexts(q.conditions[k := c]) == ConditionTexts(q.conditions);
  }

  lemma FlagsAreLost(c: Condition, lo: bool, hi: bool)
    ensures ConditionText(c.(loInclusive := lo, hiInclusive := hi)) == ConditionText(c)
  {
    hide Key, Quoted, IntText, Snprintf;
  }

  function Between60And90(inclusive: bool): Query {
    Query("t", [Condition(Range, 1, Some("60"), Some("90"), inclusive, inclusive, "", 0, None)], [], 0, 0)
  }

  /** An open and a closed range ask for different things in the same bytes. */
  lemma OpenAndClosedRangesAreSentAlike()
    ensures Between60And90(false) != Between60And90(true)
    ensures BodyOf(Between60And90(false)) == BodyOf(Between60And90(true))
  {
    hide BodyOf;
    var q := Between60And90(true);
    InclusiveFlagsAreLost(q, 0, false, false);
    assert q.(conditions := q.conditions[0 := q.conditions[0].(loInclusive := false, hiInclusive := false)])
        == Between60And90(false);
  }

  // ---- Conditions ----

  /**
   Two built conditions agree on their kind and the fields it sends; two given as JSON are
   the same text; and one of each agree if the text is what would be built.
   */
  predicate SameCondition(c: Condition, d: Condition) {
    match (c.conditionJson, d.conditionJson)
    case (None, None) => TestOf(c) == TestOf(d)
    case (Some(x), Some(y)) => x == y
    case (Some(x), None) => x == ConditionText(d)
    case (None, Some(y)) => ConditionText(c) == y
  }

  lemma TestGivesText(c: Condition, d: Condition)
    requires c.conditionJson.None? && d.conditionJson.None? && TestOf(c) == TestOf(d)
    ensures ConditionText(c) == ConditionText(d)
  {
    hide Key, Quoted, IntText, Snprintf;
  }

  lemma ConditionTextsEqualIff(c: Condition, d: Condition)
    requires SendableCondition(c) && SendableCondition(d)
    ensures ConditionText(c) == ConditionText(d) <==> SameCondition(c, d)
  {
    hide ConditionHead, TestOf, DecodeTest, SendableCondition;
    if c.conditionJson.None? && d.conditionJson.None? {
      ConditionRecovered(c);
      ConditionRecovered(d);
      if TestOf(c) == TestOf(d) { TestGivesText(c, d); }
    }
  }

  ghost predicate AllSendableConditions(cs: seq<Condition>) {
    forall k :: 0 <= k < |cs| ==> SendableCondition(cs[k])
  }

  predicate SameConditions(cs: seq<Condition>, ds: seq<Condition>) {
    |cs| == |ds| && forall k :: 0 <= k < |cs| ==> SameCondition(cs[k], ds[k])
  }

  lemma ConditionListsEqualIff(cs: seq<Condition>, ds: seq<Condition>)
    requires AllSendableConditions(cs) && AllSendableConditions(ds)
    ensures ConditionTexts(cs) == ConditionTexts(ds) <==> SameConditions(cs, ds)
  {
    hide ConditionText, SameCondition, SendableCondition;
    if |cs| == |ds| {
      forall k | 0 <= k < |cs|
        ensures ConditionTexts(cs)[k] == ConditionTexts(ds)[k] <==> SameCondition(cs[k], ds[k])
      {
        ConditionTextsEqualIff(cs[k], ds[k]);
      }
    }
  }

  lemma IntListsEqualIff(ms: seq<int64>, ns: seq<int64>)
    ensures IntTexts(ms) == IntTexts(ns) <==> ms == ns
  {
    hide IntText;
    if IntTexts(ms) == IntTexts(ns) {
      assert |IntTexts(ms)| == |ms| && |IntTexts(ns)| == |ns|;
      forall k | 0 <= k < |ms| ensures ms[k] == ns[k] {
        assert IntTexts(ms)[k] == IntTexts(ns)[k];
        IntTextInjective(ms[k], ns[k]);
      }
    }
  }

  // ---- Queries ----

  function QueryNames(): seq<string> {
    ["table"] + (["conditions"] + (["projection"] + (["limit"] + (["offset"] + []))))
  }

  function IntOption(there: bool, n: int): Option<string> { if there then Some(IntText(n)) else None }

  function QueryParts(q: Query): (xs: seq<Option<string>>)
    ensures |xs| == 5
  {
    [Some(Quoted(q.table))] + ([ListPart(ConditionTexts(q.conditions))] + ([ListPart(IntTexts(q.projection))]
    + ([IntOption(q.limit > 0, q.limit)] + ([IntOption(q.offset != 0, q.offset)] + []))))
  }

  lemma QueryNamesAreDistinct()
    ensures |QueryNames()| == 5 && Distinct(QueryNames())
    ensures forall k :: 0 <= k < 5 ==> IsName(QueryNames()[k])
  {
    hide IsName;
    BodyNamesDiffer();
  }

  lemma QueryIsBuilt(q: Query)
    ensures |QueryNames()| == 5 && BodyOf(q) == ObjectText(Select(QueryNames(), QueryParts(q)))
  {
    hide Key, Quoted, ConditionTexts, IntTexts, IntText, Commas, Chain, Select, ObjectText;
    var t, c, p := Some(Quoted(q.table)), ListPart(ConditionTexts(q.conditions)), ListPart(IntTexts(q.projection));
    var l, o := IntOption(q.limit > 0, q.limit), IntOption(q.offset != 0, q.offset);
    var b := "{" + Key("table") + Quoted(q.table);
    ChainIsObject("table", Quoted(q.table), ["conditions"] + (["projection"] + (["limit"] + (["offset"] + []))),
                  [c] + ([p] + ([l] + ([o] + []))));
    ChainStep(b, "conditions", ["projection"] + (["limit"] + (["offset"] + [])), c, [p] + ([l] + ([o] + [])));
    b := WithOption(b, "conditions", c);
    ChainStep(b, "projection", ["limit"] + (["offset"] + []), p, [l] + ([o] + []));
    b := WithOption(b, "projection", p);
    ChainStep(b, "limit", ["offset"] + [], l, [o] + []);
    b := WithOption(b, "limit", l);
    ChainStep(b, "offset", [], o, []);
    ChainEnds(WithOption(b, "offset", o));
    NoTexts(q);
  }

  lemma NoTexts(q: Query)
    ensures ConditionTexts(q.conditions) == [] <==> q.conditions == []
    ensures IntTexts(q.projection) == [] <==> q.projection == []
  {
    TextCounts(q.conditions, q.projection);
  }

  lemma QueryIsWritable(q: Query)
    requires AllSendableConditions(q.conditions)
    ensures |QueryNames()| == 5 && AllWritable(QueryNames(), QueryParts(q))
  {
    hide Quoted, ConditionTexts, IntTexts, IntText, Commas, IsName, IsFragment, ListPart, SendableCondition,
         AllWritable;
    BodyNamesDiffer();
    QuotedIsFragment(q.table);
    ConditionsAreFragments(q.conditions);
    IntsAreFragments(q.projection);
    ListPartInjective(ConditionTexts(q.conditions), ConditionTexts(q.conditions));
    ListPartInjective(IntTexts(q.projection), IntTexts(q.projection));
    IntIsFragment(q.limit);
    IntIsFragment(q.offset);
    var c, p := ListPart(ConditionTexts(q.conditions)), ListPart(IntTexts(q.projection));
    var l, o := IntOption(q.limit > 0, q.limit), IntOption(q.offset != 0, q.offset);
    NothingWritable();
    WritableStep("offset", [], o, []);
    WritableStep("limit", ["offset"] + [], l, [o] + []);
    WritableStep("projection", ["limit"] + (["offset"] + []), p, [l] + ([o] + []));
    WritableStep("conditions", ["projection"] + (["limit"] + (["offset"] + [])), c, [p] + ([l] + ([o] + [])));
    WritableStep("table", ["conditions"] + (["projection"] + (["limit"] + (["offset"] + []))), Some(Quoted(q.table)),
                 [c] + ([p] + ([l] + ([o] + []))));
  }

  /** Limits below one are all sent as none. */
  predicate SameQuery(a: Query, b: Query) {
    && a.table == b.table && SameConditions(a.conditions, b.conditions) && a.projection == b.projection
    && (a.limit == b.limit || (a.limit <= 0 && b.limit <= 0)) && a.offset == b.offset
  }

  lemma QueryPartsEqualIff(a: Query, b: Query)
    requires AllSendableConditions(a.conditions) && AllSendableConditions(b.conditions)
    ensures QueryParts(a) == QueryParts(b) <==> SameQuery(a, b)
  {
    hide Quoted, ConditionTexts, IntTexts, IntText, ListPart, SameConditions, AllSendableConditions;
    QuotedInjective(a.table, b.table);
    ConditionListsEqualIff(a.conditions, b.conditions);
    IntListsEqualIff(a.projection, b.projection);
    ListsEqualIff(a, b);
    IntTextInjective(a.limit, b.limit);
    IntTextInjective(a.offset, b.offset);
    var xs, ys := QueryParts(a), QueryParts(b);
    assert xs == ys <==> xs[0] == ys[0] && xs[1] == ys[1] && xs[2] == ys[2] && xs[3] == ys[3] && xs[4] == ys[4];
  }

  lemma ListsEqualIff(a: Query, b: Query)
    requires AllSendableConditions(a.conditions) && AllSendableConditions(b.conditions)
    ensures ListPart(ConditionTexts(a.conditions)) == ListPart(ConditionTexts(b.conditions))
            <==> ConditionTexts(a.conditions) == ConditionTexts(b.conditions)
    ensures ListPart(IntTexts(a.projection)) == ListPart(IntTexts(b.projection))
            <==> IntTexts(a.projection) == IntTexts(b.projection)
  {
    hide ConditionTexts, IntTexts, ListPart, SendableCondition, IsFragment;
    ConditionsAreFragments(a.conditions);
    ConditionsAreFragments(b.conditions);
    IntsAreFragments(a.projection);
    IntsAreFragments(b.projection);
    ListPartInjective(ConditionTexts(a.conditions), ConditionTexts(b.conditions));
    ListPartInjective(IntTexts(a.projection), IntTexts(b.projection));
  }

  /**
   Two queries have the same body if and only if they agree on the table, the projection, the
   limit if positive, the offset, and condition by condition on everything but the inclusive
   flags and the fields that the kind ignores.
   */
  lemma QueryBodiesEqualIff(a: Query, b: Query)
    requires AllSendableConditions(a.conditions) && AllSendableConditions(b.conditions)
    ensures BodyOf(a) == BodyOf(b) <==> SameQuery(a, b)
  {
    hide BodyOf, ObjectText, Select, QueryParts, QueryNames, SameQuery, AllSendableConditions, AllWritable, Distinct;
    QueryIsBuilt(a);
    QueryIsBuilt(b);
    QueryIsWritable(a);
    QueryIsWritable(b);
    QueryNamesAreDistinct();
    QueryPartsEqualIff(a, b);
    if BodyOf(a) == BodyOf(b) { BuiltInjective(QueryNames(), QueryParts(a), QueryParts(b)); }
  }
}
