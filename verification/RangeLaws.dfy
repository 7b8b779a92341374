/** A range condition is JSON exactly when its bounds are numbers. */
module RangeLaws {
  import opened Bytes
  import opened Numbers
  import opened Grammar
  import opened GrammarLaws
  import opened RowsLaws
  import opened Build
  import opened Fragments
  import opened Requests
  import opened QueryLaws
  import opened Truncation

  /** What %.17g prints for an infinity or for what is not a number. */
  predicate IsNonFinite(x: string) { x == "nan" || x == "-nan" || x == "inf" || x == "-inf" }

  /** What %.17g prints: a number of at most 24 characters, or one of the above. */
  ghost predicate IsPrinted(bound: Option<string>) {
    bound.Some? ==> (IsRfcNumber(bound.value) && |bound.value| <= 24) || IsNonFinite(bound.value)
  }

  lemma NonFiniteIsNoNumber(x: string)
    requires IsNonFinite(x)
    ensures !IsRfcNumber(x)
    ensures |x| <= 4 && 2 <= |x| && !In(x[1], Numeric)
  {
    hide IsRfcNumber;
    if IsRfcNumber(x) { NumberSecond(x); }
  }

  lemma NumberSecond(x: string)
    requires IsRfcNumber(x) && |x| >= 2
    ensures In(x[1], Numeric)
  {
    hide IsRfcNumber;
    NumberIsNumeric(x);
  }

  // ---- Strict members, read one by one ----

  ghost predicate StrictAt(s: string, i: nat) {
    i <= |s| && ParseMembers(s, i).Some? && AllStrict(ParseMembers(s, i).value.t)
  }

  lemma StrictFirst(s: string, i: nat)
    requires StrictAt(s, i)
    ensures ParseMember(s, i).Some? && StrictMember(ParseMember(s, i).value.t)
    ensures var e := ParseMember(s, i).value.end; e < |s| && (s[e] == ',' ==> StrictAt(s, e + 1))
  {
    hide ParseMember, ParseMembers, StrictMember;
    MembersStep(s, i);
    var ms := ParseMembers(s, i).value.t;
    var e := ParseMember(s, i).value.end;
    assert StrictMember(ms[0]);
    if s[e] == ',' {
      assert forall k :: 0 <= k < |ms[1..]| ==> ms[1..][k] == ms[k + 1];
    }
  }

  lemma StrictValue(s: string, i: nat, name: string, v: nat)
    requires StrictAt(s, i) && IsName(name) && At(s, i, Key(name)) && v == i + |Key(name)| < |s| && !In(s[v], Space)
    ensures ParseValue(s, v).Some? && Strict(ParseValue(s, v).value.t)
  {
    hide At, ParseMember, ParseMembers, ParseItem, ParseValue, Key, In, Strict, AllStrict;
    StrictFirst(s, i);
    MemberFromName(s, i, name, v);
    ItemFromValue(s, v);
    StrictInside(ParseMember(s, i).value.t);
  }

  lemma StrictInside(m: Member)
    requires StrictMember(m)
    ensures Strict(m.item.v)
  {}

  lemma StrictInto(s: string, i: nat, name: string, v: nat)
    requires StrictAt(s, i) && IsName(name) && At(s, i, Key(name)) && v == i + |Key(name)| && v + 1 < |s|
    requires s[v] == '{' && s[v + 1] == '"'
    ensures StrictAt(s, v + 1)
  {
    hide At, ParseMembers, ParseValue, Key, In, StrictMember;
    NotSpaces();
    StrictValue(s, i, name, v);
    ValueFromMembers(s, v);
  }

  lemma NumberStarts(x: string)
    requires IsRfcNumber(x)
    ensures Strict(Number(x)) && Text(Number(x)) == x
  {}

  /** A numeric field before another one. */
  lemma StrictPast(s: string, i: nat, name: string, x: string, e: nat)
    requires StrictAt(s, i) && IsName(name) && IsRfcNumber(x)
    requires At(s, i, Key(name) + x) && e == i + |Key(name) + x| < |s| && s[e] == ','
    ensures StrictAt(s, e + 1)
  {
    hide At, Key, ParseMember, MemberText, LenientMember, StrictMember, FieldOf, IsName, IsRfcNumber, StrictItem,
         ItemText, StrictAt;
    StrictFirst(s, i);
    NumberStarts(x);
    EntryText(Number(x));
    FieldText(name, Entry(Number(x)));
    StrictMemberIsLenient(Field(name, Number(x)), |s| - e);
    MemberExact(s, i, Field(name, Number(x)), e);
  }

  /** A bound that is not finite is no RFC 8259 value. */
  lemma NonFiniteBreaks(s: string, i: nat, name: string, x: string)
    requires IsName(name) && IsNonFinite(x) && At(s, i, Key(name) + x)
    ensures !StrictAt(s, i)
  {
    hide At, Key, StrictAt, IsName, IsRfcNumber, In, StartsWord, StartsNumber;
    var v := i + |Key(name)|;
    AtSplit(s, i, Key(name), x);
    NonFiniteIsNoNumber(x);
    TwoAt(s, v, x);
    assert !In(x[0], Space) by { NonFiniteStarts(x); }
    if StrictAt(s, i) {
      StrictValue(s, i, name, v);
      NonFiniteValue(s, v, x);
    }
  }

  lemma NonFiniteStarts(x: string)
    requires IsNonFinite(x)
    ensures !In(x[0], Space)
  {}

  lemma NonFiniteValue(s: string, v: nat, x: string)
    requires IsNonFinite(x) && v + 1 < |s| && s[v] == x[0] && s[v + 1] == x[1]
    ensures ParseValue(s, v).Some? ==> !Strict(ParseValue(s, v).value.t)
  {
    if ParseValue(s, v).Some? {
      if x[0] == 'n' {
        WordOfTwo(s, v);
      } else {
        MinusAlone(s, v);
      }
    }
  }

  lemma WordOfTwo(s: string, v: nat)
    requires v + 1 < |s| && s[v] == 'n' && s[v + 1] == 'a' && ParseValue(s, v).Some?
    ensures !Strict(ParseValue(s, v).value.t)
  {
    var x := s[v..Run(s, v, WordChar)];
    assert Run(s, v, WordChar) == Run(s, v + 2, WordChar);
    assert x[0] == 'n' && x[1] == 'a';
    assert "null"[1] == 'u' && "true"[0] == 't' && "false"[0] == 'f';
  }

  lemma MinusAlone(s: string, v: nat)
    requires v + 1 < |s| && s[v] == '-' && !In(s[v + 1], Numeric) && ParseValue(s, v).Some?
    ensures !Strict(ParseValue(s, v).value.t)
  {
    var x := s[v..Run(s, v, Numeric)];
    assert Run(s, v, Numeric) == v + 1;
    assert x == "-";
    if IsRfcNumber(x) { MinusGoesOn(x); }
  }

  lemma MinusGoesOn(x: string)
    requires IsRfcNumber(x) && x != "" && x[0] == '-'
    ensures |x| > 1
  {
    var a, b, c :| NumberParts(x, a, b, c);
    assert a != "" && x[0] == a[0];
  }

  // ---- Range conditions ----

  lemma RangeNames()
    ensures IsName("range") && IsName("column_id") && IsName("lo") && IsName("hi")
  {}

  function BoundText(name: string, bound: Option<string>): string {
    match bound
    case Some(x) => "," + Key(name) + x
    case None => ""
  }

  lemma ShortBound(bound: Option<string>)
    requires IsPrinted(bound)
    ensures bound.Some? ==> |bound.value| <= 24
  {
    hide IsRfcNumber;
    if bound.Some? && IsNonFinite(bound.value) { NonFiniteIsNoNumber(bound.value); }
  }

  /** A printed bound is short enough for its buffer. */
  lemma BoundIsWhole(b: string, name: string, bound: Option<string>)
    requires IsPrinted(bound) && |name| == 2
    ensures WithBound(b, name, bound) == b + BoundText(name, bound)
  {
    hide IsPrinted;
    ShortBound(bound);
    assert |Key(name)| == 5;
    if bound.None? { assert b + "" == b; }
  }

  function RangeStart(c: Condition): string {
    "{" + Key("range") + "{" + Key("column_id") + IntText(c.columnId)
  }

  lemma RangeWithBounds(c: Condition)
    requires c.kind == Range && c.conditionJson.None?
    ensures ConditionText(c) == WithBound(WithBound(RangeStart(c), "lo", c.lo), "hi", c.hi) + "}" + "}"
  {
    hide Key, IntText, WithBound;
  }

  lemma RangeText(c: Condition)
    requires c.kind == Range && c.conditionJson.None? && IsPrinted(c.lo) && IsPrinted(c.hi)
    ensures ConditionText(c) == RangeNested(Key("range"), Key("column_id") + IntText(c.columnId), BoundText("lo", c.lo),
                                            BoundText("hi", c.hi))
  {
    hide Key, IntText, IsPrinted, ConditionText, WithBound, BoundText;
    var b := RangeStart(c);
    RangeWithBounds(c);
    BoundIsWhole(b, "lo", c.lo);
    BoundIsWhole(b + BoundText("lo", c.lo), "hi", c.hi);
    Regrouped(Key("range"), Key("column_id"), IntText(c.columnId), BoundText("lo", c.lo), BoundText("hi", c.hi));
  }

  function RangeNested(r: string, column: string, lo: string, hi: string): string {
    "{" + (r + ("{" + (column + (lo + (hi + "}}")))))
  }

  lemma Regrouped(r: string, k: string, n: string, lo: string, hi: string)
    ensures "{" + r + "{" + k + n + lo + hi + "}" + "}" == RangeNested(r, k + n, lo, hi)
  {}

  /** Where the bounds of a range condition are, and how to read up to them. */
  lemma RangePlaces(s: string, k: nat, r: string, column: string, lo: string, hi: string)
    requires At(s, k, RangeNested(r, column, lo, hi)) && r != "" && column != "" && column[0] == '"' && r[0] == '"'
    ensures var v := k + 1 + |r|;
            var i := v + 1 + |column|;
            && v + 1 < |s| && s[k] == '{' && s[k + 1] == '"' && At(s, k + 1, r) && s[v] == '{' && s[v + 1] == '"'
            && At(s, v + 1, column) && At(s, i, lo) && At(s, i + |lo|, hi)
            && i + |lo| + |hi| < |s| && s[i + |lo| + |hi|] == '}'
  {
    hide At, RangeNested;
    RangeOpens(s, k, r, column, lo, hi);
    RangeCloses(s, k + 1 + |r| + 1 + |column|, lo, hi);
  }

  lemma RangeOpens(s: string, k: nat, r: string, column: string, lo: string, hi: string)
    requires At(s, k, RangeNested(r, column, lo, hi)) && r != "" && column != "" && column[0] == '"' && r[0] == '"'
    ensures var v := k + 1 + |r|;
            && v + 1 < |s| && s[k] == '{' && s[k + 1] == '"' && At(s, k + 1, r) && s[v] == '{' && s[v + 1] == '"'
            && At(s, v + 1, column) && At(s, v + 1 + |column|, lo + (hi + "}}"))
  {
    hide At;
    var q := lo + (hi + "}}");
    Peel(s, k, "{", r + ("{" + (column + q)));
    Peel(s, k + 1, r, "{" + (column + q));
    Peel(s, k + 1 + |r|, "{", column + q);
    Peel(s, k + 1 + |r| + 1, column, q);
  }

  lemma RangeCloses(s: string, i: nat, lo: string, hi: string)
    requires At(s, i, lo + (hi + "}}"))
    ensures At(s, i, lo) && At(s, i + |lo|, hi) && i + |lo| + |hi| < |s| && s[i + |lo| + |hi|] == '}'
  {
    hide At;
    AtSplit(s, i, lo, hi + "}}");
    AtSplit(s, i + |lo|, hi, "}}");
    TwoAt(s, i + |lo| + |hi|, "}}");
  }

  /** One bound: a finite one is read past, any other stops the reading. */
  lemma PastBound(s: string, i: nat, name: string, bound: Option<string>)
    requires bound.Some? && IsPrinted(bound) && IsName(name) && At(s, i, BoundText(name, bound)) && s[i] == ','
    requires StrictAt(s, i + 1)
    ensures IsRfcNumber(bound.value)
    ensures var e := i + |BoundText(name, bound)|; e < |s| && s[e] == ',' ==> StrictAt(s, e + 1)
  {
    hide At, Key, StrictAt, IsName, IsRfcNumber, IsNonFinite;
    var x := bound.value;
    assert BoundText(name, bound) == "," + (Key(name) + x);
    AtSplit(s, i, ",", Key(name) + x);
    if IsNonFinite(x) {
      NonFiniteBreaks(s, i + 1, name, x);
    } else {
      var e := i + |BoundText(name, bound)|;
      if e < |s| && s[e] == ',' { StrictPast(s, i + 1, name, x, e); }
    }
  }

  predicate IsFinite(bound: Option<string>) { bound.Some? ==> !IsNonFinite(bound.value) }

  lemma CommaAfter(s: string, i: nat, name: string, bound: Option<string>)
    requires At(s, i, BoundText(name, bound)) && bound.Some?
    ensures i < |s| && s[i] == ','
  {
    FirstAt(s, i, BoundText(name, bound));
  }

  predicate IsBuiltRange(c: Condition) { c.kind == Range && c.conditionJson.None? }

  /** Wherever it is written, a range condition with a bound that is not finite is no RFC 8259 value. */
  lemma NonFiniteRangeBreaks(s: string, k: nat, c: Condition)
    requires IsBuiltRange(c) && IsPrinted(c.lo) && IsPrinted(c.hi)
    requires !IsFinite(c.lo) || !IsFinite(c.hi)
    requires At(s, k, ConditionText(c))
    ensures k < |s| && s[k] == '{'
    ensures ParseValue(s, k).Some? ==> !Strict(ParseValue(s, k).value.t)
  {
    hide At, Key, IntText, StrictAt, IsName, IsRfcNumber, IsNonFinite, IsPrinted, BoundText, RangeNested, ConditionText,
         ParseValue, Strict, IsFinite;
    var column := Key("column_id") + IntText(c.columnId);
    var lo, hi := BoundText("lo", c.lo), BoundText("hi", c.hi);
    var v := k + 1 + |Key("range")|;
    var i := v + 1 + |column|;
    RangeText(c);
    RangeNames();
    KeyOpens("range");
    KeyOpens("column_id");
    RangePlaces(s, k, Key("range"), column, lo, hi);
    NonFiniteBounds(c);
    if ParseValue(s, k).Some? && Strict(ParseValue(s, k).value.t) {
      StrictStart(s, k);
      StrictInto(s, k + 1, "range", v);
      assert s[i] == ',' by {
        if c.lo.Some? { CommaAfter(s, i, "lo", c.lo); } else { NoText("lo"); CommaAfter(s, i, "hi", c.hi); }
      }
      IntIsNumber(c.columnId);
      StrictPast(s, v + 1, "column_id", IntText(c.columnId), i);
      if c.lo.Some? {
        PastBound(s, i, "lo", c.lo);
        CommaAfter(s, i + |lo|, "hi", c.hi);
      } else {
        NoText("lo");
      }
      PastBound(s, i + |lo|, "hi", c.hi);
    }
  }

  lemma NoText(name: string)
    ensures BoundText(name, None) == ""
  {}

  lemma IntIsNumber(n: int)
    ensures IsRfcNumber(IntText(n))
  {
    IntTreeStrict(n);
  }

  lemma NonFiniteBounds(c: Condition)
    requires IsPrinted(c.lo) && IsPrinted(c.hi) && (!IsFinite(c.lo) || !IsFinite(c.hi))
    ensures c.lo.Some? && IsRfcNumber(c.lo.value) ==> c.hi.Some?
    ensures c.lo.None? ==> c.hi.Some?
    ensures c.hi.Some? && IsRfcNumber(c.hi.value) ==> c.lo.Some? && !IsRfcNumber(c.lo.value)
  {
    hide IsRfcNumber, IsNonFinite;
    if c.lo.Some? && IsNonFinite(c.lo.value) { NonFiniteIsNoNumber(c.lo.value); }
    if c.hi.Some? && IsNonFinite(c.hi.value) { NonFiniteIsNoNumber(c.hi.value); }
  }

  /** A strict value that starts with a name in braces has strict members. */
  lemma StrictStart(s: string, k: nat)
    requires k + 1 < |s| && s[k] == '{' && s[k + 1] == '"' && ParseValue(s, k).Some? && Strict(ParseValue(s, k).value.t)
    ensures StrictAt(s, k + 1)
  {
    hide ParseValue, ParseMembers, StrictMember;
    ValueFromMembers(s, k);
  }

  /** A fragment that starts with a brace is parsed from its first byte, as a strict value. */
  lemma FragmentFromStart(s: string)
    requires IsFragment(s) && s != "" && s[0] == '{'
    ensures ParseValue(s, 0).Some? && Strict(ParseValue(s, 0).value.t)
  {
    hide ParseValue, IsFragment, Strict;
    ParseFragment(s);
  }

  /**
   A built range condition, its bounds being whatever %.17g prints, is JSON if and only if
   neither bound is an infinity or not a number.
   */
  lemma RangeIsJsonIffFinite(c: Condition)
    requires IsBuiltRange(c) && IsPrinted(c.lo) && IsPrinted(c.hi)
    ensures IsFragment(ConditionText(c)) <==> IsFinite(c.lo) && IsFinite(c.hi)
    ensures IsWhole(ConditionText(c)) <==> IsFinite(c.lo) && IsFinite(c.hi)
  {
    hide IsFragment, IsWhole, ConditionText, IsRfcNumber, IsNonFinite, ConditionTree, ParseValue, Strict;
    if IsFinite(c.lo) && IsFinite(c.hi) {
      ConditionIsFragment(c);
    } else {
      WholeAt(ConditionText(c));
      NonFiniteRangeBreaks(ConditionText(c), 0, c);
      if IsFragment(ConditionText(c)) { FragmentFromStart(ConditionText(c)); }
      if IsWhole(ConditionText(c)) { WholeIsFragment(ConditionText(c)); }
    }
  }
}
