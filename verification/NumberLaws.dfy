/** What the numbers of a document are read as, in decimal positions and literal bounds. */
module NumberLaws {
  import opened Bytes
  import opened Numbers
  import opened Grammar
  import opened GrammarLaws
  import opened Values
  import opened Writers
  import opened TxnLaws

  // ---- Decimal positions ----

  function Ten(k: nat): nat { if k == 0 then 1 else 10 * Ten(k - 1) }

  /** Each digit by its place: the index in the table times the power of ten of the digits after it. */
  function Weighted(x: string): int
    requires AllIn(x, Digit)
  {
    if x == "" then 0 else Place(x[0]) * Ten(|x| - 1) + Weighted(x[1..])
  }

  function Place(c: char): int
    requires In(c, Digit)
    ensures 0 <= Place(c) < 10 && "0123456789"[Place(c)] == c
  {
    match c
    case '0' => 0 case '1' => 1 case '2' => 2 case '3' => 3 case '4' => 4
    case '5' => 5 case '6' => 6 case '7' => 7 case '8' => 8
    case _ => 9
  }

  lemma {:induction false} WeightedAppend(x: string, c: char)
    requires AllIn(x, Digit) && In(c, Digit)
    ensures AllIn(x + [c], Digit)
    ensures Weighted(x + [c]) == Weighted(x) * 10 + Place(c)
    decreases |x|
  {
    hide Place, In;
    if x == "" {
      assert x + [c] == [c] && [c][1..] == "";
      assert Ten(0) == 1;
    } else {
      assert (x + [c])[1..] == x[1..] + [c];
      WeightedAppend(x[1..], c);
      Distribute(Place(x[0]), Ten(|x| - 1), Weighted(x[1..]));
    }
  }

  lemma Distribute(d: int, t: int, w: int)
    ensures d * (10 * t) + w * 10 == (d * t + w) * 10
  {}

  /** The value of a run of digits is its value by decimal places. */
  lemma {:induction false} NatValueIsWeighted(x: string)
    requires AllIn(x, Digit)
    ensures NatValue(x) == Weighted(x)
    decreases |x|
  {
    hide Place;
    if x != "" {
      var front, c := x[..|x| - 1], x[|x| - 1];
      NatValueIsWeighted(front);
      WeightedAppend(front, c);
      assert front + [c] == x;
      PlaceIsValue(c);
    }
  }

  lemma PlaceIsValue(c: char)
    requires In(c, Digit)
    ensures Place(c) == DigitValue(c)
  {}

  /** The text of n has the value n by decimal places. */
  lemma TextIsDecimal(n: nat)
    ensures AllIn(NatText(n), Digit) && Weighted(NatText(n)) == n
  {
    NatTextInverse(n);
    NatValueIsWeighted(NatText(n));
  }

  // ---- Limits ----

  lemma LimitsAre()
    ensures TWO53 == 9_007_199_254_740_992 && TWO63 == 9_223_372_036_854_775_808
    ensures TWO64 == 18_446_744_073_709_551_616
  {}

  /** The value of an integer lexeme, kept within the range of int64_t. */
  function Saturated(x: string): int
    requires IntPart(x)
  {
    var n := if x[0] == '-' then -Weighted(x[1..]) else Weighted(x);
    if n > 9_223_372_036_854_775_807 then 9_223_372_036_854_775_807
    else if n < -9_223_372_036_854_775_808 then -9_223_372_036_854_775_808
    else n
  }

  lemma StrtollSaturates(x: string)
    requires IntPart(x)
    ensures Strtoll(x) == Saturated(x)
  {
    hide Weighted, NatValue;
    assert IsPlain(x);
    StrtollPlain(x);
    if x[0] == '-' { NatValueIsWeighted(x[1..]); } else { NatValueIsWeighted(x); }
  }

  /** strtoull on a run of digits. */
  lemma StrtoullSaturates(x: string)
    requires AllIn(x, Digit)
    ensures Strtoull(x)
            == Some(if Weighted(x) > 18_446_744_073_709_551_615 then 18_446_744_073_709_551_615 else Weighted(x))
  {
    hide Weighted, NatValue;
    NatValueIsWeighted(x);
  }

  /** strtoll stops at the first byte that is no digit. */
  lemma StrtollStops(d: string, rest: string)
    requires d != "" && AllIn(d, Digit) && (rest != "" ==> !In(rest[0], Digit))
    ensures Strtoll(d + rest) == Strtoll(d)
    ensures Strtoll("-" + d + rest) == Strtoll("-" + d)
  {
    hide NatValue, Run, In;
    NoSign(d);
    DigitsAt(d, rest);
    DigitsAt(d, "");
    assert d + "" == d;
    SignedDigitsAt(d, rest);
    SignedDigitsAt(d, "");
    assert "-" + d + "" == "-" + d;
  }

  /** A minus sign without digits after it is 0. */
  lemma StrtollNoDigits(rest: string)
    requires rest != "" ==> !In(rest[0], Digit)
    ensures Strtoll("-" + rest) == 0
  {
    hide In;
    var x := "-" + rest;
    assert Run(x, 1, Digit) == 1;
    assert x[1..1] == "";
  }

  lemma NoSign(d: string)
    requires d != "" && AllIn(d, Digit)
    ensures d[0] != '-' && d[0] != '+'
  {
    assert In(d[0], Digit);
  }

  lemma DigitsAt(d: string, rest: string)
    requires d != "" && AllIn(d, Digit) && (rest != "" ==> !In(rest[0], Digit))
    ensures Run(d + rest, 0, Digit) == |d| && (d + rest)[0..|d|] == d && (d + rest)[0] == d[0]
  {
    AtContext("", d, rest);
    assert "" + d + rest == d + rest;
    RunExact(d + rest, 0, d, Digit);
  }

  lemma SignedDigitsAt(d: string, rest: string)
    requires d != "" && AllIn(d, Digit) && (rest != "" ==> !In(rest[0], Digit))
    ensures var x := "-" + d + rest; Run(x, 1, Digit) == 1 + |d| && x[1..1 + |d|] == d && x[0] == '-'
  {
    AtContext("-", d, rest);
    RunExact("-" + d + rest, 1, d, Digit);
  }

  /** strtoull is refused exactly if the lexeme has a byte that is no digit. */
  lemma StrtoullFailsIff(x: string)
    ensures Strtoull(x).None? <==> exists k :: 0 <= k < |x| && !(0x30 <= x[k] as int <= 0x39)
  {
    hide NatValue;
    if exists k :: 0 <= k < |x| && !(0x30 <= x[k] as int <= 0x39) {
      var k :| 0 <= k < |x| && !(0x30 <= x[k] as int <= 0x39);
      assert !In(x[k], Digit);
    } else {
      forall k | 0 <= k < |x| ensures In(x[k], Digit) {
        assert 0x30 <= x[k] as int <= 0x39;
      }
    }
  }

  // ---- Numbers of a document ----

  /**
   Every RFC 8259 number, before any delimiter, is read to its last byte: as an integer
   exactly when it has neither fraction nor exponent, with its decimal value saturated, and
   otherwise as the double of its text.
   */
  lemma NumberReads(p: string, x: string, q: string)
    requires IsRfcNumber(x) && Delimited(q, 0)
    ensures ReadAt(p + x + q, |p|)
            == Some(Parsed(if IntPart(x) then Int64(Saturated(x)) else Floating(Finite(x)), |p + x|))
  {
    hide ReadAt, IsDouble, IntPart, Strtoll, Saturated, IsRfcNumber, Delimited;
    var it := Item("", Number(x), "");
    NumberItem(x);
    DoubleIsNoIntPart(x);
    if IntPart(x) { StrtollSaturates(x); }
    ReadItem(p, it, q);
    assert p + "" + x == p + x;
  }

  lemma NumberItem(x: string)
    requires IsRfcNumber(x)
    ensures var it := Item("", Number(x), ""); StrictItem(it) && ItemText(it) == x && Text(it.v) == x
  {
    hide IsRfcNumber;
    assert "" + x + "" == x;
  }

  /** A double with only an exponent is a double. */
  lemma ExponentReads()
    ensures ReadAt("1e+20", 0) == Some(Parsed(Floating(Finite("1e+20")), 5))
  {
    hide ReadAt;
    assert IsRfcNumber("1e+20") by { ExponentIsNumber(); }
    assert !IntPart("1e+20") by { ExponentIsNumber(); }
    NumberReads("", "1e+20", "");
    assert "" + "1e+20" + "" == "1e+20";
  }

  lemma ExponentIsNumber()
    ensures IsRfcNumber("1e+20") && !IntPart("1e+20")
  {
    assert "1e+20" == "1" + "" + "e+20";
    assert "e+20"[2..] == "20";
    assert NumberParts("1e+20", "1", "", "e+20");
    assert !In("1e+20"[1], Digit);
  }

  // ---- Values that do not come back as themselves ----

  /** What a value other than raw JSON is read as once it has been written. */
  function ReadBack(v: Value): Value
    requires !v.Json?
  {
    match v
    case Floating(NotFinite) => Null
    case Floating(Finite(x)) => if IntPart(x) then Int64(Saturated(x)) else v
    case _ => v
  }

  /** A non-finite double comes back as null, a double without fraction and exponent as an integer. */
  lemma WrittenReadsAs(p: string, v: Value, q: string)
    requires Sendable(v) && !v.Json? && Delimited(q, 0)
    ensures ReadAt(p + ValueText(v) + q, |p|) == Some(Parsed(ReadBack(v), |p + ValueText(v)|))
  {
    hide ReadAt, Strtoll, Saturated, IntPart, IsRfcNumber, Delimited, IntText;
    match v {
      case Floating(NotFinite) => ValueRoundTrip(p, Null, q);
      case Floating(Finite(x)) => NumberReads(p, x, q);
      case _ => ValueRoundTrip(p, v, q);
    }
  }
}
