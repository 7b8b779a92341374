/** What is sent can be recovered: cells, and whole transaction bodies. */
module TxnLaws {
  import opened Bytes
  import opened Strings
  import opened StringLaws
  import opened Numbers
  import opened Grammar
  import opened GrammarLaws
  import opened Values
  import opened Lookup
  import opened Rows
  import opened RowsLaws
  import opened Build
  import opened Fragments
  import opened Writers

  // ---- Values ----

  /** Finite doubles print as numbers, and raw JSON is valid, as its documentation asks. */
  ghost predicate Sendable(v: Value) {
    match v
    case Floating(d) => d.Finite? ==> IsRfcNumber(d.text)
    case Json(x) => IsFragment(x)
    case _ => true
  }

  /** The item that json_value writes: raw JSON keeps the white space around its value. */
  ghost function ValueItem(v: Value): Item
    requires Sendable(v)
  {
    match v
    case Null => Entry(Word("null"))
    case Bool(b) => Entry(BoolTree(b))
    case Int64(n) => Entry(IntTree(n))
    case Floating(d) => Entry(if d.Finite? then Number(d.text) else Word("null"))
    case String(x) => Entry(StrTree(x))
    case Json(x) => FragmentItem(x)
  }

  lemma ValueItemText(v: Value)
    requires Sendable(v)
    ensures ItemText(ValueItem(v)) == ValueText(v) && StrictItem(ValueItem(v))
  {
    hide IntText, ItemText, IsFragment, IsRfcNumber;
    match v {
      case Null => EntryText(Word("null"));
      case Bool(b) => EntryText(BoolTree(b));
      case Int64(n) =>
        IntTreeStrict(n);
        EntryText(IntTree(n));
      case Floating(d) =>
        if d.Finite? { EntryText(Number(d.text)); } else { EntryText(Word("null")); }
      case String(x) =>
        StrTreeText(x);
        EntryText(StrTree(x));
      case Json(x) =>
    }
  }

  predicate IsOpener(c: char) { c == '{' || c == '[' }

  predicate IsCloser(c: char) { c == '}' || c == ']' }

  /**
   Raw JSON must be a container, with no white space around it, and a double must print with
   a point or an exponent.
   */
  predicate Recoverable(v: Value) {
    match v
    case Floating(d) => d.Finite? && !IntPart(d.text)
    case Json(x) => x != "" && IsOpener(x[0]) && IsCloser(x[|x| - 1])
    case _ => true
  }

  lemma ContainerEnds(t: Tree)
    requires Strict(t)
    ensures Text(t) != ""
    ensures t.Arr? || t.Obj? <==> IsOpener(Text(t)[0])
    ensures t.Arr? || t.Obj? ==> IsCloser(Text(t)[|Text(t)| - 1])
  {
    hide PiecesText, ItemsText, MembersText;
    if t.Number? { NumberIsNumeric(t.x); }
  }

  /** Raw JSON is recoverable exactly when it is a container and nothing else. */
  lemma RawRecoverable(it: Item)
    requires StrictItem(it)
    ensures Recoverable(Json(ItemText(it))) <==> (it.v.Arr? || it.v.Obj?) && Text(it.v) == ItemText(it)
    ensures Text(it.v) == ItemText(it) ==> it.post == ""
  {
    hide Text, Strict;
    var x := ItemText(it);
    ContainerEnds(it.v);
    if it.pre != "" {
      assert x[0] == it.pre[0] && In(it.pre[0], Space);
    }
    if it.post != "" {
      assert x[|x| - 1] == it.post[|it.post| - 1] && In(it.post[|it.post| - 1], Space);
    }
    if it.pre == "" && it.post == "" {
      assert x == Text(it.v);
    }
  }

  /** A number is a double exactly when it is more than an integer part. */
  lemma DoubleIsNoIntPart(x: string)
    requires IsRfcNumber(x)
    ensures IsDouble(x) <==> !IntPart(x)
  {
    hide FracPart, ExpPart;
    var a, b, c :| NumberParts(x, a, b, c);
    if b == "" && c == "" {
      assert x == a;
    } else {
      MarkInParts(a, b, c);
    }
    if IntPart(x) { IntPartIsNoDouble(x); }
  }

  lemma MarkInParts(a: string, b: string, c: string)
    requires FracPart(b) && ExpPart(c) && (b != "" || c != "")
    ensures IsDouble(a + b + c)
  {
    var x := a + b + c;
    if b != "" {
      assert x[|a|] == b[0];
    } else {
      assert x[|a|] == c[0];
    }
  }

  lemma IntPartIsNoDouble(x: string)
    requires IntPart(x)
    ensures !IsDouble(x)
  {
    forall k | 0 <= k < |x| ensures x[k] == '-' || IsDigit(x[k]) {
      if x[0] == '-' && k > 0 {
        assert In(x[1..][k - 1], Digit);
      } else if x[0] != '-' {
        assert In(x[k], Digit);
      }
    }
  }

  /** The text of an integer is an integer part. */
  lemma NoMarks(n: int)
    ensures IntPart(IntText(n)) && !IsDouble(IntText(n))
  {
    var x := IntText(n);
    NatTextLeads(Abs(n));
    assert n < 0 ==> x[1..] == NatText(-n);
    assert n >= 0 ==> In(x[0], Digit);
    ShortZero(Abs(n));
    IntPartIsNoDouble(x);
  }

  lemma ShortZero(n: nat)
    ensures NatText(n)[0] == '0' ==> |NatText(n)| == 1
  {
    NatTextLeads(n);
  }

  /** The value that a written value stands for is the value exactly when it is recoverable. */
  lemma ItemMeansValue(v: Value)
    requires Sendable(v)
    ensures ValueOf(ValueItem(v).v) == v <==> Recoverable(v)
    ensures Recoverable(v) ==> ValueItem(v).post == ""
  {
    hide IntText, Strtoll, IsDouble, IntPart, Strict, Recoverable, ItemText, StrictItem, IsFragment;
    match v {
      case Null => OtherRecoverable(v);
      case Bool(b) => OtherRecoverable(v);
      case Int64(n) =>
        OtherRecoverable(v);
        NoMarks(n);
        StrtollInverse(n);
      case Floating(d) =>
        OtherRecoverable(v);
        if d.Finite? { DoubleIsNoIntPart(d.text); }
      case String(x) =>
        OtherRecoverable(v);
        EscapeFaithful(x);
      case Json(x) => RawRecoverable(FragmentItem(x));
    }
  }

  lemma OtherRecoverable(v: Value)
    ensures !v.Floating? && !v.Json? ==> Recoverable(v)
    ensures v.Floating? ==> (Recoverable(v) <==> v.d.Finite? && !IntPart(v.d.text))
  {}

  /** read_value on a written item, wherever it stands before a delimiter. */
  lemma ReadItem(p: string, it: Item, q: string)
    requires StrictItem(it) && Delimited(q, 0)
    ensures ReadAt(p + ItemText(it) + q, |p|) == Some(Parsed(ValueOf(it.v), |p + it.pre + Text(it.v)|))
  {
    hide Text, Strict, AllIn, ParseValue, Run, ValueOf, ReadFrom, IsKeyword, Delimited;
    DelimitedGap(it.post, q);
    StrictExact(p, it.pre, it.v, it.post + q);
    assert p + it.pre + Text(it.v) + (it.post + q) == p + ItemText(it) + q;
    StrictHasKeywords(it.v);
    ReadIsValueOf(p + ItemText(it) + q, |p|);
  }

  lemma DelimitedGap(gap: string, q: string)
    requires AllIn(gap, Space) && Delimited(q, 0)
    ensures Delimited(gap + q, 0)
  {
    if gap == "" { assert gap + q == q; } else { assert (gap + q)[0] == gap[0]; }
  }

  /**
   Writing a value and reading it back, before any delimiter, gives the same value and stops
   at its last byte exactly when it is recoverable: every null, boolean, int64 and string,
   raw containers without white space around them, and doubles that print with a mark.
   */
  lemma ValueRoundTrip(p: string, v: Value, q: string)
    requires Sendable(v) && Delimited(q, 0)
    ensures ReadAt(p + ValueText(v) + q, |p|) == Some(Parsed(v, |p + ValueText(v)|)) <==> Recoverable(v)
  {
    hide Text, Strict, ReadAt, ValueOf, Recoverable, ValueText, Sendable, Delimited;
    var it := ValueItem(v);
    ValueItemText(v);
    ItemMeansValue(v);
    ReadItem(p, it, q);
  }

  /** A double such as 100.0 prints without a mark, and comes back as an integer. */
  lemma WholeDoubleComesBackAsInteger()
    ensures var v := Floating(Finite("100"));
            Sendable(v) && ValueText(v) == "100" && ReadAt("100", 0) == Some(Parsed(Int64(100), 3))
  {
    hide ReadAt, IntText, IsRfcNumber;
    HundredText();
    ValueRoundTrip("", Int64(100), "");
    assert "" + "100" + "" == "100";
  }

  lemma HundredText()
    ensures IntText(100) == "100" && IsRfcNumber("100")
  {
    hide IsRfcNumber;
    assert NatText(1) == "1";
    assert NatText(10) == NatText(1) + ['0'];
    assert NatText(100) == NatText(10) + ['0'];
    IntTreeStrict(100);
  }

  /** White space after raw JSON is sent, but does not come back. */
  lemma SpaceAroundRawIsLost()
    ensures Sendable(Json("[] ")) && ValueText(Json("[] ")) == "[] "
    ensures ReadAt("[] ", 0) == Some(Parsed(Json("[]"), 2))
  {
    var t := Arr("", []);
    var it := Item("", t, " ");
    assert Text(t) == "[]" && ItemText(it) == "[] ";
    assert Strict(t) && StrictItem(it);
    ReadItem("", it, "");
    assert "" + ItemText(it) + "" == "[] ";
  }

  // ---- Cells ----

  ghost predicate AllSendable(cells: seq<Cell>) {
    forall k :: 0 <= k < |cells| ==> Sendable(cells[k].value)
  }

  predicate AllRecoverable(cells: seq<Cell>) {
    forall k :: 0 <= k < |cells| ==> Recoverable(cells[k].value)
  }

  ghost function CellItems(cells: seq<Cell>): seq<Item>
    requires AllSendable(cells)
  {
    if cells == [] then []
    else [Entry(IntTree(cells[0].columnId)), ValueItem(cells[0].value)] + CellItems(cells[1..])
  }

  ghost function CellsTree(cells: seq<Cell>): Tree
    requires AllSendable(cells)
  {
    ArrTree(CellItems(cells))
  }

  lemma {:induction false} CellItemsTexts(cells: seq<Cell>)
    requires AllSendable(cells)
    ensures var items, parts := CellItems(cells), CellParts(cells);
            && |items| == |parts|
            && forall k :: 0 <= k < |items| ==> ItemText(items[k]) == parts[k] && StrictItem(items[k])
    decreases |cells|
  {
    hide ItemText, StrictItem, IntText, ValueText, ValueItem, Sendable;
    if cells != [] {
      CellItemsTexts(cells[1..]);
      IntTreeStrict(cells[0].columnId);
      EntryText(IntTree(cells[0].columnId));
      ValueItemText(cells[0].value);
    }
  }

  lemma CellsTreeText(cells: seq<Cell>)
    requires AllSendable(cells)
    ensures Text(CellsTree(cells)) == CellsText(cells) && Strict(CellsTree(cells))
  {
    hide ItemText, StrictItem, AllSendable;
    CellItemsTexts(cells);
    ItemsAreCommas(CellItems(cells), CellParts(cells));
    if CellItems(cells) == [] {
      assert Commas([]) == "";
    }
  }

  /** Reading the items of written cells never fails, and gives the cells if all are recoverable. */
  lemma {:induction false} CellsOfItems(cells: seq<Cell>)
    requires AllSendable(cells)
    ensures CellsOf(CellItems(cells)).Ok? && |CellsOf(CellItems(cells)).value| == |cells|
    ensures CellsOf(CellItems(cells)) == Ok(cells) <==> AllRecoverable(cells)
    decreases |cells|
  {
    hide IntText, ValueItem, ValueOf, Sendable, Recoverable, Strtoll;
    if cells != [] {
      var c, rest := cells[0], cells[1..];
      CellsOfItems(rest);
      var items := CellItems(cells);
      assert items[2..] == CellItems(rest);
      StrtollInverse(c.columnId);
      ItemMeansValue(c.value);
      assert [c] + rest == cells;
      var front := Cell(c.columnId, ValueOf(ValueItem(c.value).v));
      assert CellsOf(items) == Ok([front] + CellsOf(CellItems(rest)).value);
      HeadAndRest(front, CellsOf(CellItems(rest)).value, c, rest);
    }
  }

  lemma HeadAndRest(a: Cell, x: seq<Cell>, b: Cell, y: seq<Cell>)
    ensures [a] + x == [b] + y <==> a == b && x == y
  {
    if [a] + x == [b] + y {
      assert ([a] + x)[0] == a && ([b] + y)[0] == b;
      assert ([a] + x)[1..] == x && ([b] + y)[1..] == y;
    }
  }

  /**
   Cells round-trip in context exactly when every value is recoverable: the cells loop of
   query(), started on what json_cells wrote, then returns the same cells and stops right
   after the closing bracket.
   */
  lemma CellsRoundTrip(p: string, cells: seq<Cell>, q: string)
    requires AllSendable(cells)
    ensures CellArrayAt(p + CellsText(cells) + q, |p|) == Ok(Parsed(cells, |p| + |CellsText(cells)|))
            <==> AllRecoverable(cells)
  {
    hide At, Text, Strict, CellsText, AllSendable, AllRecoverable, CellItems, CellsAt, CellsOf, ParseItems, SkipWs,
         Lenient, AllKeywords;
    var t, s := CellsTree(cells), p + CellsText(cells) + q;
    var e := |p| + |CellsText(cells)|;
    CellsTreeText(cells);
    StrictIsLenient(t, |q|);
    AtContext(p, CellsText(cells), q);
    ContainerEnds(t);
    ValueExact(s, |p|, t, e);
    StartsIsKind(s, |p|, AnArray);
    ArrayAt(s, |p|);
    StrictHasKeywords(t);
    CellsOfItems(cells);
    if t.items == [] {
      NoItemsNoCells();
    } else {
      CellsAgree(s, |p| + 1);
    }
  }
}
