/** Exactly which batches have the same transaction body. */
module BatchIdentity {
  import opened Bytes
  import opened StringLaws
  import opened Numbers
  import opened Grammar
  import opened GrammarLaws
  import opened Values
  import opened Build
  import opened Fragments
  import opened Objects
  import opened Writers
  import opened TxnLaws
  import opened Batches

  // ---- Cells ----

  /** The same column ids, and values that are written alike. */
  predicate SameCells(cs: seq<Cell>, ds: seq<Cell>) {
    && |cs| == |ds|
    && forall k :: 0 <= k < |cs| ==>
         cs[k].columnId == ds[k].columnId && ValueText(cs[k].value) == ValueText(ds[k].value)
  }

  lemma {:induction false} CellPartsEqualIff(cs: seq<Cell>, ds: seq<Cell>)
    ensures |CellParts(cs)| == 2 * |cs|
    ensures CellParts(cs) == CellParts(ds) <==> SameCells(cs, ds)
    decreases |cs|
  {
    hide IntText, ValueText;
    if cs != [] && ds != [] {
      CellPartsEqualIff(cs[1..], ds[1..]);
      IntTextInjective(cs[0].columnId, ds[0].columnId);
      var xs, ys := CellParts(cs), CellParts(ds);
      assert xs[2..] == CellParts(cs[1..]) && ys[2..] == CellParts(ds[1..]);
      assert xs == [xs[0], xs[1]] + xs[2..] && ys == [ys[0], ys[1]] + ys[2..];
      SameCellsStep(cs, ds);
    } else if cs != [] {
      CellPartsEqualIff(cs[1..], []);
    }
  }

  lemma SameCellsStep(cs: seq<Cell>, ds: seq<Cell>)
    requires cs != [] && ds != []
    ensures SameCells(cs, ds)
            <==> && cs[0].columnId == ds[0].columnId && ValueText(cs[0].value) == ValueText(ds[0].value)
                 && SameCells(cs[1..], ds[1..])
  {
    hide ValueText;
    if SameCells(cs[1..], ds[1..]) && cs[0].columnId == ds[0].columnId
       && ValueText(cs[0].value) == ValueText(ds[0].value) {
      forall k | 0 <= k < |cs|
        ensures cs[k].columnId == ds[k].columnId && ValueText(cs[k].value) == ValueText(ds[k].value)
      {
        if k > 0 { assert cs[k] == cs[1..][k - 1] && ds[k] == ds[1..][k - 1]; }
      }
    }
  }

  lemma CellsAreFragments(cells: seq<Cell>)
    requires AllSendable(cells)
    ensures AllFragments(CellParts(cells)) && IsFragment(CellsText(cells))
  {
    hide ItemText, StrictItem, CellItems, CellParts, AllSendable;
    CellItemsTexts(cells);
    var items, parts := CellItems(cells), CellParts(cells);
    forall k | 0 <= k < |parts| ensures IsFragment(parts[k]) {
      ItemUnique(items[k]);
    }
    ListIsFragment(parts);
  }

  lemma CellsTextsEqualIff(cs: seq<Cell>, ds: seq<Cell>)
    requires AllSendable(cs) && AllSendable(ds)
    ensures CellsText(cs) == CellsText(ds) <==> SameCells(cs, ds)
  {
    hide CellParts, Commas, AllSendable, SameCells, IsFragment;
    CellsAreFragments(cs);
    CellsAreFragments(ds);
    CellPartsEqualIff(cs, ds);
    if CellsText(cs) == CellsText(ds) { ListInjective(CellParts(cs), CellParts(ds)); }
  }

  // ---- Operations ----

  function OpNames(): seq<string> {
    ["table"] + (["cells"] + (["update_cells"] + (["row_id"] + (["pk"] + (["returning"] + [])))))
  }

  predicate HasCells(op: Op) { op.kind == Put || op.kind == Upsert }

  function CellsPart(op: Op): Option<string> { if HasCells(op) then Some(CellsText(op.cells)) else None }

  function UpdatePart(op: Op): Option<string> {
    if op.kind == Upsert && op.updateCells != [] then Some(CellsText(op.updateCells)) else None
  }

  function RowIdPart(op: Op): Option<string> { if op.kind == Delete then Some(IntText(op.rowId)) else None }

  function PkPart(op: Op): Option<string> { if op.kind == DeleteByPk then Some(ValueText(op.pkValue)) else None }

  function ReturningPart(op: Op): Option<string> { if HasCells(op) then Some("false") else None }

  function OpParts(op: Op): (xs: seq<Option<string>>)
    ensures |xs| == 6
  {
    [Some(Quoted(op.table))] + ([CellsPart(op)] + ([UpdatePart(op)] + ([RowIdPart(op)] + ([PkPart(op)]
    + ([ReturningPart(op)] + [])))))
  }

  lemma OpNamesDiffer()
    ensures var t, c, u, r, p, g := "table", "cells", "update_cells", "row_id", "pk", "returning";
            && t != c && t != u && t != r && t != p && t != g && c != u && c != r && c != p && c != g
            && u != r && u != p && u != g && r != p && r != g && p != g
            && IsName(t) && IsName(c) && IsName(u) && IsName(r) && IsName(p) && IsName(g)
  {
    assert "table"[0] == 't' && "cells"[0] == 'c' && "update_cells"[0] == 'u' && "row_id"[0] == 'r' && "pk"[0] == 'p';
    assert |"row_id"| == 6 && |"returning"| == 9;
  }

  lemma OpNamesAreDistinct()
    ensures |OpNames()| == 6 && Distinct(OpNames())
  {
    OpNamesDiffer();
  }

  function InnerText(op: Op): string {
    var b := "{" + Key("table") + Quoted(op.table);
    var b := WithOption(b, "cells", CellsPart(op));
    var b := WithOption(b, "update_cells", UpdatePart(op));
    var b := WithOption(b, "row_id", RowIdPart(op));
    var b := WithOption(b, "pk", PkPart(op));
    WithOption(b, "returning", ReturningPart(op)) + "}"
  }

  lemma OpFromInner(op: Op)
    ensures OpText(op) == "{" + (Key(OpName(op.kind)) + InnerText(op)) + "}"
  {
    hide InnerText, OpText;
    match op.kind {
      case Put => PutFromInner(op);
      case Upsert => UpsertFromInner(op);
      case Delete => DeleteFromInner(op);
      case DeleteByPk => PkFromInner(op);
    }
  }

  lemma PutFromInner(op: Op)
    requires op.kind == Put
    ensures OpText(op) == "{" + (Key(OpName(op.kind)) + InnerText(op)) + "}"
  {
    hide Key, Quoted, CellsText;
    PutShape(Key("put"), Key("table"), Quoted(op.table), Key("cells"), CellsText(op.cells), Key("returning"));
  }

  lemma PutShape(t: string, k: string, q: string, c: string, d: string, g: string)
    ensures "{" + t + "{" + k + q + "," + c + d + "," + g + "false" + "}" + "}"
            == "{" + (t + ("{" + k + q + "," + c + d + "," + g + "false" + "}")) + "}"
  {}

  lemma UpsertFromInner(op: Op)
    requires op.kind == Upsert
    ensures OpText(op) == "{" + (Key(OpName(op.kind)) + InnerText(op)) + "}"
  {
    hide Key, Quoted, CellsText;
    if op.updateCells == [] {
      UpsertShape(Key("upsert"), Key("table"), Quoted(op.table), Key("cells"), CellsText(op.cells), Key("returning"));
    } else {
      UpdateShape(Key("upsert"), Key("table"), Quoted(op.table), Key("cells"), CellsText(op.cells),
                  Key("update_cells"), CellsText(op.updateCells), Key("returning"));
    }
  }

  lemma UpsertShape(t: string, k: string, q: string, c: string, d: string, g: string)
    ensures "{" + t + "{" + k + q + "," + c + d + "" + "," + g + "false" + "}" + "}"
            == "{" + (t + ("{" + k + q + "," + c + d + "," + g + "false" + "}")) + "}"
  {}

  lemma UpdateShape(t: string, k: string, q: string, c: string, d: string, u: string, e: string, g: string)
    ensures "{" + t + "{" + k + q + "," + c + d + ("," + u + e) + "," + g + "false" + "}" + "}"
            == "{" + (t + ("{" + k + q + "," + c + d + "," + u + e + "," + g + "false" + "}")) + "}"
  {}

  lemma DeleteFromInner(op: Op)
    requires op.kind == Delete
    ensures OpText(op) == "{" + (Key(OpName(op.kind)) + InnerText(op)) + "}"
  {
    hide Key, Quoted, IntText;
    KeyShape(Key("delete"), Key("table"), Quoted(op.table), Key("row_id"), IntText(op.rowId));
  }

  lemma PkFromInner(op: Op)
    requires op.kind == DeleteByPk
    ensures OpText(op) == "{" + (Key(OpName(op.kind)) + InnerText(op)) + "}"
  {
    hide Key, Quoted, ValueText;
    KeyShape(Key("delete_by_pk"), Key("table"), Quoted(op.table), Key("pk"), ValueText(op.pkValue));
  }

  lemma KeyShape(t: string, k: string, q: string, c: string, d: string)
    ensures "{" + t + "{" + k + q + "," + c + d + "}" + "}" == "{" + (t + ("{" + k + q + "," + c + d + "}")) + "}"
  {}

  lemma InnerIsBuilt(op: Op)
    ensures |OpNames()| == 6 && InnerText(op) == ObjectText(Select(OpNames(), OpParts(op)))
  {
    hide Key, Quoted, Chain, Select, ObjectText, CellsPart, UpdatePart, RowIdPart, PkPart, ReturningPart, WithOption;
    var c, u, r, p, g := CellsPart(op), UpdatePart(op), RowIdPart(op), PkPart(op), ReturningPart(op);
    var ns5, xs5 := ["returning"] + [], [g] + [];
    var ns4, xs4 := ["pk"] + ns5, [p] + xs5;
    var ns3, xs3 := ["row_id"] + ns4, [r] + xs4;
    var ns2, xs2 := ["update_cells"] + ns3, [u] + xs3;
    var ns1, xs1 := ["cells"] + ns2, [c] + xs2;
    var b := "{" + Key("table") + Quoted(op.table);
    ChainIsObject("table", Quoted(op.table), ns1, xs1);
    ChainStep(b, "cells", ns2, c, xs2);
    b := WithOption(b, "cells", c);
    ChainStep(b, "update_cells", ns3, u, xs3);
    b := WithOption(b, "update_cells", u);
    ChainStep(b, "row_id", ns4, r, xs4);
    b := WithOption(b, "row_id", r);
    ChainStep(b, "pk", ns5, p, xs5);
    b := WithOption(b, "pk", p);
    ChainStep(b, "returning", [], g, []);
    b := WithOption(b, "returning", g);
    ChainEnds(b);
  }

  lemma InnerIsWritable(op: Op)
    requires SendableOp(op)
    ensures |OpNames()| == 6 && AllWritable(OpNames(), OpParts(op)) && IsFragment(InnerText(op))
  {
    hide Quoted, IntText, ValueText, CellsText, IsName, IsFragment, AllWritable, InnerText, ObjectText, Select,
         AllSendable, Sendable, Writable, Text, Strict;
    OpNamesDiffer();
    QuotedIsFragment(op.table);
    if HasCells(op) { CellsAreFragments(op.cells); }
    if op.kind == Upsert { CellsAreFragments(op.updateCells); }
    IntIsFragment(op.rowId);
    if op.kind == DeleteByPk { ValueIsFragment(op.pkValue); }
    FalseIsFragment();
    var c, u, r, p, g := CellsPart(op), UpdatePart(op), RowIdPart(op), PkPart(op), ReturningPart(op);
    var ns5, xs5 := ["returning"] + [], [g] + [];
    var ns4, xs4 := ["pk"] + ns5, [p] + xs5;
    var ns3, xs3 := ["row_id"] + ns4, [r] + xs4;
    var ns2, xs2 := ["update_cells"] + ns3, [u] + xs3;
    var ns1, xs1 := ["cells"] + ns2, [c] + xs2;
    NothingWritable();
    WritableStep("returning", [], g, []);
    WritableStep("pk", ns5, p, xs5);
    WritableStep("row_id", ns4, r, xs4);
    WritableStep("update_cells", ns3, u, xs3);
    WritableStep("cells", ns2, c, xs2);
    WritableStep("table", ns1, Some(Quoted(op.table)), xs1);
    InnerIsBuilt(op);
    SelectWritable(OpNames(), OpParts(op));
    var ps := Select(OpNames(), OpParts(op));
    ObjectIsWritten(ps);
    FragmentUnique(ObjTree(PairMembers(ps)));
  }

  lemma ValueIsFragment(v: Value)
    requires Sendable(v)
    ensures IsFragment(ValueText(v))
  {
    hide ItemText, StrictItem, IsFragment, Sendable, ValueText;
    ValueItemText(v);
    ItemUnique(ValueItem(v));
  }

  lemma FalseIsFragment()
    ensures IsFragment("false")
  {
    hide IsFragment;
    BoolIsFragment(false);
  }

  /** The same kind and table, and what the kind sends. */
  predicate SameOp(a: Op, b: Op) {
    && a.kind == b.kind && a.table == b.table
    && (HasCells(a) ==> SameCells(a.cells, b.cells))
    && (a.kind == Upsert ==> SameCells(a.updateCells, b.updateCells))
    && (a.kind == Delete ==> a.rowId == b.rowId)
    && (a.kind == DeleteByPk ==> ValueText(a.pkValue) == ValueText(b.pkValue))
  }

  lemma OpPartsEqualIff(a: Op, b: Op)
    requires SendableOp(a) && SendableOp(b) && a.kind == b.kind
    ensures OpParts(a) == OpParts(b) <==> SameOp(a, b)
  {
    hide Quoted, IntText, ValueText, CellsText, SameCells, AllSendable, Sendable;
    QuotedInjective(a.table, b.table);
    if HasCells(a) { CellsTextsEqualIff(a.cells, b.cells); }
    if a.kind == Upsert { UpdatesEqualIff(a, b); }
    IntTextInjective(a.rowId, b.rowId);
    var xs, ys := OpParts(a), OpParts(b);
    assert xs == ys <==> xs[0] == ys[0] && xs[1] == ys[1] && xs[2] == ys[2] && xs[3] == ys[3] && xs[4] == ys[4]
                         && xs[5] == ys[5];
  }

  lemma UpdatesEqualIff(a: Op, b: Op)
    requires SendableOp(a) && SendableOp(b) && a.kind == b.kind == Upsert
    ensures UpdatePart(a) == UpdatePart(b) <==> SameCells(a.updateCells, b.updateCells)
  {
    hide CellsText, AllSendable;
    CellsTextsEqualIff(a.updateCells, b.updateCells);
  }

  lemma OnePair(name: string, x: string)
    ensures ObjectText([Pair(name, x)]) == "{" + (Key(name) + x) + "}"
  {
    hide Key;
    assert PairTexts([Pair(name, x)]) == [Key(name) + x];
  }

  lemma OuterInjective(name: string, x: string, name': string, y: string)
    requires IsName(name) && IsName(name') && IsFragment(x) && IsFragment(y)
    requires "{" + (Key(name) + x) + "}" == "{" + (Key(name') + y) + "}"
    ensures name == name' && x == y
  {
    hide Key, IsName, IsFragment;
    var ps, qs := [Pair(name, x)], [Pair(name', y)];
    OnePair(name, x);
    OnePair(name', y);
    ObjectInjective(ps, qs);
    assert ps[0] == qs[0];
  }

  /** Two operations have the same text if and only if they agree on what their kind sends. */
  lemma OpTextsEqualIff(a: Op, b: Op)
    requires SendableOp(a) && SendableOp(b)
    ensures OpText(a) == OpText(b) <==> SameOp(a, b)
  {
    hide OpText, InnerText, ObjectText, Select, OpParts, OpNames, SameCells, AllWritable, Distinct, SendableOp, Key,
         IsName, IsFragment, OpName;
    OpFromInner(a);
    OpFromInner(b);
    InnerIsBuilt(a);
    InnerIsBuilt(b);
    InnerIsWritable(a);
    InnerIsWritable(b);
    OpNamesAreDistinct();
    NamesDiffer();
    if a.kind == b.kind { OpPartsEqualIff(a, b); }
    if OpText(a) == OpText(b) {
      OuterInjective(OpName(a.kind), InnerText(a), OpName(b.kind), InnerText(b));
      BuiltInjective(OpNames(), OpParts(a), OpParts(b));
    }
  }

  // ---- Bodies ----

  predicate SameOps(a: seq<Op>, b: seq<Op>) {
    |a| == |b| && forall k :: 0 <= k < |a| ==> SameOp(a[k], b[k])
  }

  lemma OpListsEqualIff(a: seq<Op>, b: seq<Op>)
    requires AllSendableOps(a) && AllSendableOps(b)
    ensures AllFragments(OpTexts(a)) && AllFragments(OpTexts(b))
    ensures OpTexts(a) == OpTexts(b) <==> SameOps(a, b)
  {
    hide OpText, SameOp, SendableOp, IsFragment;
    forall k | 0 <= k < |a| ensures IsFragment(OpTexts(a)[k]) { OpIsFragment(a[k]); }
    forall k | 0 <= k < |b| ensures IsFragment(OpTexts(b)[k]) { OpIsFragment(b[k]); }
    if |a| == |b| {
      forall k | 0 <= k < |a| ensures OpTexts(a)[k] == OpTexts(b)[k] <==> SameOp(a[k], b[k]) {
        OpTextsEqualIff(a[k], b[k]);
      }
    }
  }

  lemma OpIsFragment(op: Op)
    requires SendableOp(op)
    ensures IsFragment(OpText(op))
  {
    hide OpText, OpTree, Text, Strict, IsFragment, SendableOp;
    OpTreeText(op);
    FragmentUnique(OpTree(op));
  }

  function KeyPart(x: string): Option<string> { if x != "" then Some(Quoted(x)) else None }

  function TxnNames(): seq<string> { ["ops"] + (["idempotency_key"] + []) }

  function TxnParts(ops: seq<Op>, idempotencyKey: string): (xs: seq<Option<string>>)
    ensures |xs| == 2
  {
    [Some("[" + Commas(OpTexts(ops)) + "]")] + ([KeyPart(idempotencyKey)] + [])
  }

  lemma TxnIsBuilt(ops: seq<Op>, idempotencyKey: string)
    ensures |TxnNames()| == 2
    ensures TxnBody(ops, idempotencyKey) == ObjectText(Select(TxnNames(), TxnParts(ops, idempotencyKey)))
  {
    hide Key, Quoted, Commas, OpTexts, Chain, Select, ObjectText;
    var list, k := "[" + Commas(OpTexts(ops)) + "]", KeyPart(idempotencyKey);
    var ns1, xs1 := ["idempotency_key"] + [], [k] + [];
    var b := "{" + Key("ops") + list;
    ChainIsObject("ops", list, ns1, xs1);
    ChainStep(b, "idempotency_key", [], k, []);
    b := WithOption(b, "idempotency_key", k);
    ChainEnds(b);
    TxnFromParts(ops, idempotencyKey);
  }

  lemma TxnFromParts(ops: seq<Op>, idempotencyKey: string)
    ensures TxnBody(ops, idempotencyKey)
            == WithOption("{" + Key("ops") + ("[" + Commas(OpTexts(ops)) + "]"), "idempotency_key",
                          KeyPart(idempotencyKey)) + "}"
  {
    hide Key, Quoted, Commas, OpTexts;
    var a := "{" + Key("ops") + "[" + Commas(OpTexts(ops)) + "]";
    assert a == "{" + Key("ops") + ("[" + Commas(OpTexts(ops)) + "]");
    if idempotencyKey != "" {
      assert a + ("," + Key("idempotency_key") + Quoted(idempotencyKey))
          == a + "," + Key("idempotency_key") + Quoted(idempotencyKey);
    } else {
      assert a + "" == a;
    }
  }

  lemma TxnIsWritable(ops: seq<Op>, idempotencyKey: string)
    requires AllSendableOps(ops)
    ensures |TxnNames()| == 2 && AllWritable(TxnNames(), TxnParts(ops, idempotencyKey)) && Distinct(TxnNames())
  {
    hide Quoted, Commas, OpTexts, IsName, IsFragment, AllWritable, AllSendableOps;
    BatchNames();
    NamesDiffer();
    OpListsEqualIff(ops, ops);
    ListIsFragment(OpTexts(ops));
    QuotedIsFragment(idempotencyKey);
    var list, k := "[" + Commas(OpTexts(ops)) + "]", KeyPart(idempotencyKey);
    var ns1, xs1 := ["idempotency_key"] + [], [k] + [];
    NothingWritable();
    WritableStep("idempotency_key", [], k, []);
    WritableStep("ops", ns1, Some(list), xs1);
  }

  lemma TxnPartsEqualIff(a: seq<Op>, keyA: string, b: seq<Op>, keyB: string)
    requires AllSendableOps(a) && AllSendableOps(b)
    ensures TxnParts(a, keyA) == TxnParts(b, keyB) <==> SameOps(a, b) && keyA == keyB
  {
    hide Quoted, Commas, OpTexts, IsFragment, SameOps, AllSendableOps;
    OpListsEqualIff(a, b);
    QuotedInjective(keyA, keyB);
    var xs, ys := TxnParts(a, keyA), TxnParts(b, keyB);
    assert xs == ys <==> xs[0] == ys[0] && xs[1] == ys[1];
    if xs[0] == ys[0] { ListInjective(OpTexts(a), OpTexts(b)); }
  }

  /**
   Two batches of any sendable values have the same body if and only if they have the same
   key and the same operations in order, values being compared by what is written for them.
   */
  lemma TxnBodiesEqualIff(a: seq<Op>, keyA: string, b: seq<Op>, keyB: string)
    requires AllSendableOps(a) && AllSendableOps(b)
    ensures TxnBody(a, keyA) == TxnBody(b, keyB) <==> SameOps(a, b) && keyA == keyB
  {
    hide TxnBody, ObjectText, Select, TxnParts, TxnNames, SameOps, AllWritable, Distinct, AllSendableOps;
    TxnIsBuilt(a, keyA);
    TxnIsBuilt(b, keyB);
    TxnIsWritable(a, keyA);
    TxnIsWritable(b, keyB);
    TxnPartsEqualIff(a, keyA, b, keyB);
    if TxnBody(a, keyA) == TxnBody(b, keyB) { BuiltInjective(TxnNames(), TxnParts(a, keyA), TxnParts(b, keyB)); }
  }

  // ---- Values that are written alike ----

  /** On legible values, being written alike is being equal. */
  lemma LegibleTextsEqualIff(v: Value, w: Value)
    requires Sendable(v) && Sendable(w) && Legible(v) && Legible(w)
    ensures ValueText(v) == ValueText(w) <==> v == w
  {
    hide ItemText, StrictItem, IsFragment, Sendable, Legible, ValueText, SentValue;
    ValueItemText(v);
    ValueItemText(w);
    ItemUnique(ValueItem(v));
    ItemUnique(ValueItem(w));
    SentValueRecovered(v);
    SentValueRecovered(w);
  }

  function PutOf(v: Value): Op { Op(Put, "t", [Cell(1, v)], [], 0, Null) }

  /** A double that prints as an integer and that integer are different batches with one body. */
  lemma DoubleAndIntegerAreSentAlike(idempotencyKey: string)
    ensures var a, b := [PutOf(Floating(Finite("100")))], [PutOf(Int64(100))];
            AllSendableOps(a) && AllSendableOps(b) && a != b && TxnBody(a, idempotencyKey) == TxnBody(b, idempotencyKey)
  {
    hide TxnBody, IntText, IsRfcNumber;
    HundredText();
    var v, w := Floating(Finite("100")), Int64(100);
    assert ValueText(v) == ValueText(w);
    assert PutOf(v).cells != PutOf(w).cells by { assert PutOf(v).cells[0] != PutOf(w).cells[0]; }
    TxnBodiesEqualIff([PutOf(v)], idempotencyKey, [PutOf(w)], idempotencyKey);
  }
}
