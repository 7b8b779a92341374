/** The JSON writers and the transaction body built from them. */
module Writers {
  import opened Bytes
  import opened StringLaws
  import opened Numbers
  import opened Values
  import opened Build

  lemma {:induction false} EscapeAppend(a: string, b: string)
    ensures EscapeAll(a + b) == EscapeAll(a) + EscapeAll(b)
    decreases |a|
  {
    hide EscapeChar;
    if a == "" {
      assert a + b == b;
    } else {
      EscapeAppend(a[1..], b);
      assert (a + b)[1..] == a[1..] + b;
    }
  }

  lemma EscapeNext(x: string, k: nat)
    requires k < |x|
    ensures EscapeAll(x[..k + 1]) == EscapeAll(x[..k]) + EscapeChar(x[k])
  {
    hide EscapeChar;
    EscapeAppend(x[..k], [x[k]]);
    assert x[..k + 1] == x[..k] + [x[k]];
    assert [x[k]][1..] == "";
  }

  method JsonEscape(out: string, x: string) returns (r: string)
    ensures r == out + Quoted(x)
  {
    hide EscapeChar;
    r := out + "\"";
    ghost var done := "";
    var k := 0;
    while k < |x|
      invariant 0 <= k <= |x| && done == EscapeAll(x[..k])
      invariant r == out + "\"" + done
    {
      EscapeNext(x, k);
      var e := EscapeOne(x[k]);
      r := r + e;
      done := done + e;
      k := k + 1;
    }
    assert x[..|x|] == x;
    r := r + "\"";
    assert out + "\"" + done + "\"" == out + ("\"" + done + "\"");
  }

  /** The switch of json_escape. */
  method EscapeOne(c: char) returns (e: string)
    ensures e == EscapeChar(c)
  {
    match c {
      case '"' => e := "\\\"";
      case '\\' => e := "\\\\";
      case '\n' => e := "\\n";
      case '\r' => e := "\\r";
      case '\t' => e := "\\t";
      case _ =>
        if c == 8 as char {
          e := "\\b";
        } else if c == 12 as char {
          e := "\\f";
        } else if c as int < 0x20 {
          e := "\\u00" + [LowerHexDigit(c as int / 16), LowerHexDigit(c as int % 16)];
        } else {
          e := [c];
        }
    }
  }

  // ---- Values and cells ----

  function ValueText(v: Value): string {
    match v
    case Null => "null"
    case Bool(b) => if b then "true" else "false"
    case Int64(n) => IntText(n)
    case Floating(d) => if d.Finite? then d.text else "null"
    case String(x) => Quoted(x)
    case Json(x) => x
  }

  method JsonValue(out: string, v: Value) returns (r: string)
    ensures r == out + ValueText(v)
  {
    match v {
      case Null => r := out + "null";
      case Bool(b) => r := out + (if b then "true" else "false");
      case Int64(n) => r := out + IntText(n);
      case Floating(d) =>
        if d.NotFinite? {
          r := out + "null";
        } else {
          r := out + d.text;
        }
      case String(x) => r := JsonEscape(out, x);
      case Json(x) => r := out + x;
    }
  }

  function CellParts(cells: seq<Cell>): seq<string> {
    if cells == [] then []
    else [IntText(cells[0].columnId), ValueText(cells[0].value)] + CellParts(cells[1..])
  }

  /** What json_cells appends. */
  function CellsText(cells: seq<Cell>): string {
    "[" + Commas(CellParts(cells)) + "]"
  }

  lemma {:induction false} CellPartsAppend(cells: seq<Cell>, c: Cell)
    ensures CellParts(cells + [c]) == CellParts(cells) + [IntText(c.columnId)] + [ValueText(c.value)]
    decreases |cells|
  {
    hide IntText, ValueText;
    if cells == [] {
      assert [c][1..] == [];
    } else {
      assert (cells + [c])[1..] == cells[1..] + [c];
      CellPartsAppend(cells[1..], c);
    }
  }

  lemma CellsNext(cells: seq<Cell>, k: nat)
    requires k < |cells|
    ensures var c, before := cells[k], Commas(CellParts(cells[..k]));
            Commas(CellParts(cells[..k + 1]))
            == (if k > 0 then before + "," else "") + IntText(c.columnId) + "," + ValueText(c.value)
  {
    hide IntText, ValueText, Commas;
    var c, parts := cells[k], CellParts(cells[..k]);
    assert cells[..k + 1] == cells[..k] + [c];
    CellPartsAppend(cells[..k], c);
    CommasAppend(parts, IntText(c.columnId));
    CommasAppend(parts + [IntText(c.columnId)], ValueText(c.value));
    CellPartsEmpty(cells[..k]);
    assert "" + IntText(c.columnId) == IntText(c.columnId);
  }

  lemma CellPartsEmpty(cells: seq<Cell>)
    ensures CellParts(cells) == [] <==> cells == []
  {}

  method JsonCells(out: string, cells: seq<Cell>) returns (r: string)
    ensures r == out + CellsText(cells)
  {
    hide IntText, ValueText;
    r := out + "[";
    ghost var done := "";
    var k := 0;
    while k < |cells|
      invariant 0 <= k <= |cells| && done == Commas(CellParts(cells[..k]))
      invariant r == out + "[" + done
      invariant k == 0 ==> done == ""
    {
      CellsNext(cells, k);
      if k > 0 {
        r := r + ",";
      }
      r := r + IntText(cells[k].columnId);
      r := r + ",";
      r := JsonValue(r, cells[k].value);
      done := Commas(CellParts(cells[..k + 1]));
      k := k + 1;
    }
    assert cells[..|cells|] == cells;
    r := r + "]";
    assert out + "[" + done + "]" == out + ("[" + done + "]");
  }

  // ---- Transactions ----

  datatype OpType = Put | Upsert | Delete | DeleteByPk

  /** A staged operation; the fields its type does not use are ignored. */
  datatype Op = Op(
    kind: OpType,
    table: string,
    cells: seq<Cell>,
    updateCells: seq<Cell>,
    rowId: int64,
    pkValue: Value)

  function OpText(op: Op): string {
    match op.kind
    case Put =>
      "{" + Key("put") + "{" + Key("table") + Quoted(op.table) + "," + Key("cells") + CellsText(op.cells)
      + "," + Key("returning") + "false" + "}" + "}"
    case Upsert =>
      "{" + Key("upsert") + "{" + Key("table") + Quoted(op.table) + "," + Key("cells") + CellsText(op.cells)
      + (if op.updateCells != [] then "," + Key("update_cells") + CellsText(op.updateCells) else "")
      + "," + Key("returning") + "false" + "}" + "}"
    case Delete =>
      "{" + Key("delete") + "{" + Key("table") + Quoted(op.table) + "," + Key("row_id") + IntText(op.rowId)
      + "}" + "}"
    case DeleteByPk =>
      "{" + Key("delete_by_pk") + "{" + Key("table") + Quoted(op.table) + "," + Key("pk") + ValueText(op.pkValue)
      + "}" + "}"
  }

  function OpTexts(ops: seq<Op>): seq<string> {
    seq(|ops|, k requires 0 <= k < |ops| => OpText(ops[k]))
  }

  /** The body commit() posts for a non-empty batch. */
  function TxnBody(ops: seq<Op>, idempotencyKey: string): string {
    "{" + Key("ops") + "[" + Commas(OpTexts(ops)) + "]"
    + (if idempotencyKey != "" then "," + Key("idempotency_key") + Quoted(idempotencyKey) else "") + "}"
  }

  method WriteOp(out: string, op: Op) returns (body: string)
    ensures body == out + OpText(op)
  {
    hide Key, Quoted, CellsText, ValueText, IntText;
    body := "{";
    match op.kind {
      case Put =>
        body := body + Key("put") + "{" + Key("table");
        body := JsonEscape(body, op.table);
        body := body + "," + Key("cells");
        body := JsonCells(body, op.cells);
        body := body + "," + Key("returning") + "false" + "}";
      case Upsert =>
        body := body + Key("upsert") + "{" + Key("table");
        body := JsonEscape(body, op.table);
        body := body + "," + Key("cells");
        body := JsonCells(body, op.cells);
        if op.updateCells != [] {
          ghost var before := body;
          body := body + "," + Key("update_cells");
          body := JsonCells(body, op.updateCells);
          assert body == before + ("," + Key("update_cells") + CellsText(op.updateCells));
        } else {
          assert body + "" == body;
        }
        body := body + "," + Key("returning") + "false" + "}";
      case Delete =>
        body := body + Key("delete") + "{" + Key("table");
        body := JsonEscape(body, op.table);
        body := body + "," + Key("row_id");
        body := body + IntText(op.rowId);
        body := body + "}";
      case DeleteByPk =>
        body := body + Key("delete_by_pk") + "{" + Key("table");
        body := JsonEscape(body, op.table);
        body := body + "," + Key("pk");
        body := JsonValue(body, op.pkValue);
        body := body + "}";
    }
    body := body + "}";
    body := out + body;
  }

  /** The body commit() posts; None for an empty batch, which sends nothing. */
  method BuildTxn(ops: seq<Op>, idempotencyKey: string) returns (r: Option<string>)
    ensures r == if ops == [] then None else Some(TxnBody(ops, idempotencyKey))
  {
    hide Key, OpText, Quoted;
    if ops == [] {
      return None;
    }
    ghost var head := "{" + Key("ops") + "[";
    var body := "{" + Key("ops") + "[";
    ghost var done := "";
    var k := 0;
    while k < |ops|
      invariant 0 <= k <= |ops| && done == Commas(OpTexts(ops[..k]))
      invariant body == head + done
      invariant k == 0 ==> done == ""
    {
      assert OpTexts(ops[..k + 1]) == OpTexts(ops[..k]) + [OpText(ops[k])];
      CommasAppend(OpTexts(ops[..k]), OpText(ops[k]));
      if k > 0 {
        body := body + ",";
      }
      body := WriteOp(body, ops[k]);
      done := Commas(OpTexts(ops[..k + 1]));
      k := k + 1;
    }
    assert ops[..|ops|] == ops;
    body := body + "]";
    if idempotencyKey != "" {
      ghost var before := body;
      body := body + "," + Key("idempotency_key");
      body := JsonEscape(body, idempotencyKey);
      assert body == before + ("," + Key("idempotency_key") + Quoted(idempotencyKey));
    } else {
      assert body + "" == body;
    }
    body := body + "}";
    return Some(body);
  }
}
