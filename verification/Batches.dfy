/** A transaction body determines its batch: decoding it as a document recovers every operation. */
module Batches {
  import opened Bytes
  import opened Strings
  import opened StringLaws
  import opened Numbers
  import opened Grammar
  import opened GrammarLaws
  import opened Values
  import opened Lookup
  import opened Fields
  import opened Build
  import opened Fragments
  import opened Writers
  import opened TxnLaws

  // ---- The document of a batch ----

  ghost predicate SendableOp(op: Op) {
    match op.kind
    case Put => AllSendable(op.cells)
    case Upsert => AllSendable(op.cells) && AllSendable(op.updateCells)
    case Delete => true
    case DeleteByPk => Sendable(op.pkValue)
  }

  function OpName(kind: OpType): (name: string)
    ensures IsName(name)
  {
    match kind
    case Put => "put"
    case Upsert => "upsert"
    case Delete => "delete"
    case DeleteByPk => "delete_by_pk"
  }

  ghost function OpMembers(op: Op): seq<Member>
    requires SendableOp(op)
  {
    match op.kind
    case Put =>
      [Field("table", StrTree(op.table))] + [Field("cells", CellsTree(op.cells))]
      + [Field("returning", BoolTree(false))]
    case Upsert =>
      [Field("table", StrTree(op.table))] + [Field("cells", CellsTree(op.cells))]
      + (if op.updateCells != [] then [Field("update_cells", CellsTree(op.updateCells))] else [])
      + [Field("returning", BoolTree(false))]
    case Delete => [Field("table", StrTree(op.table))] + [Field("row_id", IntTree(op.rowId))]
    case DeleteByPk => [Field("table", StrTree(op.table))] + [FieldOf("pk", ValueItem(op.pkValue))]
  }

  ghost function OpTree(op: Op): Tree
    requires SendableOp(op)
  {
    ObjTree([Field(OpName(op.kind), ObjTree(OpMembers(op)))])
  }

  lemma OpTreeText(op: Op)
    requires SendableOp(op)
    ensures Text(OpTree(op)) == OpText(op) && Strict(OpTree(op))
  {
    hide Key, Text, Strict, Holds, Quoted, CellsText, ValueText, IntText, CellsTree, ValueItem, StrTree, IntTree, Field,
         FieldOf;
    var name := OpName(op.kind);
    var prefix := "{" + Key(name) + "{";
    StrTreeText(op.table);
    Start(prefix, "table", StrTree(op.table));
    var b := prefix + Key("table") + Quoted(op.table);
    var ms := [Field("table", StrTree(op.table))];
    match op.kind {
      case Put =>
        b, ms := WithCells(b, prefix, ms, "cells", op.cells);
        b, ms := WithReturning(b, prefix, ms);
      case Upsert =>
        b, ms := WithCells(b, prefix, ms, "cells", op.cells);
        if op.updateCells != [] {
          ghost var before := b;
          b, ms := WithCells(b, prefix, ms, "update_cells", op.updateCells);
          assert b == before + ("," + Key("update_cells") + CellsText(op.updateCells));
        } else {
          assert b + "" == b && ms + [] == ms;
        }
        b, ms := WithReturning(b, prefix, ms);
      case Delete =>
        IntTreeStrict(op.rowId);
        Grow(b, prefix, ms, "row_id", IntTree(op.rowId));
        b, ms := b + "," + Key("row_id") + IntText(op.rowId), ms + [Field("row_id", IntTree(op.rowId))];
      case DeleteByPk =>
        ValueItemText(op.pkValue);
        GrowItem(b, prefix, ms, "pk", ValueItem(op.pkValue));
        b, ms := b + "," + Key("pk") + ValueText(op.pkValue), ms + [FieldOf("pk", ValueItem(op.pkValue))];
    }
    WrapText(name, b, ms);
  }

  lemma WithCells(b: string, prefix: string, ms: seq<Member>, name: string, cells: seq<Cell>)
    returns (b': string, ms': seq<Member>)
    requires Holds(b, prefix, ms) && IsName(name) && AllSendable(cells)
    ensures b' == b + "," + Key(name) + CellsText(cells)
    ensures ms' == ms + [Field(name, CellsTree(cells))]
    ensures Holds(b', prefix, ms')
  {
    hide Key, Text, Strict, Holds, CellsText, CellsTree, Field;
    CellsTreeText(cells);
    Grow(b, prefix, ms, name, CellsTree(cells));
    b', ms' := b + "," + Key(name) + CellsText(cells), ms + [Field(name, CellsTree(cells))];
  }

  lemma WithReturning(b: string, prefix: string, ms: seq<Member>) returns (b': string, ms': seq<Member>)
    requires Holds(b, prefix, ms)
    ensures b' == b + "," + Key("returning") + "false"
    ensures ms' == ms + [Field("returning", BoolTree(false))]
    ensures Holds(b', prefix, ms')
  {
    hide Key, Holds, Field;
    Grow(b, prefix, ms, "returning", BoolTree(false));
    b', ms' := b + "," + Key("returning") + "false", ms + [Field("returning", BoolTree(false))];
  }

  ghost predicate AllSendableOps(ops: seq<Op>) {
    forall k :: 0 <= k < |ops| ==> SendableOp(ops[k])
  }

  ghost function OpItems(ops: seq<Op>): (items: seq<Item>)
    requires AllSendableOps(ops)
    ensures |items| == |ops| && forall k :: 0 <= k < |ops| ==> items[k] == Entry(OpTree(ops[k]))
  {
    seq(|ops|, k requires 0 <= k < |ops| => Entry(OpTree(ops[k])))
  }

  ghost function TxnMembers(ops: seq<Op>, idempotencyKey: string): seq<Member>
    requires AllSendableOps(ops)
  {
    [Field("ops", ArrTree(OpItems(ops)))]
    + (if idempotencyKey != "" then [Field("idempotency_key", StrTree(idempotencyKey))] else [])
  }

  ghost function TxnTree(ops: seq<Op>, idempotencyKey: string): Tree
    requires AllSendableOps(ops)
  {
    ObjTree(TxnMembers(ops, idempotencyKey))
  }

  lemma OpListText(ops: seq<Op>)
    requires AllSendableOps(ops)
    ensures Text(ArrTree(OpItems(ops))) == "[" + Commas(OpTexts(ops)) + "]" && Strict(ArrTree(OpItems(ops)))
  {
    hide OpText, OpTree, ItemText, StrictItem, SendableOp;
    var items, parts := OpItems(ops), OpTexts(ops);
    forall k | 0 <= k < |ops| ensures ItemText(items[k]) == parts[k] && StrictItem(items[k]) {
      OpTreeText(ops[k]);
      EntryText(OpTree(ops[k]));
    }
    ItemsAreCommas(items, parts);
    assert items == [] ==> Commas(parts) == "";
  }

  lemma BatchNames()
    ensures IsName("ops") && IsName("idempotency_key")
  {}

  /** Every transaction body is a complete RFC 8259 object, for all names and values. */
  lemma TxnTreeText(ops: seq<Op>, idempotencyKey: string)
    requires AllSendableOps(ops)
    ensures Text(TxnTree(ops, idempotencyKey)) == TxnBody(ops, idempotencyKey)
    ensures Strict(TxnTree(ops, idempotencyKey)) && IsWhole(TxnBody(ops, idempotencyKey))
  {
    hide Key, Text, Strict, Holds, Quoted, Commas, OpTexts, StrTree, Field, ArrTree, IsName,
         IsWhole, IsFragment;
    var list := ArrTree(OpItems(ops));
    BatchNames();
    OpListText(ops);
    Start("{", "ops", list);
    var b, ms := "{" + Key("ops") + Text(list), [Field("ops", list)];
    assert b == "{" + Key("ops") + "[" + Commas(OpTexts(ops)) + "]";
    if idempotencyKey != "" {
      StrTreeText(idempotencyKey);
      Grow(b, "{", ms, "idempotency_key", StrTree(idempotencyKey));
      ghost var before := b;
      b := b + "," + Key("idempotency_key") + Quoted(idempotencyKey);
      assert b == before + ("," + Key("idempotency_key") + Quoted(idempotencyKey));
      ms := ms + [Field("idempotency_key", StrTree(idempotencyKey))];
    } else {
      assert b + "" == b && ms + [] == ms;
    }
    assert "" + "{" == "{";
    Finish(b, "", ms);
    FragmentUnique(ObjTree(ms));
    assert b + "}" == Text(ObjTree(ms));
  }

  // ---- Decoding a batch ----

  datatype Batch = Batch(ops: seq<Op>, idempotencyKey: string)

  /** An operation without the fields its type ignores. */
  function Relevant(op: Op): Op {
    match op.kind
    case Put => Op(Put, op.table, op.cells, [], 0, Null)
    case Upsert => Op(Upsert, op.table, op.cells, op.updateCells, 0, Null)
    case Delete => Op(Delete, op.table, [], [], op.rowId, Null)
    case DeleteByPk => Op(DeleteByPk, op.table, [], [], 0, op.pkValue)
  }

  /** Raw JSON must be a container, and a double must print with a point or an exponent. */
  predicate Legible(v: Value) {
    match v
    case Floating(d) => d.Finite? && !IntPart(d.text)
    case Json(x) => SkipWs(x, 0) < |x| && IsOpener(x[SkipWs(x, 0)])
    case _ => true
  }

  predicate AllLegible(cells: seq<Cell>) {
    forall k :: 0 <= k < |cells| ==> Legible(cells[k].value)
  }

  predicate LegibleOp(op: Op) {
    match op.kind
    case Put => AllLegible(op.cells)
    case Upsert => AllLegible(op.cells) && AllLegible(op.updateCells)
    case Delete => true
    case DeleteByPk => Legible(op.pkValue)
  }

  /** The value an item was written from: the white space around a container belongs to it. */
  function SentValue(it: Item): Value {
    if it.v.Arr? || it.v.Obj? then Json(ItemText(it)) else ValueOf(it.v)
  }

  function SentCells(items: seq<Item>): seq<Cell> {
    if |items| < 2 then []
    else
      var id := if items[0].v.Number? then Strtoll(items[0].v.x) else 0;
      [Cell(id, SentValue(items[1]))] + SentCells(items[2..])
  }

  function CellsIn(t: Tree, key: string): seq<Cell> {
    match Find(t, key, AnArray)
    case None => []
    case Some(v) => SentCells(v.items)
  }

  function PkIn(ms: seq<Member>): Value {
    if ms == [] then Null
    else if Meaning(ms[0].name) == "pk" then SentValue(ms[0].item)
    else PkIn(ms[1..])
  }

  function RowIdIn(t: Tree): int64 {
    match Find(t, "row_id", ANumber)
    case Some(v) => Strtoll(v.x)
    case None => 0
  }

  /** A put or an upsert must not ask for anything to be returned. */
  predicate IsSilent(p: Tree) { Find(p, "returning", ABool) == Some(Word("false")) }

  function OpIn(t: Tree): Option<Op> {
    var put, upsert := Find(t, "put", AnObject), Find(t, "upsert", AnObject);
    var delete, byPk := Find(t, "delete", AnObject), Find(t, "delete_by_pk", AnObject);
    if (put.Some? && !IsSilent(put.value)) || (upsert.Some? && !IsSilent(upsert.value)) then None
    else if put.Some? then
      Some(Op(Put, StringIn(put.value, "table", ""), CellsIn(put.value, "cells"), [], 0, Null))
    else if upsert.Some? then
      Some(Op(Upsert, StringIn(upsert.value, "table", ""), CellsIn(upsert.value, "cells"),
              CellsIn(upsert.value, "update_cells"), 0, Null))
    else if delete.Some? then
      Some(Op(Delete, StringIn(delete.value, "table", ""), [], [], RowIdIn(delete.value), Null))
    else if byPk.Some? then
      Some(Op(DeleteByPk, StringIn(byPk.value, "table", ""), [], [], 0, PkIn(byPk.value.members)))
    else None
  }

  function OpsIn(items: seq<Item>): Option<seq<Op>> {
    if items == [] then Some([])
    else
      match (OpIn(items[0].v), OpsIn(items[1..]))
      case (Some(op), Some(rest)) => Some([op] + rest)
      case (_, _) => None
  }

  /** Parses a transaction body and looks its parts up. */
  function DecodeTxn(body: string): Option<Batch> {
    match Parse(body)
    case None => None
    case Some(t) =>
      match Find(t, "ops", AnArray)
      case None => None
      case Some(v) =>
        match OpsIn(v.items)
        case None => None
        case Some(ops) => Some(Batch(ops, StringIn(t, "idempotency_key", "")))
  }

  // ---- Lookups in compact objects ----

  /** Looking up a member of a compact object compares the names it was built with. */
  lemma FieldFirst(name: string, v: Tree, rest: seq<Member>, key: string, kind: Kind)
    ensures First([Field(name, v)] + rest, key, kind)
            == if name == key && IsKind(kind, v) then Some(v) else First(rest, key, kind)
    ensures Named([Field(name, v)] + rest, key) == if name == key then Some(v) else Named(rest, key)
  {
    hide Meaning, ValueOf, IsKind;
    NameMeaning(name);
    var ms := [Field(name, v)] + rest;
    assert ms[0] == Field(name, v) && ms[1..] == rest;
  }

  lemma NamesDiffer()
    ensures "table" != "cells" && "table" != "update_cells" && "table" != "row_id" && "table" != "pk"
    ensures "cells" != "update_cells" && "cells" != "returning" && "update_cells" != "returning"
    ensures "table" != "returning"
    ensures "ops" != "idempotency_key"
    ensures OpName(Put) == "put" && OpName(Upsert) == "upsert" && OpName(Delete) == "delete"
    ensures OpName(DeleteByPk) == "delete_by_pk"
    ensures forall a, b :: OpName(a) == OpName(b) ==> a == b
  {
    assert |"table"| == 5 && |"cells"| == 5 && |"update_cells"| == 12 && |"row_id"| == 6 && |"pk"| == 2;
    assert |"returning"| == 9 && |"ops"| == 3 && |"idempotency_key"| == 15;
    assert "table"[0] == 't' && "cells"[0] == 'c';
    assert |"put"| == 3 && |"upsert"| == 6 && |"delete"| == 6 && |"delete_by_pk"| == 12;
    assert "upsert"[0] == 'u' && "delete"[0] == 'd';
  }

  /** A legible value is read back from its item, white space included. */
  lemma SentValueRecovered(v: Value)
    requires Sendable(v) && Legible(v)
    ensures SentValue(ValueItem(v)) == v
  {
    hide IntText, Strtoll, IsDouble, IntPart, StrictItem, ItemText, IsFragment, Text, Run;
    match v {
      case Null =>
      case Bool(b) =>
      case Int64(n) =>
        NoMarks(n);
        StrtollInverse(n);
      case Floating(d) => DoubleIsNoIntPart(d.text);
      case String(x) => EscapeFaithful(x);
      case Json(x) => ContainerInside(FragmentItem(x));
    }
  }

  /** The first byte after white space tells whether a fragment is a container. */
  lemma ContainerInside(it: Item)
    requires StrictItem(it)
    ensures var x := ItemText(it);
            SkipWs(x, 0) < |x| && (it.v.Arr? || it.v.Obj? <==> IsOpener(x[SkipWs(x, 0)]))
  {
    hide Text, Strict, ParseValue, Run, AllIn;
    ItemParsed(it);
    ContainerEnds(it.v);
  }

  lemma {:induction false} SentCellsRecovered(cells: seq<Cell>)
    requires AllSendable(cells) && AllLegible(cells)
    ensures SentCells(CellItems(cells)) == cells
    decreases |cells|
  {
    hide IntText, ValueItem, SentValue, Sendable, Legible, Strtoll;
    if cells != [] {
      SentCellsRecovered(cells[1..]);
      assert CellItems(cells)[2..] == CellItems(cells[1..]);
      StrtollInverse(cells[0].columnId);
      SentValueRecovered(cells[0].value);
      assert [cells[0]] + cells[1..] == cells;
    }
  }

  lemma CellsFound(p: Tree, key: string, cells: seq<Cell>)
    requires AllSendable(cells) && AllLegible(cells)
    requires Find(p, key, AnArray) == Some(CellsTree(cells))
    ensures CellsIn(p, key) == cells
  {
    hide AllSendable, AllLegible, CellItems, SentCells;
    SentCellsRecovered(cells);
  }

  /** The members of a put or an upsert, read back. */
  lemma CellsOpIn(op: Op)
    requires SendableOp(op) && LegibleOp(op) && (op.kind == Put || op.kind == Upsert)
    ensures var p := ObjTree(OpMembers(op));
            && StringIn(p, "table", "") == op.table
            && CellsIn(p, "cells") == op.cells
            && (op.kind == Upsert ==> CellsIn(p, "update_cells") == op.updateCells)
  {
    hide First, Field, Meaning, StrTree, CellsTree, SentCells, AllSendable, AllLegible;
    NamesDiffer();
    EscapeFaithful(op.table);
    var p, s, c := ObjTree(OpMembers(op)), StrTree(op.table), CellsTree(op.cells);
    var last := [Field("returning", BoolTree(false))];
    var update :=
      if op.kind == Upsert && op.updateCells != [] then [Field("update_cells", CellsTree(op.updateCells))] else [];
    var rest := update + last;
    assert OpMembers(op) == [Field("table", s)] + ([Field("cells", c)] + rest);
    StrTreeKind(op.table);
    CellsTreeKind(op.cells);
    FieldFirst("table", s, [Field("cells", c)] + rest, "table", AString);
    FieldFirst("table", s, [Field("cells", c)] + rest, "cells", AnArray);
    FieldFirst("cells", c, rest, "cells", AnArray);
    CellsFound(p, "cells", op.cells);
    if op.kind == Upsert {
      FieldFirst("table", s, [Field("cells", c)] + rest, "update_cells", AnArray);
      FieldFirst("cells", c, rest, "update_cells", AnArray);
      if op.updateCells != [] {
        CellsTreeKind(op.updateCells);
        FieldFirst("update_cells", CellsTree(op.updateCells), last, "update_cells", AnArray);
        CellsFound(p, "update_cells", op.updateCells);
      } else {
        assert rest == last;
        assert last == last + [];
        FieldFirst("returning", BoolTree(false), [], "update_cells", AnArray);
        NoMembers("update_cells", AnArray);
      }
    }
  }

  function NotReturning(): seq<Member> { [Field("returning", BoolTree(false))] }

  lemma ReturningFirst()
    ensures First(NotReturning(), "returning", ABool) == Some(Word("false"))
  {
    hide First, Field;
    assert NotReturning() == NotReturning() + [];
    FieldFirst("returning", BoolTree(false), [], "returning", ABool);
  }

  /** A put or an upsert carries returning, and it is false. */
  lemma SilentOpIn(op: Op)
    requires SendableOp(op) && (op.kind == Put || op.kind == Upsert)
    ensures IsSilent(ObjTree(OpMembers(op)))
  {
    hide First, Field, StrTree, CellsTree, AllSendable, NotReturning, OpMembers;
    NamesDiffer();
    ReturningFirst();
    SilentMembers(op);
    var rest := SilentRest(op);
    FieldFirst("table", StrTree(op.table), [Field("cells", CellsTree(op.cells))] + rest, "returning", ABool);
    FieldFirst("cells", CellsTree(op.cells), rest, "returning", ABool);
    if op.kind == Upsert && op.updateCells != [] {
      FieldFirst("update_cells", CellsTree(op.updateCells), NotReturning(), "returning", ABool);
    }
  }

  ghost function SilentRest(op: Op): seq<Member>
    requires SendableOp(op)
  {
    if op.kind == Upsert && op.updateCells != []
    then [Field("update_cells", CellsTree(op.updateCells))] + NotReturning() else NotReturning()
  }

  lemma SilentMembers(op: Op)
    requires SendableOp(op) && (op.kind == Put || op.kind == Upsert)
    ensures OpMembers(op)
            == [Field("table", StrTree(op.table))] + ([Field("cells", CellsTree(op.cells))] + SilentRest(op))
  {
    hide Field, StrTree, CellsTree, AllSendable;
  }

  lemma NoMembers(key: string, kind: Kind)
    ensures First([], key, kind) == None && Named([], key) == None
  {}

  lemma StrTreeKind(x: string)
    ensures IsKind(AString, StrTree(x)) && StrTree(x).ps == EscapePieces(x)
  {}

  lemma CellsTreeKind(cells: seq<Cell>)
    requires AllSendable(cells)
    ensures IsKind(AnArray, CellsTree(cells))
  {}

  /** The members of a delete or a delete_by_pk, read back. */
  lemma KeyOpIn(op: Op)
    requires SendableOp(op) && LegibleOp(op) && (op.kind == Delete || op.kind == DeleteByPk)
    ensures var p := ObjTree(OpMembers(op));
            && StringIn(p, "table", "") == op.table
            && (op.kind == Delete ==> RowIdIn(p) == op.rowId)
            && (op.kind == DeleteByPk ==> PkIn(p.members) == op.pkValue)
  {
    hide First, Named, Field, FieldOf, PkIn, Meaning, StrTree, IntTree, ValueItem, SentValue, Strtoll, Legible,
         Sendable;
    NamesDiffer();
    EscapeFaithful(op.table);
    StrTreeKind(op.table);
    var s := StrTree(op.table);
    if op.kind == Delete {
      var n := IntTree(op.rowId);
      IntTreeKind(op.rowId);
      assert OpMembers(op) == [Field("table", s)] + ([Field("row_id", n)] + []);
      FieldFirst("table", s, [Field("row_id", n)] + [], "table", AString);
      FieldFirst("table", s, [Field("row_id", n)] + [], "row_id", ANumber);
      FieldFirst("row_id", n, [], "row_id", ANumber);
    } else {
      var rest := [FieldOf("pk", ValueItem(op.pkValue))];
      assert OpMembers(op) == [Field("table", s)] + rest;
      FieldFirst("table", s, rest, "table", AString);
      SentValueRecovered(op.pkValue);
      PkFound(s, ValueItem(op.pkValue));
    }
  }

  lemma PkFound(table: Tree, it: Item)
    ensures PkIn([Field("table", table)] + [FieldOf("pk", it)]) == SentValue(it)
  {
    hide Meaning, SentValue, RawPieces;
    NamesDiffer();
    NameMeaning("table");
    NameMeaning("pk");
    assert ([Field("table", table)] + [FieldOf("pk", it)])[1..] == [FieldOf("pk", it)];
  }

  lemma IntTreeKind(n: int64)
    ensures IsKind(ANumber, IntTree(n)) && Strtoll(IntTree(n).x) == n
  {
    StrtollInverse(n);
  }

  lemma OpRecovered(op: Op)
    requires SendableOp(op) && LegibleOp(op)
    ensures OpIn(OpTree(op)) == Some(Relevant(op))
  {
    hide First, Named, Field, OpMembers, StringIn, CellsIn, RowIdIn, SendableOp, LegibleOp, OpName, IsSilent;
    var inner, name := ObjTree(OpMembers(op)), OpName(op.kind);
    NamesDiffer();
    assert [Field(name, inner)] == [Field(name, inner)] + [];
    FieldFirst(name, inner, [], OpName(Put), AnObject);
    FieldFirst(name, inner, [], OpName(Upsert), AnObject);
    FieldFirst(name, inner, [], OpName(Delete), AnObject);
    FieldFirst(name, inner, [], OpName(DeleteByPk), AnObject);
    NoMembers(OpName(Put), AnObject);
    NoMembers(OpName(Upsert), AnObject);
    NoMembers(OpName(Delete), AnObject);
    if op.kind == Put || op.kind == Upsert {
      CellsOpIn(op);
      SilentOpIn(op);
    } else {
      KeyOpIn(op);
    }
  }

  predicate AllLegibleOps(ops: seq<Op>) {
    forall k :: 0 <= k < |ops| ==> LegibleOp(ops[k])
  }

  function AllRelevant(ops: seq<Op>): (r: seq<Op>)
    ensures |r| == |ops| && forall k :: 0 <= k < |ops| ==> r[k] == Relevant(ops[k])
  {
    if ops == [] then [] else [Relevant(ops[0])] + AllRelevant(ops[1..])
  }

  lemma {:induction false} OpsRecovered(ops: seq<Op>)
    requires AllSendableOps(ops) && AllLegibleOps(ops)
    ensures OpsIn(OpItems(ops)) == Some(AllRelevant(ops))
    decreases |ops|
  {
    hide OpIn, OpTree, Relevant, SendableOp, LegibleOp;
    if ops != [] {
      OpRecovered(ops[0]);
      OpsRecovered(ops[1..]);
      assert OpItems(ops)[1..] == OpItems(ops[1..]);
    }
  }

  lemma TxnLookups(ops: seq<Op>, idempotencyKey: string)
    requires AllSendableOps(ops)
    ensures var t := TxnTree(ops, idempotencyKey);
            && Find(t, "ops", AnArray) == Some(ArrTree(OpItems(ops)))
            && StringIn(t, "idempotency_key", "") == idempotencyKey
  {
    hide First, Named, Field, OpItems, Meaning, StrTree, AllSendableOps;
    var t := TxnTree(ops, idempotencyKey);
    var list, key := ArrTree(OpItems(ops)), StrTree(idempotencyKey);
    NamesDiffer();
    StrTreeKind(idempotencyKey);
    EscapeFaithful(idempotencyKey);
    var rest := if idempotencyKey != "" then [Field("idempotency_key", key)] else [];
    assert t.members == [Field("ops", list)] + rest;
    FieldFirst("ops", list, rest, "ops", AnArray);
    FieldFirst("ops", list, rest, "idempotency_key", AString);
    NoMembers("idempotency_key", AString);
    if idempotencyKey != "" {
      assert rest == [Field("idempotency_key", key)] + [];
      FieldFirst("idempotency_key", key, [], "idempotency_key", AString);
    }
  }

  /**
   Decoding recovers the batch: the operations in order, each with its type, its table and
   every field that matters to its type, and the idempotency key.
   */
  lemma BatchRecovered(ops: seq<Op>, idempotencyKey: string)
    requires AllSendableOps(ops) && AllLegibleOps(ops)
    ensures DecodeTxn(TxnBody(ops, idempotencyKey)) == Some(Batch(AllRelevant(ops), idempotencyKey))
  {
    hide Find, StringIn, Parse, Text, Strict, OpsIn, OpItems, TxnBody, TxnTree, AllSendableOps, AllLegibleOps;
    TxnTreeText(ops, idempotencyKey);
    StrictBody(TxnTree(ops, idempotencyKey));
    OpsRecovered(ops);
    TxnLookups(ops, idempotencyKey);
  }

  /** Two batches with the same body are the same batch. */
  lemma BodyDeterminesBatch(a: seq<Op>, keyA: string, b: seq<Op>, keyB: string)
    requires AllSendableOps(a) && AllLegibleOps(a) && AllSendableOps(b) && AllLegibleOps(b)
    requires TxnBody(a, keyA) == TxnBody(b, keyB)
    ensures AllRelevant(a) == AllRelevant(b) && keyA == keyB
  {
    hide TxnBody, DecodeTxn, AllSendableOps, AllLegibleOps, AllRelevant;
    BatchRecovered(a, keyA);
    BatchRecovered(b, keyB);
  }
}
