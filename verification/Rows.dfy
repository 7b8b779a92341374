/** Decoding of query responses and table lists. */
module Rows {
  import opened Bytes
  import opened Strings
  import opened Numbers
  import opened Grammar
  import opened Values
  import opened Walker
  import opened Lookup

  /** The exceptions the decoders throw. */
  datatype Malformed = Response | InRow | InCells | InCellValue | TableList

  datatype Outcome<T> = Ok(value: T) | Thrown(what: Malformed)

  /** What has been decoded, and the position after it. */
  type Step<T> = Outcome<Parsed<T>>

  function Prepend<T>(front: seq<T>, rest: Step<seq<T>>): Step<seq<T>> {
    match rest
    case Ok(p) => Ok(Parsed(front + p.t, p.end))
    case Thrown(m) => Thrown(m)
  }

  lemma PrependTwice<T>(a: seq<T>, b: seq<T>, rest: Step<seq<T>>)
    ensures Prepend(a + b, rest) == Prepend(a, Prepend(b, rest))
  {
    if rest.Ok? {
      assert (a + b) + rest.value.t == a + (b + rest.value.t);
    }
  }

  lemma PrependNone<T>(rest: Step<seq<T>>)
    ensures Prepend([], rest) == rest
  {
    if rest.Ok? {
      assert [] + rest.value.t == rest.value.t;
    }
  }

  // ---- The decoders, as functions of the response and a position ----

  /** A column id, and where its value may start: after the comma, if there is one. */
  function ColumnAt(s: string, i: nat): (r: Option<Parsed<int64>>)
    requires i <= |s|
    ensures r.Some? ==> i < r.value.end <= |s|
  {
    var j := SkipWs(s, i);
    if j == |s| || !StartsNumber(s[j]) then None
    else
      var e := Run(s, j, Numeric);
      var k := SkipWs(s, e);
      assert In(s[j], Numeric);
      Some(Parsed(Strtoll(s[j..e]), if k < |s| && s[k] == ',' then k + 1 else k))
  }

  /** Column id and value pairs, from the start of a column id. */
  function CellsAt(s: string, i: nat): (r: Step<seq<Cell>>)
    requires i <= |s|
    ensures r.Ok? ==> i < r.value.end <= |s|
    decreases |s| - i
  {
    match ColumnAt(s, i)
    case None => Thrown(InCells)
    case Some(c) =>
      match ReadAt(s, c.end)
      case None => Thrown(InCellValue)
      case Some(p) =>
        var cell, n := Cell(c.t, p.t), SkipWs(s, p.end);
        match SeparatorAt(s, p.end, ']')
        case Comma => Prepend([cell], CellsAt(s, n + 1))
        case Close => Ok(Parsed([cell], n + 1))
        case Neither => Thrown(InCells)
  }

  /** A whole cells array, from its opening bracket. */
  function CellArrayAt(s: string, i: nat): (r: Step<seq<Cell>>)
    requires i < |s|
    ensures r.Ok? ==> i < r.value.end <= |s|
  {
    var k := SkipWs(s, i + 1);
    if k < |s| && s[k] == ']' then Ok(Parsed([], k + 1)) else CellsAt(s, i + 1)
  }

  /** One member of a row: the cells it contributes, and the position after its value. */
  function RowMemberAt(s: string, i: nat): (r: Step<seq<Cell>>)
    requires i <= |s|
    ensures r.Ok? ==> i < r.value.end <= |s|
  {
    match AfterName(s, i)
    case None => Thrown(InRow)
    case Some(v) =>
      var j := SkipWs(s, v);
      if NameAt(s, i) == "cells" && j < |s| && s[j] == '[' then CellArrayAt(s, j)
      else
        match SkipEnd(s, v)
        case None => Thrown(InRow)
        case Some(e) => Ok(Parsed([], e))
  }

  /** The rest of a row, from the start of a member. */
  function RowAt(s: string, i: nat): (r: Step<Row>)
    requires i <= |s|
    ensures r.Ok? ==> i < r.value.end <= |s|
    decreases |s| - i
  {
    match RowMemberAt(s, i)
    case Thrown(m) => Thrown(m)
    case Ok(p) =>
      var n := SkipWs(s, p.end);
      match SeparatorAt(s, p.end, '}')
      case Comma => Prepend(p.t, RowAt(s, n + 1))
      case Close => Ok(Parsed(p.t, n + 1))
      case Neither => Thrown(InRow)
  }

  /** A whole row, with any white space before it. */
  function RowObjectAt(s: string, i: nat): (r: Step<Row>)
    requires i <= |s|
    ensures r.Ok? ==> i < r.value.end <= |s|
  {
    var j := SkipWs(s, i);
    if j == |s| || s[j] != '{' then Thrown(Response)
    else
      var k := SkipWs(s, j + 1);
      if k < |s| && s[k] == '}' then Ok(Parsed([], k + 1)) else RowAt(s, j + 1)
  }

  /** The rest of the rows, from the start of a row. */
  function RowsAt(s: string, i: nat): (r: Step<seq<Row>>)
    requires i <= |s|
    ensures r.Ok? ==> i < r.value.end <= |s|
    decreases |s| - i
  {
    match RowObjectAt(s, i)
    case Thrown(m) => Thrown(m)
    case Ok(p) =>
      var n := SkipWs(s, p.end);
      match SeparatorAt(s, p.end, ']')
      case Comma => Prepend([p.t], RowsAt(s, n + 1))
      case Close => Ok(Parsed([p.t], n + 1))
      case Neither => Thrown(Response)
  }

  /** The rows of a query response; a response without a rows array has none. */
  function QueryRows(resp: string): Outcome<seq<Row>> {
    match ScanObject(resp, "rows", AnArray)
    case Miss => Ok([])
    case Bad => Ok([])
    case Hit(at) => RowArrayAt(resp, at)
  }

  /** The rows of the array that opens at i. */
  function RowArrayAt(s: string, i: nat): Outcome<seq<Row>>
    requires i < |s|
  {
    var k := SkipWs(s, i + 1);
    if k < |s| && s[k] == ']' then Ok([])
    else
      match RowsAt(s, i + 1)
      case Thrown(m) => Thrown(m)
      case Ok(p) => Ok(p.t)
  }

  // ---- The decoders ----

  /** Skipping white space first makes no difference. */
  lemma CellsFromSpace(s: string, i: nat)
    requires i <= |s|
    ensures CellsAt(s, SkipWs(s, i)) == CellsAt(s, i)
  {
    hide Run, ColumnAt, ReadAt, SeparatorAt, Prepend;
    ColumnFromSpace(s, i);
  }

  lemma ColumnFromSpace(s: string, i: nat)
    requires i <= |s|
    ensures ColumnAt(s, SkipWs(s, i)) == ColumnAt(s, i)
  {
    hide Run, Strtoll, SeparatorAt;
    RunOnce(s, i, Space);
  }

  lemma RowFromSpace(s: string, i: nat)
    requires i <= |s|
    ensures RowAt(s, SkipWs(s, i)) == RowAt(s, i)
  {
    hide Run, SkipEnd, AfterName, NameAt, CellArrayAt, SeparatorAt, Prepend;
    RunOnce(s, i, Space);
    SameName(s, i, SkipWs(s, i));
    assert RowMemberAt(s, SkipWs(s, i)) == RowMemberAt(s, i);
  }

  lemma RowsFromSpace(s: string, i: nat)
    requires i <= |s|
    ensures RowsAt(s, SkipWs(s, i)) == RowsAt(s, i)
  {
    hide Run, RowObjectAt, SeparatorAt, Prepend, In;
    RowObjectFromSpace(s, i);
  }

  lemma RowObjectFromSpace(s: string, i: nat)
    requires i <= |s|
    ensures RowObjectAt(s, SkipWs(s, i)) == RowObjectAt(s, i)
  {
    hide Run, RowAt, In;
    RunOnce(s, i, Space);
  }

  // One turn of each loop, with the elements decoded before it.

  function CellsTurn(s: string, i: nat, before: seq<Cell>): Step<seq<Cell>>
    requires i <= |s|
  {
    match ColumnAt(s, i)
    case None => Thrown(InCells)
    case Some(c) =>
      match ReadAt(s, c.end)
      case None => Thrown(InCellValue)
      case Some(p) =>
        var row, n := before + [Cell(c.t, p.t)], SkipWs(s, p.end);
        match SeparatorAt(s, p.end, ']')
        case Comma => Prepend(row, CellsAt(s, n + 1))
        case Close => Ok(Parsed(row, n + 1))
        case Neither => Thrown(InCells)
  }

  lemma TakeCellsTurn(s: string, i: nat, before: seq<Cell>)
    requires i <= |s|
    ensures Prepend(before, CellsAt(s, i)) == CellsTurn(s, i, before)
  {
    hide ColumnAt, ReadAt, SkipWs;
    if ColumnAt(s, i).Some? && ReadAt(s, ColumnAt(s, i).value.end).Some? {
      var p := ReadAt(s, ColumnAt(s, i).value.end).value;
      if SeparatorAt(s, p.end, ']') == Comma {
        PrependTwice(before, [Cell(ColumnAt(s, i).value.t, p.t)], CellsAt(s, SkipWs(s, p.end) + 1));
      }
    }
  }

  function RowTurn(s: string, i: nat, before: Row): Step<Row>
    requires i <= |s|
  {
    match RowMemberAt(s, i)
    case Thrown(m) => Thrown(m)
    case Ok(p) =>
      var row, n := before + p.t, SkipWs(s, p.end);
      match SeparatorAt(s, p.end, '}')
      case Comma => Prepend(row, RowAt(s, n + 1))
      case Close => Ok(Parsed(row, n + 1))
      case Neither => Thrown(InRow)
  }

  lemma TakeRowTurn(s: string, i: nat, before: Row)
    requires i <= |s|
    ensures Prepend(before, RowAt(s, i)) == RowTurn(s, i, before)
  {
    hide RowMemberAt, SkipWs;
    if RowMemberAt(s, i).Ok? {
      var p := RowMemberAt(s, i).value;
      if SeparatorAt(s, p.end, '}') == Comma {
        PrependTwice(before, p.t, RowAt(s, SkipWs(s, p.end) + 1));
      }
    }
  }

  function RowsTurn(s: string, i: nat, before: seq<Row>): Step<seq<Row>>
    requires i <= |s|
  {
    match RowObjectAt(s, i)
    case Thrown(m) => Thrown(m)
    case Ok(p) =>
      var rows, n := before + [p.t], SkipWs(s, p.end);
      match SeparatorAt(s, p.end, ']')
      case Comma => Prepend(rows, RowsAt(s, n + 1))
      case Close => Ok(Parsed(rows, n + 1))
      case Neither => Thrown(Response)
  }

  lemma TakeRowsTurn(s: string, i: nat, before: seq<Row>)
    requires i <= |s|
    ensures Prepend(before, RowsAt(s, i)) == RowsTurn(s, i, before)
  {
    hide RowObjectAt, SkipWs;
    if RowObjectAt(s, i).Ok? {
      var p := RowObjectAt(s, i).value;
      if SeparatorAt(s, p.end, ']') == Comma {
        PrependTwice(before, [p.t], RowsAt(s, SkipWs(s, p.end) + 1));
      }
    }
  }

  /** The column id at the cursor, and the comma after it if there is one. */
  method ReadColumn(j: JsonParser) returns (column: Option<int64>)
    requires j.Valid() && j.ok
    modifies j
    ensures j.Valid() && j.ok && old(j.i) <= j.i
    ensures match ColumnAt(j.s, old(j.i))
            case None => column == None
            case Some(p) => column == Some(p.t) && j.i == p.end
  {
    hide Run, Strtoll;
    var ch := j.Peek();
    if ch != '-' as int && !('0' as int <= ch <= '9' as int) {
      return None;
    }
    var num := j.ReadNumberRaw();
    var columnId := Strtoll(num);
    ch := j.Peek();
    if ch == ',' as int {
      j.Expect(',');
    }
    return Some(columnId);
  }

  /** The cells array of a row, the cursor being on its opening bracket. */
  method ReadCells(j: JsonParser) returns (r: Outcome<seq<Cell>>)
    requires j.Valid() && j.ok && j.i < |j.s| && j.s[j.i] == '[' && SkipWs(j.s, j.i) == j.i
    modifies j
    ensures j.Valid() && old(j.i) <= j.i
    ensures match CellArrayAt(j.s, old(j.i))
            case Ok(p) => r == Ok(p.t) && j.i == p.end && j.ok
            case Thrown(m) => r == Thrown(m)
  {
    hide CellsAt, Prepend, ColumnAt, ReadAt, SkipWs, SeparatorAt;
    var cells := [];
    j.Expect('[');
    ghost var start := j.i;
    CellsFromSpace(j.s, start);
    var ch := j.Peek();
    if ch == ']' as int {
      j.Expect(']');
      return Ok([]);
    }
    PrependNone(CellsAt(j.s, start));
    while true
      invariant j.Valid() && j.ok && start <= j.i
      invariant CellsAt(j.s, start) == Prepend(cells, CellsAt(j.s, j.i))
      decreases |j.s| - j.i
    {
      TakeCellsTurn(j.s, j.i, cells);
      var column := ReadColumn(j);
      if column.None? {
        return Thrown(InCells);
      }
      var v := j.ReadValue();
      if !j.ok {
        return Thrown(InCellValue);
      }
      var sep := j.ReadSeparator(']');
      cells := cells + [Cell(column.value, v)];
      if sep == Close {
        return Ok(cells);
      }
      if sep == Neither {
        return Thrown(InCells);
      }
    }
  }

  /** One member of a row. */
  method ReadRowMember(j: JsonParser) returns (r: Outcome<seq<Cell>>)
    requires j.Valid() && j.ok
    modifies j
    ensures j.Valid() && old(j.i) <= j.i
    ensures match RowMemberAt(j.s, old(j.i))
            case Ok(p) => r == Ok(p.t) && j.i == p.end && j.ok
            case Thrown(m) => r == Thrown(m)
  {
    hide CellArrayAt, SkipEnd, AfterName, NameAt, SkipWs;
    var named, k := j.ReadName();
    if !named {
      return Thrown(InRow);
    }
    SkipWsOnce(j.s, j.i);
    var ch := j.Peek();
    if k == "cells" && ch == '[' as int {
      r := ReadCells(j);
      return r;
    }
    j.SkipValue();
    if !j.ok {
      return Thrown(InRow);
    }
    return Ok([]);
  }

  /** One row object. */
  method ReadRow(j: JsonParser) returns (r: Outcome<Row>)
    requires j.Valid() && j.ok
    modifies j
    ensures j.Valid() && old(j.i) <= j.i
    ensures match RowObjectAt(j.s, old(j.i))
            case Ok(p) => r == Ok(p.t) && j.i == p.end && j.ok
            case Thrown(m) => r == Thrown(m)
  {
    hide RowAt, Prepend, RowMemberAt, SkipWs, SeparatorAt;
    var row := [];
    var ch := j.Peek();
    if ch != '{' as int {
      return Thrown(Response);
    }
    j.Expect('{');
    ghost var start := j.i;
    RowFromSpace(j.s, start);
    ch := j.Peek();
    if ch == '}' as int {
      j.Expect('}');
      return Ok([]);
    }
    PrependNone(RowAt(j.s, start));
    while true
      invariant j.Valid() && j.ok && start <= j.i
      invariant RowAt(j.s, start) == Prepend(row, RowAt(j.s, j.i))
      decreases |j.s| - j.i
    {
      TakeRowTurn(j.s, j.i, row);
      var cells := ReadRowMember(j);
      if cells.Thrown? {
        return cells;
      }
      var sep := j.ReadSeparator('}');
      row := row + cells.value;
      if sep == Close {
        return Ok(row);
      }
      if sep == Neither {
        return Thrown(InRow);
      }
    }
  }

  /** The rows array, the cursor being on its opening bracket. */
  method ReadRows(j: JsonParser) returns (r: Outcome<seq<Row>>)
    requires j.Valid() && j.ok && j.i < |j.s| && j.s[j.i] == '[' && SkipWs(j.s, j.i) == j.i
    modifies j
    ensures r == RowArrayAt(j.s, old(j.i))
  {
    hide RowsAt, Prepend, RowObjectAt, SkipWs, SeparatorAt;
    var rows := [];
    j.Expect('[');
    ghost var start := j.i;
    RowsFromSpace(j.s, start);
    var ch := j.Peek();
    if ch == ']' as int {
      return Ok([]);
    }
    PrependNone(RowsAt(j.s, start));
    while true
      invariant j.Valid() && j.ok && start <= j.i
      invariant RowsAt(j.s, start) == Prepend(rows, RowsAt(j.s, j.i))
      decreases |j.s| - j.i
    {
      TakeRowsTurn(j.s, j.i, rows);
      var row := ReadRow(j);
      if row.Thrown? {
        return Thrown(row.what);
      }
      var sep := j.ReadSeparator(']');
      rows := rows + [row.value];
      if sep == Close {
        return Ok(rows);
      }
      if sep == Neither {
        return Thrown(Response);
      }
    }
  }

  /** The decoding half of query(): finds the first rows array and walks it. */
  method DecodeRows(resp: string) returns (r: Outcome<seq<Row>>)
    ensures r == QueryRows(resp)
  {
    hide ScanObject, SkipEnd, SkipWs, AfterName, NameAt, RowArrayAt;
    var j, more := OpenObject(resp, "rows", AnArray);
    while more
      invariant fresh(j) && j.s == resp && j.Valid()
      invariant more ==> j.ok && ScanObject(resp, "rows", AnArray) == ScanMembers(resp, j.i, "rows", AnArray)
      invariant !more ==> ScanObject(resp, "rows", AnArray) == Bad
      decreases more, |resp| - j.i
    {
      var named, k := j.ReadName();
      if !named {
        return Ok([]);
      }
      SkipWsOnce(resp, j.i);
      var ch := j.Peek();
      if k == "rows" && ch == '[' as int {
        r := ReadRows(j);
        return r;
      }
      var closed;
      more, closed := NextMember(j);
      if !more {
        return Ok([]);
      }
    }
    return Ok([]);
  }

  // ---- table_names ----

  /** The rest of a table list, from before a name. */
  function NamesAt(s: string, i: nat): (r: Step<seq<string>>)
    requires i <= |s|
    ensures r.Ok? ==> i < r.value.end <= |s|
    decreases |s| - i, 1
  {
    NamesFrom(s, SkipWs(s, i))
  }

  /** The same, once white space has been skipped. */
  function NamesFrom(s: string, j: nat): (r: Step<seq<string>>)
    requires j <= |s|
    ensures r.Ok? ==> j < r.value.end <= |s|
    decreases |s| - j, 0
  {
    if j == |s| || s[j] != '"' || !StringAt(s, j + 1).closed then Thrown(TableList)
    else
      var name := StringAt(s, j + 1);
      var n := SkipWs(s, name.end);
      match SeparatorAt(s, name.end, ']')
      case Comma => Prepend([name.text], NamesAt(s, n + 1))
      case Close => Ok(Parsed([name.text], n + 1))
      case Neither => Thrown(TableList)
  }

  /** The names in a table list; a body that is no array has none. */
  function TableNames(body: string): Outcome<seq<string>> {
    var j := SkipWs(body, 0);
    if j == |body| || body[j] != '[' then Ok([])
    else
      var k := SkipWs(body, j + 1);
      if k < |body| && body[k] == ']' then Ok([])
      else
        match NamesAt(body, j + 1)
        case Thrown(m) => Thrown(m)
        case Ok(p) => Ok(p.t)
  }

  lemma NamesFromSpace(s: string, i: nat)
    requires i <= |s|
    ensures NamesAt(s, SkipWs(s, i)) == NamesAt(s, i)
  {
    hide Run, NamesFrom;
    RunOnce(s, i, Space);
  }

  function NamesTurn(s: string, i: nat, before: seq<string>): Step<seq<string>>
    requires i <= |s|
  {
    var j := SkipWs(s, i);
    if j == |s| || s[j] != '"' || !StringAt(s, j + 1).closed then Thrown(TableList)
    else
      var name := StringAt(s, j + 1);
      var names, n := before + [name.text], SkipWs(s, name.end);
      match SeparatorAt(s, name.end, ']')
      case Comma => Prepend(names, NamesAt(s, n + 1))
      case Close => Ok(Parsed(names, n + 1))
      case Neither => Thrown(TableList)
  }

  lemma TakeNamesTurn(s: string, i: nat, before: seq<string>)
    requires i <= |s|
    ensures Prepend(before, NamesAt(s, i)) == NamesTurn(s, i, before)
  {
    hide SkipWs, StringAt, SeparatorAt;
    var j := SkipWs(s, i);
    if j < |s| && s[j] == '"' && StringAt(s, j + 1).closed {
      var name := StringAt(s, j + 1);
      if SeparatorAt(s, name.end, ']') == Comma {
        CommaAt(s, name.end, ']');
        PrependTwice(before, [name.text], NamesAt(s, SkipWs(s, name.end) + 1));
      }
    }
  }

  lemma CommaAt(s: string, i: nat, close: char)
    requires i <= |s| && SeparatorAt(s, i, close) != Neither
    ensures SkipWs(s, i) < |s|
  {}

  method DecodeTableNames(body: string) returns (r: Outcome<seq<string>>)
    ensures r == TableNames(body)
  {
    hide NamesAt, Prepend, SkipWs, StringAt, SeparatorAt;
    var names := [];
    var j := new JsonParser(body);
    var ch := j.Peek();
    if ch != '[' as int {
      return Ok(names);
    }
    j.Expect('[');
    ghost var start := j.i;
    NamesFromSpace(body, start);
    ch := j.Peek();
    if ch == ']' as int {
      return Ok(names);
    }
    PrependNone(NamesAt(body, start));
    while true
      invariant fresh(j) && j.s == body && j.Valid() && j.ok && start <= j.i
      invariant NamesAt(body, start) == Prepend(names, NamesAt(body, j.i))
      decreases |body| - j.i
    {
      TakeNamesTurn(body, j.i, names);
      ch := j.Peek();
      if ch != '"' as int {
        return Thrown(TableList);
      }
      var name := j.ReadStringRaw();
      names := names + [name];
      if !j.ok {
        return Thrown(TableList);
      }
      var sep := j.ReadSeparator(']');
      if sep == Close {
        return Ok(names);
      }
      if sep == Neither {
        return Thrown(TableList);
      }
    }
  }
}
