/**
 The decoder of query responses on any bytes, malformed ones included, as one flat machine:
 its modes say what may come next, and the mode in which it is stuck says what is thrown.
 */
module RowSteps {
  import opened Bytes
  import opened Numbers
  import opened Grammar
  import opened Values
  import opened Walker
  import opened Lookup
  import opened Rows
  import opened Scans

  datatype Mode =
    | Opened
    | BeforeRow
    | OpenedRow
    | BeforeName
    | OpenedCells
    | BeforeId
    | BeforeValue(id: int64)
    | AfterCell
    | AfterMember
    | AfterRow
    | Finished

  /** The cursor, the rows that are complete, and the cells of the row that is being read. */
  datatype State = State(mode: Mode, i: nat, rows: seq<Row>, row: Row)

  /** The next byte after white space is c. */
  predicate Sees(s: string, i: nat, c: char)
    requires i <= |s|
  {
    SkipWs(s, i) < |s| && s[SkipWs(s, i)] == c
  }

  function After(s: string, i: nat): (j: nat)
    requires i <= |s|
    ensures i < j
    ensures SkipWs(s, i) < |s| ==> j <= |s|
  {
    SkipWs(s, i) + 1
  }

  /** One step; None if nothing that the mode allows comes next. */
  function Next(s: string, st: State): (r: Option<State>)
    requires st.i <= |s|
    ensures r.Some? ==> st.i <= r.value.i <= |s| && (r.value.i == st.i ==> Rank(r.value.mode) < Rank(st.mode))
  {
    var i := st.i;
    match st.mode
    case Opened =>
      if Sees(s, i, ']') then Some(st.(mode := Finished, i := After(s, i))) else Some(st.(mode := BeforeRow))
    case BeforeRow =>
      if Sees(s, i, '{') then Some(st.(mode := OpenedRow, i := After(s, i), row := [])) else None
    case OpenedRow =>
      if Sees(s, i, '}') then Some(State(AfterRow, After(s, i), st.rows + [[]], []))
      else Some(st.(mode := BeforeName))
    case BeforeName => TakeMember(s, st)
    case OpenedCells =>
      if Sees(s, i, ']') then Some(st.(mode := AfterMember, i := After(s, i))) else Some(st.(mode := BeforeId))
    case BeforeId =>
      var j := SkipWs(s, i);
      if j < |s| && StartsNumber(s[j]) then
        var e := Run(s, j, Numeric);
        assert In(s[j], Numeric);
        Some(st.(mode := BeforeValue(Strtoll(s[j..e])), i := if Sees(s, e, ',') then After(s, e) else SkipWs(s, e)))
      else None
    case BeforeValue(id) => TakeValue(s, st, id)
    case AfterCell =>
      if Sees(s, i, ',') then Some(st.(mode := BeforeId, i := After(s, i)))
      else if Sees(s, i, ']') then Some(st.(mode := AfterMember, i := After(s, i)))
      else None
    case AfterMember =>
      if Sees(s, i, ',') then Some(st.(mode := BeforeName, i := After(s, i)))
      else if Sees(s, i, '}') then Some(State(AfterRow, After(s, i), st.rows + [st.row], []))
      else None
    case AfterRow =>
      if Sees(s, i, ',') then Some(st.(mode := BeforeRow, i := After(s, i)))
      else if Sees(s, i, ']') then Some(st.(mode := Finished, i := After(s, i)))
      else None
    case Finished => None
  }

  function TakeValue(s: string, st: State, id: int64): (r: Option<State>)
    requires st.i <= |s|
    ensures r.Some? ==> st.i < r.value.i <= |s|
  {
    match ReadAt(s, st.i)
    case None => None
    case Some(p) => Some(st.(mode := AfterCell, i := p.end, row := st.row + [Cell(id, p.t)]))
  }

  /** An array named cells is entered; any other member is passed over. */
  function TakeMember(s: string, st: State): (r: Option<State>)
    requires st.i <= |s|
    ensures r.Some? ==> st.i < r.value.i <= |s|
  {
    match AfterName(s, st.i)
    case None => None
    case Some(v) =>
      if NameAt(s, st.i) == "cells" && Sees(s, v, '[') then Some(st.(mode := OpenedCells, i := After(s, v)))
      else
        match SkipEnd(s, v)
        case None => None
        case Some(e) => Some(st.(mode := AfterMember, i := e))
  }

  function Rank(m: Mode): nat { if m.Opened? || m.OpenedRow? || m.OpenedCells? then 1 else 0 }

  /** What is thrown when the machine is stuck. */
  function Complaint(m: Mode): Malformed {
    match m
    case Opened | BeforeRow | AfterRow | Finished => Response
    case OpenedRow | BeforeName | AfterMember => InRow
    case OpenedCells | BeforeId | AfterCell => InCells
    case BeforeValue(_) => InCellValue
  }

  /** Steps until the machine has finished or is stuck. */
  function Drive(s: string, st: State): Outcome<seq<Row>>
    requires st.i <= |s|
    decreases |s| - st.i, Rank(st.mode)
  {
    if st.mode.Finished? then Ok(st.rows)
    else
      match Next(s, st)
      case None => Thrown(Complaint(st.mode))
      case Some(next) => Drive(s, next)
  }

  // ---- The loops take its steps ----

  lemma {:induction false} IdDrive(s: string, i: nat, rows: seq<Row>, row: Row)
    requires i <= |s|
    ensures Drive(s, State(BeforeId, i, rows, row))
            == if ColumnAt(s, i).None? then Thrown(InCells)
               else Drive(s, State(BeforeValue(ColumnAt(s, i).value.t), ColumnAt(s, i).value.end, rows, row))
  {
    hide Strtoll, Run;
  }

  lemma {:induction false} ValueDrive(s: string, i: nat, id: int64, rows: seq<Row>, row: Row)
    requires i <= |s|
    ensures Drive(s, State(BeforeValue(id), i, rows, row))
            == if ReadAt(s, i).None? then Thrown(InCellValue)
               else Drive(s, State(AfterCell, ReadAt(s, i).value.end, rows, row + [Cell(id, ReadAt(s, i).value.t)]))
  {
    hide ReadAt, Run;
  }

  lemma {:induction false} AfterCellDrive(s: string, i: nat, rows: seq<Row>, row: Row)
    requires i <= |s|
    ensures var n, d := SkipWs(s, i) + 1, Drive(s, State(AfterCell, i, rows, row));
            match SeparatorAt(s, i, ']')
            case Comma => n <= |s| && d == Drive(s, State(BeforeId, n, rows, row))
            case Close => n <= |s| && d == Drive(s, State(AfterMember, n, rows, row))
            case Neither => d == Thrown(InCells)
  {
    hide Run, In, StartsNumber, TakeMember, TakeValue, Strtoll;
  }

  lemma {:induction false} CellsDrive(s: string, i: nat, rows: seq<Row>, row: Row)
    requires i <= |s|
    ensures Drive(s, State(BeforeId, i, rows, row))
            == if CellsAt(s, i).Thrown? then Thrown(CellsAt(s, i).what)
               else Drive(s, State(AfterMember, CellsAt(s, i).value.end, rows, row + CellsAt(s, i).value.t))
    decreases |s| - i
  {
    hide Drive, ReadAt, ColumnAt, SkipWs;
    IdDrive(s, i, rows, row);
    if ColumnAt(s, i).Some? && ReadAt(s, ColumnAt(s, i).value.end).Some? {
      var c := ColumnAt(s, i).value;
      var p := ReadAt(s, c.end).value;
      var cell := [Cell(c.t, p.t)];
      ValueDrive(s, c.end, c.t, rows, row);
      AfterCellDrive(s, p.end, rows, row + cell);
      if SeparatorAt(s, p.end, ']') == Comma {
        var n := SkipWs(s, p.end) + 1;
        CellsDrive(s, n, rows, row + cell);
        if CellsAt(s, n).Ok? {
          assert row + cell + CellsAt(s, n).value.t == row + (cell + CellsAt(s, n).value.t);
        }
      }
    } else if ColumnAt(s, i).Some? {
      ValueDrive(s, ColumnAt(s, i).value.end, ColumnAt(s, i).value.t, rows, row);
    }
  }

  lemma {:induction false} MemberDrive(s: string, i: nat, rows: seq<Row>, row: Row)
    requires i <= |s|
    ensures Drive(s, State(BeforeName, i, rows, row))
            == if RowMemberAt(s, i).Thrown? then Thrown(RowMemberAt(s, i).what)
               else Drive(s, State(AfterMember, RowMemberAt(s, i).value.end, rows, row + RowMemberAt(s, i).value.t))
  {
    hide CellsAt, SkipEnd, AfterName, NameAt, Run;
    if AfterName(s, i).Some? {
      var v := AfterName(s, i).value;
      NameInside(s, i);
      if NameAt(s, i) == "cells" && Sees(s, v, '[') {
        CellsDrive(s, After(s, v), rows, row);
      }
      assert row + [] == row;
    }
  }

  lemma NameInside(s: string, i: nat)
    requires i <= |s| && AfterName(s, i).Some?
    ensures SkipWs(s, i) < |s|
  {}

  lemma {:induction false} AfterMemberDrive(s: string, i: nat, rows: seq<Row>, row: Row)
    requires i <= |s|
    ensures var n, d := SkipWs(s, i) + 1, Drive(s, State(AfterMember, i, rows, row));
            match SeparatorAt(s, i, '}')
            case Comma => n <= |s| && d == Drive(s, State(BeforeName, n, rows, row))
            case Close => n <= |s| && d == Drive(s, State(AfterRow, n, rows + [row], []))
            case Neither => d == Thrown(InRow)
  {
    hide Run, In, StartsNumber, TakeMember, TakeValue, Strtoll;
  }

  lemma {:induction false} RowDrive(s: string, i: nat, rows: seq<Row>, row: Row)
    requires i <= |s|
    ensures Drive(s, State(BeforeName, i, rows, row))
            == if RowAt(s, i).Thrown? then Thrown(RowAt(s, i).what)
               else Drive(s, State(AfterRow, RowAt(s, i).value.end, rows + [row + RowAt(s, i).value.t], []))
    decreases |s| - i
  {
    hide RowMemberAt, Drive, SkipWs;
    MemberDrive(s, i, rows, row);
    if RowMemberAt(s, i).Ok? {
      var p := RowMemberAt(s, i).value;
      AfterMemberDrive(s, p.end, rows, row + p.t);
      if SeparatorAt(s, p.end, '}') == Comma {
        var n := SkipWs(s, p.end) + 1;
        RowDrive(s, n, rows, row + p.t);
        if RowAt(s, n).Ok? {
          assert row + p.t + RowAt(s, n).value.t == row + (p.t + RowAt(s, n).value.t);
        }
      }
    }
  }

  lemma {:induction false} ObjectDrive(s: string, i: nat, rows: seq<Row>)
    requires i <= |s|
    ensures Drive(s, State(BeforeRow, i, rows, []))
            == if RowObjectAt(s, i).Thrown? then Thrown(RowObjectAt(s, i).what)
               else Drive(s, State(AfterRow, RowObjectAt(s, i).value.end, rows + [RowObjectAt(s, i).value.t], []))
  {
    hide RowAt, Run, In, StartsNumber, TakeMember, TakeValue, Strtoll;
    if Sees(s, i, '{') {
      RowDrive(s, After(s, i), rows, []);
      if RowAt(s, After(s, i)).Ok? {
        assert [] + RowAt(s, After(s, i)).value.t == RowAt(s, After(s, i)).value.t;
      }
    }
  }

  lemma {:induction false} AfterRowDrive(s: string, i: nat, rows: seq<Row>)
    requires i <= |s|
    ensures var n, d := SkipWs(s, i) + 1, Drive(s, State(AfterRow, i, rows, []));
            match SeparatorAt(s, i, ']')
            case Comma => n <= |s| && d == Drive(s, State(BeforeRow, n, rows, []))
            case Close => d == Ok(rows)
            case Neither => d == Thrown(Response)
  {
    hide Run, In, StartsNumber, TakeMember, TakeValue, Strtoll;
  }

  lemma {:induction false} RowsDrive(s: string, i: nat, rows: seq<Row>)
    requires i <= |s|
    ensures Drive(s, State(BeforeRow, i, rows, []))
            == match RowsAt(s, i)
               case Ok(p) => Ok(rows + p.t)
               case Thrown(m) => Thrown(m)
    decreases |s| - i
  {
    hide RowObjectAt, Drive, SkipWs;
    ObjectDrive(s, i, rows);
    if RowObjectAt(s, i).Ok? {
      var p := RowObjectAt(s, i).value;
      AfterRowDrive(s, p.end, rows + [p.t]);
      if SeparatorAt(s, p.end, ']') == Comma {
        var n := SkipWs(s, p.end) + 1;
        RowsDrive(s, n, rows + [p.t]);
        if RowsAt(s, n).Ok? {
          assert rows + [p.t] + RowsAt(s, n).value.t == rows + ([p.t] + RowsAt(s, n).value.t);
        }
      }
    }
  }

  /**
   On any bytes, the nested loops of the decoder do what the machine does from the bracket
   of the array: the same rows if it finishes, the same exception where it is stuck.
   */
  lemma {:induction false} ArrayIsDriven(s: string, i: nat)
    requires i < |s|
    ensures RowArrayAt(s, i) == Drive(s, State(Opened, i + 1, [], []))
  {
    hide RowsAt, Run;
    RowsDrive(s, i + 1, []);
    if RowsAt(s, i + 1).Ok? {
      assert [] + RowsAt(s, i + 1).value.t == RowsAt(s, i + 1).value.t;
    }
  }

  /**
   On any response, query() decodes the first rows array that complete members lead to, as
   the machine does, and returns no rows if there is none, even from a malformed response.
   */
  lemma AnyResponseIsDriven(resp: string)
    ensures forall space, w, at: nat :: Reaches(resp, space, w, at, "rows", AnArray) ==>
              at < |resp| && QueryRows(resp) == Drive(resp, State(Opened, at + 1, [], []))
    ensures (forall space, w, at: nat :: !Reaches(resp, space, w, at, "rows", AnArray)) ==> QueryRows(resp) == Ok([])
  {
    hide Reaches, ScanObject, Drive, RowArrayAt;
    forall space, w, at: nat | Reaches(resp, space, w, at, "rows", AnArray)
      ensures at < |resp| && QueryRows(resp) == Drive(resp, State(Opened, at + 1, [], []))
    {
      ReachedIsHit(resp, space, w, at, "rows", AnArray);
      ArrayIsDriven(resp, at);
    }
    if ScanObject(resp, "rows", AnArray).Hit? {
      var space, w := HitReaches(resp, "rows", AnArray);
    }
  }
}
