/** The response decoders agree with reading the parsed document. */
module RowsLaws {
  import opened Bytes
  import opened Strings
  import opened Numbers
  import opened Grammar
  import opened GrammarLaws
  import opened Values
  import opened Walker
  import opened Lookup
  import opened Fields
  import opened Rows

  // ---- Rows of a document ----

  function Joined<T>(front: seq<T>, rest: Outcome<seq<T>>): Outcome<seq<T>> {
    match rest
    case Ok(v) => Ok(front + v)
    case Thrown(m) => Thrown(m)
  }

  /** Alternating column ids and values. */
  function CellsOf(items: seq<Item>): Outcome<seq<Cell>> {
    if items == [] then Ok([])
    else if !items[0].v.Number? then Thrown(InCells)
    else if |items| == 1 then Thrown(InCellValue)
    else Joined([Cell(Strtoll(items[0].v.x), ValueOf(items[1].v))], CellsOf(items[2..]))
  }

  /** Every array-valued member named cells contributes, in order; others are ignored. */
  function MemberCells(m: Member): Outcome<seq<Cell>> {
    if Meaning(m.name) == "cells" && m.item.v.Arr? then CellsOf(m.item.v.items) else Ok([])
  }

  function RowOf(ms: seq<Member>): Outcome<Row> {
    if ms == [] then Ok([])
    else
      match MemberCells(ms[0])
      case Thrown(m) => Thrown(m)
      case Ok(cells) => Joined(cells, RowOf(ms[1..]))
  }

  function RowsOf(items: seq<Item>): Outcome<seq<Row>> {
    if items == [] then Ok([])
    else if !items[0].v.Obj? then Thrown(Response)
    else
      match RowOf(items[0].v.members)
      case Thrown(m) => Thrown(m)
      case Ok(row) => Joined([row], RowsOf(items[1..]))
  }

  /** One row per object of the first array-valued member named rows. */
  function RowsOfDocument(t: Tree): Outcome<seq<Row>> {
    match Find(t, "rows", AnArray)
    case Some(v) => RowsOf(v.items)
    case None => Ok([])
  }

  // ---- The decoder computes them ----

  /** The outcome of a decoder that stops at e unless it throws. */
  function Until<T>(o: Outcome<T>, e: nat): Step<T> {
    match o
    case Ok(v) => Ok(Parsed(v, e))
    case Thrown(m) => Thrown(m)
  }

  lemma JoinedUntil<T>(front: seq<T>, o: Outcome<seq<T>>, e: nat)
    ensures Prepend(front, Until(o, e)) == Until(Joined(front, o), e)
  {}

  lemma ColumnSeen(s: string, i: nat)
    requires i <= |s| && ParseItem(s, i).Some?
    ensures var p := ParseItem(s, i).value;
            if p.t.v.Number? then
              ColumnAt(s, i)
              == Some(Parsed(Strtoll(p.t.v.x), if p.end < |s| && s[p.end] == ',' then p.end + 1 else p.end))
            else ColumnAt(s, i) == None
  {
    hide PiecesAt, ParseItems, ParseMembers, Run, Strtoll;
  }

  /** read_value on an item: its value, with nothing but white space up to the item's end. */
  lemma ItemRead(s: string, i: nat)
    requires i <= |s| && ParseItem(s, i).Some? && IsKeyword(ParseItem(s, i).value.t.v)
    ensures var p := ParseItem(s, i).value;
            && ReadAt(s, i).Some? && ReadAt(s, i).value.t == ValueOf(p.t.v)
            && SkipWs(s, ReadAt(s, i).value.end) == p.end
  {
    hide ParseValue, ReadAt, ValueOf, SkipWs, IsKeyword;
    ReadIsValueOf(s, i);
  }

  predicate AllKeywords(items: seq<Item>) {
    forall k :: 0 <= k < |items| ==> IsKeyword(items[k].v)
  }

  lemma NoValueAtBracket(s: string, i: nat)
    requires i < |s| && s[i] == ']'
    ensures ReadAt(s, i).None?
  {}

  lemma ItemsStep(s: string, i: nat)
    requires i <= |s| && ParseItems(s, i).Some?
    ensures ParseItem(s, i).Some?
    ensures var p, r := ParseItem(s, i).value, ParseItems(s, i).value;
            && p.end < |s| && r.t[0] == p.t
            && (s[p.end] == ',' || s[p.end] == ']')
            && (s[p.end] == ']' ==> r == Parsed([p.t], p.end + 1))
            && (s[p.end] == ',' ==> ParseItems(s, p.end + 1).Some? && r.t[1..] == ParseItems(s, p.end + 1).value.t
                                    && r.end == ParseItems(s, p.end + 1).value.end)
  {
    hide ParseItem;
    var p := ParseItem(s, i).value;
    if s[p.end] == ',' {
      var rest := ParseItems(s, p.end + 1).value.t;
      assert ([p.t] + rest)[1..] == rest;
    }
  }

  lemma {:induction false} CellsAgree(s: string, i: nat)
    requires i <= |s| && ParseItems(s, i).Some? && AllKeywords(ParseItems(s, i).value.t)
    ensures var r := ParseItems(s, i).value; CellsAt(s, i) == Until(CellsOf(r.t), r.end)
    decreases |s| - i
  {
    hide ParseItem, ParseItems, ColumnAt, ReadAt, SkipWs, IsKeyword, ValueOf, Prepend, Joined;
    ItemsStep(s, i);
    var r, p := ParseItems(s, i).value, ParseItem(s, i).value;
    ColumnSeen(s, i);
    if p.t.v.Number? {
      if s[p.end] == ']' {
        NoValueAtBracket(s, p.end);
      } else {
        ItemsStep(s, p.end + 1);
        var q := ParseItem(s, p.end + 1).value;
        assert r.t[1] == r.t[1..][0] && r.t[2..] == r.t[1..][1..];
        ItemRead(s, p.end + 1);
        var cell := [Cell(Strtoll(p.t.v.x), ValueOf(q.t.v))];
        if s[q.end] == ',' {
          assert AllKeywords(r.t[2..]);
          CellsAgree(s, q.end + 1);
          JoinedUntil(cell, CellsOf(r.t[2..]), r.end);
        } else {
          assert r.t[2..] == [];
          JoinedUntil(cell, Ok([]), r.end);
          PrependToEnd(cell, r.end);
        }
      }
    }
  }

  lemma PrependToEnd<T>(front: seq<T>, e: nat)
    ensures Prepend(front, Until(Ok([]), e)) == Ok(Parsed(front, e))
  {
    assert front + [] == front;
  }

  // Words that read_value meets directly must be keywords; a strict document has no others.

  predicate IsCells(m: Member) { Meaning(m.name) == "cells" && m.item.v.Arr? }

  predicate RowKeywords(ms: seq<Member>) {
    forall k :: 0 <= k < |ms| && IsCells(ms[k]) ==> AllKeywords(ms[k].item.v.items)
  }

  predicate RowsKeywords(items: seq<Item>) {
    forall k :: 0 <= k < |items| && items[k].v.Obj? ==> RowKeywords(items[k].v.members)
  }

  /** An array value: its opening bracket, and its items or the closing bracket. */
  lemma ArrayAt(s: string, j: nat)
    requires j < |s| && s[j] == '[' && ParseValue(s, j).Some?
    ensures var p := ParseValue(s, j).value;
            && p.t.Arr?
            && var k := SkipWs(s, j + 1);
            && (p.t.items == [] <==> k < |s| && s[k] == ']')
            && (p.t.items == [] ==> p.end == k + 1)
            && (p.t.items != [] ==> ParseItems(s, j + 1) == Some(Parsed(p.t.items, p.end)))
  {
    hide ParseItems;
  }

  lemma ObjectAt(s: string, j: nat)
    requires j < |s| && s[j] == '{' && ParseValue(s, j).Some?
    ensures var p := ParseValue(s, j).value;
            && p.t.Obj?
            && var k := SkipWs(s, j + 1);
            && (p.t.members == [] <==> k < |s| && s[k] == '}')
            && (p.t.members == [] ==> p.end == k + 1)
            && (p.t.members != [] ==> ParseMembers(s, j + 1) == Some(Parsed(p.t.members, p.end)))
  {
    hide ParseMembers;
  }

  lemma MembersStep(s: string, i: nat)
    requires i <= |s| && ParseMembers(s, i).Some?
    ensures ParseMember(s, i).Some?
    ensures var p, r := ParseMember(s, i).value, ParseMembers(s, i).value;
            && p.end < |s| && r.t[0] == p.t
            && (s[p.end] == ',' || s[p.end] == '}')
            && (s[p.end] == '}' ==> r == Parsed([p.t], p.end + 1))
            && (s[p.end] == ',' ==> ParseMembers(s, p.end + 1).Some? && r.t[1..] == ParseMembers(s, p.end + 1).value.t
                                    && r.end == ParseMembers(s, p.end + 1).value.end)
  {
    hide ParseMember;
    var p := ParseMember(s, i).value;
    if s[p.end] == ',' {
      var rest := ParseMembers(s, p.end + 1).value.t;
      assert ([p.t] + rest)[1..] == rest;
    }
  }

  lemma NoItemsNoCells()
    ensures CellsOf([]) == Ok([])
  {}

  lemma RowMemberAgrees(s: string, i: nat)
    requires i <= |s| && ParseMember(s, i).Some?
    requires var m := ParseMember(s, i).value.t; IsCells(m) ==> AllKeywords(m.item.v.items)
    ensures var p, r := ParseMember(s, i).value, RowMemberAt(s, i);
            match MemberCells(p.t)
            case Ok(cells) => r.Ok? && r.value.t == cells && SkipWs(s, r.value.end) == p.end
            case Thrown(m) => r == Thrown(m)
  {
    hide ParseMember, ParseItems, ParseValue, AfterName, NameAt, SkipWs, CellsAt, CellsOf, AllKeywords, Meaning;
    MemberSeen(s, i);
    var p, v := ParseMember(s, i).value, AfterName(s, i).value;
    var j := SkipWs(s, v);
    NothingAtEnd(s);
    StartsIsKind(s, j, AnArray);
    if IsCells(p.t) {
      ArrayAt(s, j);
      if p.t.item.v.items != [] {
        CellsAgree(s, j + 1);
      } else {
        NoItemsNoCells();
      }
    }
  }

  lemma {:induction false} RowAgrees(s: string, i: nat)
    requires i <= |s| && ParseMembers(s, i).Some? && RowKeywords(ParseMembers(s, i).value.t)
    ensures var r := ParseMembers(s, i).value; RowAt(s, i) == Until(RowOf(r.t), r.end)
    decreases |s| - i
  {
    hide ParseMember, ParseMembers, RowMemberAt, MemberCells, SkipWs, Prepend, Joined, AllKeywords, Meaning;
    MembersStep(s, i);
    var r, p := ParseMembers(s, i).value, ParseMember(s, i).value;
    assert r.t[0] == p.t;
    RowMemberAgrees(s, i);
    if MemberCells(p.t).Ok? {
      var cells := MemberCells(p.t).value;
      if s[p.end] == ',' {
        forall k | 0 <= k < |r.t[1..]| && IsCells(r.t[1..][k])
          ensures AllKeywords(r.t[1..][k].item.v.items)
        {
          assert r.t[1..][k] == r.t[k + 1];
        }
        RowAgrees(s, p.end + 1);
        JoinedUntil(cells, RowOf(r.t[1..]), r.end);
      } else {
        assert r.t[1..] == [];
        JoinedUntil(cells, Ok([]), r.end);
        PrependToEnd(cells, r.end);
      }
    }
  }

  lemma RowObjectAgrees(s: string, i: nat)
    requires i <= |s| && ParseItem(s, i).Some?
    requires var v := ParseItem(s, i).value.t.v; v.Obj? ==> RowKeywords(v.members)
    ensures var p, r := ParseItem(s, i).value, RowObjectAt(s, i);
            if !p.t.v.Obj? then r == Thrown(Response)
            else
              match RowOf(p.t.v.members)
              case Ok(row) => r.Ok? && r.value.t == row && SkipWs(s, r.value.end) == p.end
              case Thrown(m) => r == Thrown(m)
  {
    hide ParseMembers, ParseValue, SkipWs, RowAt, RowOf, RowKeywords;
    var p, j := ParseItem(s, i).value, SkipWs(s, i);
    NothingAtEnd(s);
    StartsIsKind(s, j, AnObject);
    if s[j] == '{' {
      ObjectAt(s, j);
      if p.t.v.members != [] {
        RowAgrees(s, j + 1);
      } else {
        NoMembersNoCells();
      }
    }
  }

  lemma NoMembersNoCells()
    ensures RowOf([]) == Ok([])
  {}

  lemma {:induction false} RowsAgree(s: string, i: nat)
    requires i <= |s| && ParseItems(s, i).Some? && RowsKeywords(ParseItems(s, i).value.t)
    ensures var r := ParseItems(s, i).value; RowsAt(s, i) == Until(RowsOf(r.t), r.end)
    decreases |s| - i
  {
    hide ParseItem, ParseItems, RowObjectAt, RowOf, SkipWs, Prepend, Joined, RowKeywords;
    ItemsStep(s, i);
    var r, p := ParseItems(s, i).value, ParseItem(s, i).value;
    assert r.t[0] == p.t;
    RowObjectAgrees(s, i);
    if p.t.v.Obj? && RowOf(p.t.v.members).Ok? {
      var row := [RowOf(p.t.v.members).value];
      if s[p.end] == ',' {
        forall k | 0 <= k < |r.t[1..]| && r.t[1..][k].v.Obj?
          ensures RowKeywords(r.t[1..][k].v.members)
        {
          assert r.t[1..][k] == r.t[k + 1];
        }
        RowsAgree(s, p.end + 1);
        JoinedUntil(row, RowsOf(r.t[1..]), r.end);
      } else {
        assert r.t[1..] == [];
        JoinedUntil(row, Ok([]), r.end);
        PrependToEnd(row, r.end);
      }
    }
  }

  lemma MemberIsStrict(m: Member)
    requires StrictMember(m)
    ensures Strict(m.item.v)
  {
    assert StrictItem(m.item);
  }

  lemma StrictHasKeywords(v: Tree)
    requires Strict(v)
    ensures IsKeyword(v)
    ensures v.Arr? ==> AllKeywords(v.items)
    ensures v.Obj? ==> RowKeywords(v.members)
    ensures v.Arr? ==> RowsKeywords(v.items)
  {
    if v.Arr? {
      forall k | 0 <= k < |v.items|
        ensures IsKeyword(v.items[k].v)
        ensures v.items[k].v.Obj? ==> RowKeywords(v.items[k].v.members)
      {
        assert StrictItem(v.items[k]);
        if v.items[k].v.Obj? { StrictHasKeywords(v.items[k].v); }
      }
    } else if v.Obj? {
      forall k | 0 <= k < |v.members| && IsCells(v.members[k])
        ensures AllKeywords(v.members[k].item.v.items)
      {
        MemberIsStrict(v.members[k]);
        StrictHasKeywords(v.members[k].item.v);
      }
    }
  }

  lemma FirstIsStrict(ms: seq<Member>, key: string, kind: Kind)
    requires forall k :: 0 <= k < |ms| ==> StrictMember(ms[k])
    ensures First(ms, key, kind).Some? ==> Strict(First(ms, key, kind).value)
    decreases |ms|
  {
    hide Strict, StrictMember, Meaning, IsKind;
    if ms != [] {
      MemberIsStrict(ms[0]);
      FirstIsStrict(ms[1..], key, kind);
    }
  }

  /** The words that stand for cell values are keywords; any other text in the document may be lenient. */
  predicate CellsAreReadable(t: Tree) {
    var v := Find(t, "rows", AnArray);
    v.Some? ==> RowsKeywords(v.value.items)
  }

  /** Every RFC 8259 object qualifies. */
  lemma StrictCellsAreReadable(t: Tree)
    requires t.Obj? && Strict(t)
    ensures CellsAreReadable(t)
  {
    hide Strict, Find, RowsKeywords;
    if Find(t, "rows", AnArray).Some? {
      RowsMemberIsStrict(t);
      StrictHasKeywords(Find(t, "rows", AnArray).value);
    }
  }

  /**
   For every response that starts with an object, in any layout, the decoder returns, in
   order, one row for each object of the first array-valued rows member, made of its cells
   pairs, ignores all other members at both levels, and throws exactly when an element is
   not an object or a cells array does not alternate numbers and values.
   */
  lemma QueryRowsAreDocumentRows(resp: string)
    requires IsObject(resp) && CellsAreReadable(Parse(resp).value)
    ensures QueryRows(resp) == RowsOfDocument(Parse(resp).value)
  {
    hide Parse, ScanObject, ParseValue, ParseItems, RowsAt, RowsOf, RowsKeywords, SkipWs;
    var t := Parse(resp).value;
    ScanIsFind(resp, "rows", AnArray);
    EmptyHasNone(resp, "rows", AnArray);
    if Find(t, "rows", AnArray).Some? {
      var v := Find(t, "rows", AnArray).value;
      var at := ScanObject(resp, "rows", AnArray).at;
      ArrayAt(resp, at);
      if v.items != [] {
        RowsAgree(resp, at + 1);
      } else {
        NoItemsNoRows();
      }
    }
  }

  lemma NoItemsNoRows()
    ensures RowsOf([]) == Ok([])
  {}

  lemma RowsMemberIsStrict(t: Tree)
    requires t.Obj? && Strict(t) && Find(t, "rows", AnArray).Some?
    ensures Strict(Find(t, "rows", AnArray).value)
  {
    FirstIsStrict(t.members, "rows", AnArray);
  }

  /** The decoder does not insist on the comma between a column id and its value. */
  lemma MissingCommaIsAccepted()
    ensures CellArrayAt("[1 2]", 0) == Ok(Parsed([Cell(1, Int64(2))], 5))
  {
    hide CellsAt;
    var s := "[1 2]";
    assert SkipWs(s, 1) == 1;
    OneColumn(s);
    OneValue(s);
    assert CellsAt(s, 1) == Ok(Parsed([Cell(1, Int64(2))], 5)) by { OneCell(s); }
  }

  lemma OneColumn(s: string)
    requires s == "[1 2]"
    ensures ColumnAt(s, 1) == Some(Parsed(1, 3))
  {
    assert Run(s, 1, Numeric) == 2 && SkipWs(s, 1) == 1 && Run(s, 3, Space) == 3;
    assert SkipWs(s, 2) == 3;
    assert s[1..2] == "1" && IntText(1) == "1";
    StrtollInverse(1);
  }

  lemma OneValue(s: string)
    requires s == "[1 2]"
    ensures ReadAt(s, 3) == Some(Parsed(Int64(2), 4))
  {
    hide ParseValue, StringAt;
    assert SkipWs(s, 3) == 3 && Run(s, 3, Numeric) == 4;
    assert s[3..4] == "2" && IntText(2) == "2";
    StrtollInverse(2);
    MarksAre("2");
  }

  lemma OneCell(s: string)
    requires s == "[1 2]" && ColumnAt(s, 1) == Some(Parsed(1, 3)) && ReadAt(s, 3) == Some(Parsed(Int64(2), 4))
    ensures CellsAt(s, 1) == Ok(Parsed([Cell(1, Int64(2))], 5))
  {
    hide ColumnAt, ReadAt;
    assert SkipWs(s, 4) == 4;
  }

  // ---- Table lists ----

  function NamesOf(items: seq<Item>): Outcome<seq<string>> {
    if items == [] then Ok([])
    else if !items[0].v.Str? then Thrown(TableList)
    else Joined([Meaning(items[0].v.ps)], NamesOf(items[1..]))
  }

  /** A string item: what the reader returns, and the item's end after white space. */
  lemma NameItem(s: string, i: nat)
    requires i <= |s| && ParseItem(s, i).Some?
    ensures var p, j := ParseItem(s, i).value, SkipWs(s, i);
            && j < |s|
            && (p.t.v.Str? <==> s[j] == '"')
            && (p.t.v.Str? ==>
                  && StringAt(s, j + 1).closed && StringAt(s, j + 1).text == Meaning(p.t.v.ps)
                  && SkipWs(s, StringAt(s, j + 1).end) == p.end)
  {
    hide StringAt, PiecesAt, ParseItems, ParseMembers, Run;
    NothingAtEnd(s);
    StringIsMeaning(s, SkipWs(s, i) + 1);
  }

  lemma {:induction false} NamesAgree(s: string, i: nat)
    requires i <= |s| && ParseItems(s, i).Some?
    ensures var r := ParseItems(s, i).value; NamesAt(s, i) == Until(NamesOf(r.t), r.end)
    decreases |s| - i
  {
    hide ParseItem, ParseItems, StringAt, SkipWs, Prepend, Joined, Meaning;
    ItemsStep(s, i);
    NameItem(s, i);
    var r, p := ParseItems(s, i).value, ParseItem(s, i).value;
    assert r.t[0] == p.t;
    if p.t.v.Str? {
      var name := [Meaning(p.t.v.ps)];
      if s[p.end] == ',' {
        NamesAgree(s, p.end + 1);
        JoinedUntil(name, NamesOf(r.t[1..]), r.end);
      } else {
        assert r.t[1..] == [];
        JoinedUntil(name, Ok([]), r.end);
        PrependToEnd(name, r.end);
      }
    }
  }

  /** Names are only returned from a complete array. */
  lemma {:induction false} NamesNeedItems(s: string, i: nat)
    requires i <= |s| && NamesAt(s, i).Ok?
    ensures ParseItems(s, i).Some?
    decreases |s| - i
  {
    hide StringAt, SkipWs, ParseItem, ParseValue;
    var j := SkipWs(s, i);
    var e := StringAt(s, j + 1).end;
    NameParses(s, i);
    if s[SkipWs(s, e)] == ',' { NamesNeedItems(s, SkipWs(s, e) + 1); }
  }

  lemma NameParses(s: string, i: nat)
    requires i <= |s|
    requires var j := SkipWs(s, i); j < |s| && s[j] == '"' && StringAt(s, j + 1).closed
    ensures ParseItem(s, i).Some?
    ensures ParseItem(s, i).value.end == SkipWs(s, StringAt(s, SkipWs(s, i) + 1).end)
  {
    hide StringAt, PiecesAt, Run, ParseItems, ParseMembers;
    StringIsMeaning(s, SkipWs(s, i) + 1);
  }

  /**
   On any body: no names unless it starts with an opening bracket; otherwise the strings of
   the array, decoded, in order, or an exception if it is no complete array of strings.
   */
  lemma TableNamesAreDocumentNames(body: string)
    ensures var j := SkipWs(body, 0);
            TableNames(body)
            == if j == |body| || body[j] != '[' then Ok([])
               else if Parse(body).Some? && Parse(body).value.Arr? then NamesOf(Parse(body).value.items)
               else Thrown(TableList)
  {
    hide ParseItems, NamesAt, SkipWs;
    var j := SkipWs(body, 0);
    if j < |body| && body[j] == '[' {
      if Parse(body).Some? {
        ArrayAt(body, j);
        if Parse(body).value.items != [] { NamesAgree(body, j + 1); }
      } else {
        NamesThrow(body, j + 1);
      }
    }
  }

  lemma NamesThrow(s: string, i: nat)
    requires 0 < i <= |s| && s[i - 1] == '[' && ParseValue(s, i - 1).None?
    ensures NamesAt(s, i) == Thrown(TableList)
    ensures !(SkipWs(s, i) < |s| && s[SkipWs(s, i)] == ']')
  {
    hide ParseItems, NamesAt, SkipWs;
    if NamesAt(s, i).Ok? {
      NamesNeedItems(s, i);
    } else {
      OnlyTableList(s, i);
    }
  }

  lemma {:induction false} OnlyTableList(s: string, i: nat)
    requires i <= |s| && NamesAt(s, i).Thrown?
    ensures NamesAt(s, i) == Thrown(TableList)
    decreases |s| - i
  {
    hide StringAt, SkipWs;
    var j := SkipWs(s, i);
    if j < |s| && s[j] == '"' && StringAt(s, j + 1).closed {
      var n := SkipWs(s, StringAt(s, j + 1).end);
      if n < |s| && s[n] == ',' && NamesAt(s, n + 1).Thrown? { OnlyTableList(s, n + 1); }
    }
  }

  /** A response that starts with any other value has no rows. */
  lemma NoObjectNoRows(resp: string)
    requires Parse(resp).Some? && !Parse(resp).value.Obj?
    ensures QueryRows(resp) == Ok([])
  {
    hide ParseMembers, SkipWs, ScanMembers;
    NothingAtEnd(resp);
    StartsIsKind(resp, SkipWs(resp, 0), AnObject);
  }
}
