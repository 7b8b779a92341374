/**
 The get_* scanners. ScanObject is what they do to any byte string; on every body that
 parses, it agrees with parsing first and looking the member up in the tree.
 */
module Lookup {
  import opened Bytes
  import opened Strings
  import opened Numbers
  import opened Grammar
  import opened Walker

  datatype Kind = AString | ANumber | AUnsigned | ABool | AnObject | AnArray

  /** The test a scanner makes on the first byte of a value. */
  predicate Starts(kind: Kind, c: char) {
    match kind
    case AString => c == '"'
    case ANumber => StartsNumber(c)
    case AUnsigned => IsDigit(c)
    case ABool => c == 't' || c == 'f'
    case AnObject => c == '{'
    case AnArray => c == '['
  }

  // ---- Scanning bytes ----

  /** A matching value starts at `at`; or the closing brace was reached; or neither. */
  datatype Scan = Hit(at: nat) | Miss | Bad

  function ScanMembers(s: string, i: nat, key: string, kind: Kind): (r: Scan)
    requires i <= |s|
    ensures r.Hit? ==> i < r.at < |s| && Starts(kind, s[r.at]) && SkipWs(s, r.at) == r.at
    decreases |s| - i
  {
    match AfterName(s, i)
    case None => Bad
    case Some(v) =>
      var j := SkipWs(s, v);
      if NameAt(s, i) == key && j < |s| && Starts(kind, s[j]) then RunOnce(s, v, Space); Hit(j)
      else
        match SkipEnd(s, v)
        case None => Bad
        case Some(e) =>
          var n := SkipWs(s, e);
          if n == |s| then Bad
          else if s[n] == ',' then ScanMembers(s, n + 1, key, kind)
          else if s[n] == '}' then Miss
          else Bad
  }

  function ScanObject(s: string, key: string, kind: Kind): (r: Scan)
    ensures r.Hit? ==> r.at < |s| && Starts(kind, s[r.at]) && SkipWs(s, r.at) == r.at
  {
    var j := SkipWs(s, 0);
    if j == |s| || s[j] != '{' then Bad
    else
      var k := SkipWs(s, j + 1);
      if k < |s| && s[k] == '}' then Bad else ScanMembers(s, j + 1, key, kind)
  }

  // ---- Looking up in trees ----

  predicate IsKind(kind: Kind, t: Tree) {
    match kind
    case AString => t.Str?
    case ANumber => t.Number?
    case AUnsigned => t.Number? && t.x != "" && IsDigit(t.x[0])
    case ABool => t.Word? && t.x != "" && (t.x[0] == 't' || t.x[0] == 'f')
    case AnObject => t.Obj?
    case AnArray => t.Arr?
  }

  /** The first member with the given decoded name and a value of the given kind. */
  function First(ms: seq<Member>, key: string, kind: Kind): (v: Option<Tree>)
    ensures v.Some? ==> IsKind(kind, v.value)
  {
    if ms == [] then None
    else if Meaning(ms[0].name) == key && IsKind(kind, ms[0].item.v) then Some(ms[0].item.v)
    else First(ms[1..], key, kind)
  }

  function Find(t: Tree, key: string, kind: Kind): (v: Option<Tree>)
    ensures v.Some? ==> IsKind(kind, v.value)
  {
    if t.Obj? then First(t.members, key, kind) else None
  }

  // ---- Scanning is looking up ----

  lemma StartsIsKind(s: string, j: nat, kind: Kind)
    requires j < |s| && ParseValue(s, j).Some?
    ensures Starts(kind, s[j]) <==> IsKind(kind, ParseValue(s, j).value.t)
  {
    hide PiecesAt, ParseItems, ParseMembers;
    var p := ParseValue(s, j).value;
    if StartsWord(s[j]) {
      RunSound(s, j, p.end, WordChar);
    } else if StartsNumber(s[j]) {
      RunSound(s, j, p.end, Numeric);
    }
  }

  /** The scanner and the parser see the same name and the same value. */
  lemma MemberSeen(s: string, i: nat)
    requires i <= |s| && ParseMember(s, i).Some?
    ensures var p := ParseMember(s, i).value;
            && AfterName(s, i).Some?
            && NameAt(s, i) == Meaning(p.t.name)
            && var v := AfterName(s, i).value;
            && SkipEnd(s, v).Some?
            && ParseValue(s, SkipWs(s, v)).Some?
            && ParseValue(s, SkipWs(s, v)).value.t == p.t.item.v
            && SkipWs(s, SkipEnd(s, v).value) == p.end
  {
    hide ParseValue, StringAt, PiecesAt, SkipWs;
    MemberByName(s, i);
    StringIsMeaning(s, SkipWs(s, i) + 1);
    ItemByValue(s, AfterName(s, i).value);
  }

  lemma {:induction false} ScanIsFirst(s: string, i: nat, key: string, kind: Kind)
    requires i <= |s| && ParseMembers(s, i).Some?
    ensures var r, v := ScanMembers(s, i, key, kind), First(ParseMembers(s, i).value.t, key, kind);
            && (v.None? ==> r == Miss)
            && (v.Some? ==> r.Hit? && ParseValue(s, r.at).Some? && ParseValue(s, r.at).value.t == v.value)
    decreases |s| - i
  {
    hide ParseMember, ParseValue, SkipEnd, SkipWs, AfterName, NameAt, Starts, IsKind, Meaning;
    var p := ParseMember(s, i).value;
    MemberSeen(s, i);
    var j := SkipWs(s, AfterName(s, i).value);
    if j < |s| {
      StartsIsKind(s, j, kind);
    } else {
      NothingAtEnd(s);
    }
    if s[p.end] == ',' {
      ScanIsFirst(s, p.end + 1, key, kind);
      assert ParseMembers(s, i).value.t[1..] == ParseMembers(s, p.end + 1).value.t;
    } else {
      assert ParseMembers(s, i).value.t[1..] == [];
    }
  }

  lemma NothingAtEnd(s: string)
    ensures ParseValue(s, |s|).None?
  {}

  /** A body that starts with an object. */
  predicate IsObject(body: string) {
    Parse(body).Some? && Parse(body).value.Obj?
  }

  /**
   On every body that starts with an object, well-formed in any layout: a scan of an empty
   object fails; of any other it reaches the first member with the key's decoded name and
   the requested kind, or the closing brace if there is none.
   */
  lemma ScanIsFind(body: string, key: string, kind: Kind)
    requires IsObject(body)
    ensures var r, t := ScanObject(body, key, kind), Parse(body).value;
            && (t.members == [] ==> r == Bad)
            && (t.members != [] && Find(t, key, kind).None? ==> r == Miss)
            && (t.members != [] && Find(t, key, kind).Some? ==>
                  && r.Hit? && ParseValue(body, r.at).Some?
                  && ParseValue(body, r.at).value.t == Find(t, key, kind).value)
  {
    hide ParseMembers, ScanMembers, First, SkipWs, PiecesAt, ParseItems;
    var j := SkipWs(body, 0);
    if Parse(body).value.members != [] {
      ScanIsFirst(body, j + 1, key, kind);
    }
  }

  /** White space before a member changes nothing. */
  lemma ScanSpace(s: string, i: nat, key: string, kind: Kind)
    requires i <= |s|
    ensures ScanMembers(s, SkipWs(s, i), key, kind) == ScanMembers(s, i, key, kind)
  {
    hide SkipEnd, AfterName, NameAt, Run, Starts;
    RunOnce(s, i, Space);
    SameName(s, i, SkipWs(s, i));
  }

  // ---- The fields, on any body ----

  function StringField(body: string, key: string, out: string): (bool, string) {
    match ScanObject(body, key, AString)
    case Hit(at) => (StringAt(body, at + 1).closed, StringAt(body, at + 1).text)
    case Miss => (true, out)
    case Bad => (false, out)
  }

  /** The lexeme get_number converts; None if it writes nothing. */
  function NumberField(body: string, key: string): (bool, Option<string>) {
    match ScanObject(body, key, ANumber)
    case Hit(at) => (true, Some(body[at..Run(body, at, Numeric)]))
    case Miss => (true, None)
    case Bad => (false, None)
  }

  /**
   static_cast<int64_t>(strtod(x)). `cast` stands for the C library on lexemes that are not
   plain integers well inside the range of int64_t.
   */
  function ToInt(x: string, cast: string -> int64): int64 {
    if IsPlain(x) && Abs(PlainValue(x)) <= TWO63 - 513 then
      Binary64Error(PlainValue(x));
      Binary64(PlainValue(x))
    else cast(x)
  }

  function IntField(body: string, key: string, out: int64, cast: string -> int64): (bool, int64) {
    match NumberField(body, key)
    case (false, _) => (false, out)
    case (true, None) => (true, 0)
    case (true, Some(x)) => (true, ToInt(x, cast))
  }

  function UintField(body: string, key: string, out: uint64): (bool, uint64) {
    match ScanObject(body, key, AUnsigned)
    case Hit(at) =>
      (match Strtoull(body[at..Run(body, at, Numeric)])
       case None => (false, out)
       case Some(v) => (true, v))
    case Miss => (true, out)
    case Bad => (false, out)
  }

  function BoolField(body: string, key: string, out: bool): (bool, bool) {
    match ScanObject(body, key, ABool)
    case Hit(at) => (true, body[at..Run(body, at, Alpha)] == "true")
    case Miss => (true, out)
    case Bad => (false, out)
  }

  function RawField(body: string, key: string, kind: Kind, out: string): (bool, string) {
    match ScanObject(body, key, kind)
    case Hit(at) =>
      (match ParseValue(body, at)
       case None => (false, out)
       case Some(p) => (true, body[at..p.end]))
    case Miss => (true, out)
    case Bad => (false, out)
  }

  // ---- The scanners ----

  /** The common start of every scanner: false unless the body opens a non-empty object. */
  method OpenObject(body: string, key: string, kind: Kind) returns (j: JsonParser, more: bool)
    ensures fresh(j) && j.s == body && j.Valid() && j.ok
    ensures !more ==> ScanObject(body, key, kind) == Bad
    ensures more ==> ScanObject(body, key, kind) == ScanMembers(body, j.i, key, kind)
  {
    hide ScanMembers, Run;
    j := new JsonParser(body);
    var ch := j.Peek();
    if ch != '{' as int {
      return j, false;
    }
    RunOnce(body, 0, Space);
    j.Expect('{');
    ScanSpace(body, j.i, key, kind);
    ch := j.Peek();
    more := ch != '}' as int;
  }

  /** The common tail: skips a value that does not match and moves on to the next member. */
  method NextMember(j: JsonParser) returns (more: bool, closed: bool)
    requires j.Valid() && j.ok
    modifies j
    ensures j.Valid() && (more ==> old(j.i) < j.i)
    ensures more ==> j.ok
    ensures var e := SkipEnd(j.s, old(j.i));
            if e.None? then !more && !closed
            else
              var n := SkipWs(j.s, e.value);
              if n < |j.s| && j.s[n] == ',' then more && j.i == n + 1
              else !more && closed == (n < |j.s| && j.s[n] == '}')
  {
    hide SkipEnd, SkipWs;
    j.SkipValue();
    if !j.ok {
      return false, false;
    }
    var ch := j.Peek();
    if ch == ',' as int {
      j.Expect(',');
      return true, false;
    }
    return false, ch == '}' as int;
  }

  method GetString(body: string, key: string, out: string) returns (found: bool, res: string)
    ensures (found, res) == StringField(body, key, out)
  {
    hide ScanObject, SkipEnd, SkipWs, AfterName, NameAt, StringAt;
    var j, more := OpenObject(body, key, AString);
    while more
      invariant fresh(j) && j.s == body && j.Valid()
      invariant more ==> j.ok && ScanObject(body, key, AString) == ScanMembers(body, j.i, key, AString)
      invariant !more ==> ScanObject(body, key, AString) == Bad
      decreases more, |body| - j.i
    {
      var named, k := j.ReadName();
      if !named {
        return false, out;
      }
      SkipWsOnce(body, j.i);
      var ch := j.Peek();
      if k == key && ch == '"' as int {
        res := j.ReadStringRaw();
        return j.ok, res;
      }
      var closed;
      more, closed := NextMember(j);
      if !more {
        return closed, out;
      }
    }
    return false, out;
  }

  /** get_number: the lexeme that strtod converts. */
  method GetNumber(body: string, key: string) returns (found: bool, lexeme: Option<string>)
    ensures (found, lexeme) == NumberField(body, key)
  {
    hide ScanObject, SkipEnd, SkipWs, AfterName, NameAt, Run;
    var j, more := OpenObject(body, key, ANumber);
    while more
      invariant fresh(j) && j.s == body && j.Valid()
      invariant more ==> j.ok && ScanObject(body, key, ANumber) == ScanMembers(body, j.i, key, ANumber)
      invariant !more ==> ScanObject(body, key, ANumber) == Bad
      decreases more, |body| - j.i
    {
      var named, k := j.ReadName();
      if !named {
        return false, None;
      }
      SkipWsOnce(body, j.i);
      var ch := j.Peek();
      if k == key && (ch == '-' as int || '0' as int <= ch <= '9' as int) {
        var num := j.ReadNumberRaw();
        return true, Some(num);
      }
      var closed;
      more, closed := NextMember(j);
      if !more {
        return closed, None;
      }
    }
    return false, None;
  }

  method GetInt(body: string, key: string, out: int64, cast: string -> int64) returns (found: bool, res: int64)
    ensures (found, res) == IntField(body, key, out, cast)
  {
    var some, lexeme := GetNumber(body, key);
    if !some {
      return false, out;
    }
    match lexeme {
      case None => return true, 0;
      case Some(x) => return true, ToInt(x, cast);
    }
  }

  method GetUint64(body: string, key: string, out: uint64) returns (found: bool, res: uint64)
    ensures (found, res) == UintField(body, key, out)
  {
    hide ScanObject, SkipEnd, SkipWs, AfterName, NameAt, Run, Strtoull;
    var j, more := OpenObject(body, key, AUnsigned);
    while more
      invariant fresh(j) && j.s == body && j.Valid()
      invariant more ==> j.ok && ScanObject(body, key, AUnsigned) == ScanMembers(body, j.i, key, AUnsigned)
      invariant !more ==> ScanObject(body, key, AUnsigned) == Bad
      decreases more, |body| - j.i
    {
      var named, k := j.ReadName();
      if !named {
        return false, out;
      }
      SkipWsOnce(body, j.i);
      var ch := j.Peek();
      if k == key && '0' as int <= ch <= '9' as int {
        var raw := j.ReadNumberRaw();
        match Strtoull(raw) {
          case None => return false, out;
          case Some(v) => return true, v;
        }
      }
      var closed;
      more, closed := NextMember(j);
      if !more {
        return closed, out;
      }
    }
    return false, out;
  }

  method GetBool(body: string, key: string, out: bool) returns (found: bool, res: bool)
    ensures (found, res) == BoolField(body, key, out)
  {
    hide ScanObject, SkipEnd, SkipWs, AfterName, NameAt, Run;
    var j, more := OpenObject(body, key, ABool);
    while more
      invariant fresh(j) && j.s == body && j.Valid()
      invariant more ==> j.ok && ScanObject(body, key, ABool) == ScanMembers(body, j.i, key, ABool)
      invariant !more ==> ScanObject(body, key, ABool) == Bad
      decreases more, |body| - j.i
    {
      var named, k := j.ReadName();
      if !named {
        return false, out;
      }
      SkipWsOnce(body, j.i);
      var ch := j.Peek();
      if k == key && (ch == 't' as int || ch == 'f' as int) {
        var v := j.ReadValue();
        return j.ok, v.b;
      }
      var closed;
      more, closed := NextMember(j);
      if !more {
        return closed, out;
      }
    }
    return false, out;
  }

  /** get_object_raw (kind AnObject) and get_array_raw (kind AnArray). */
  method GetRaw(body: string, key: string, kind: Kind, out: string) returns (found: bool, res: string)
    requires kind == AnObject || kind == AnArray
    ensures (found, res) == RawField(body, key, kind, out)
  {
    hide ScanObject, SkipWs, AfterName, NameAt, ParseValue;
    var j, more := OpenObject(body, key, kind);
    var open := if kind == AnObject then '{' else '[';
    while more
      invariant fresh(j) && j.s == body && j.Valid()
      invariant more ==> j.ok && ScanObject(body, key, kind) == ScanMembers(body, j.i, key, kind)
      invariant !more ==> ScanObject(body, key, kind) == Bad
      decreases more, |body| - j.i
    {
      var named, k := j.ReadName();
      if !named {
        return false, out;
      }
      SkipWsOnce(body, j.i);
      var ch := j.Peek();
      if k == key && ch == open as int {
        var start := j.i;
        j.SkipValue();
        if !j.ok {
          return false, out;
        }
        return true, body[start..j.i];
      }
      var closed;
      more, closed := NextMember(j);
      if !more {
        return closed, out;
      }
    }
    return false, out;
  }
}
