/** The mutable JSON walker: a cursor and a failure flag over a fixed byte string. */
module Walker {
  import opened Bytes
  import opened Unicode
  import opened Strings
  import opened Numbers
  import opened Grammar
  import opened Values

  /** peek()'s result at i: the next byte after white space, or -1 at the end. */
  function PeekAt(s: string, i: nat): int
    requires i <= |s|
  {
    if SkipWs(s, i) < |s| then s[SkipWs(s, i)] as int else -1
  }

  /** Where skip_value stops when it succeeds from i. */
  function SkipEnd(s: string, i: nat): (e: Option<nat>)
    requires i <= |s|
    ensures e.Some? ==> i < e.value <= |s|
  {
    match ParseValue(s, SkipWs(s, i))
    case None => None
    case Some(p) => Some(p.end)
  }

  /** Where the rest of an array ends, from the start of an item. */
  function ItemsEnd(s: string, i: nat): Option<nat>
    requires i <= |s|
  {
    match ParseItems(s, i)
    case None => None
    case Some(p) => Some(p.end)
  }

  /** Where the rest of an object ends, from the start of a member. */
  function MembersEnd(s: string, i: nat): Option<nat>
    requires i <= |s|
  {
    match ParseMembers(s, i)
    case None => None
    case Some(p) => Some(p.end)
  }

  /** Skipping white space first makes no difference. */
  lemma SkipWsOnce(s: string, i: nat)
    requires i <= |s|
    ensures SkipWs(s, SkipWs(s, i)) == SkipWs(s, i)
    ensures SkipEnd(s, SkipWs(s, i)) == SkipEnd(s, i)
    ensures ItemsEnd(s, SkipWs(s, i)) == ItemsEnd(s, i)
    ensures MembersEnd(s, SkipWs(s, i)) == MembersEnd(s, i)
  {
    hide ParseValue, Run, ItemsEnd, MembersEnd, StringAt;
    var j := SkipWs(s, i);
    RunOnce(s, i, Space);
    ItemsByNext(s, i);
    ItemsByNext(s, j);
    MembersByNext(s, i);
    MembersByNext(s, j);
    SameAfter(s, i, j);
  }

  lemma SameName(s: string, i: nat, j: nat)
    requires i <= |s| && j <= |s| && SkipWs(s, i) == SkipWs(s, j)
    ensures AfterName(s, i) == AfterName(s, j)
    ensures SkipWs(s, i) < |s| ==> NameAt(s, i) == NameAt(s, j)
  {
    hide StringAt, SkipWs;
  }

  lemma SameAfter(s: string, i: nat, j: nat)
    requires i <= |s| && j <= |s| && SkipWs(s, i) == SkipWs(s, j) && SkipEnd(s, i) == SkipEnd(s, j)
    ensures AfterItem(s, i) == AfterItem(s, j)
    ensures AfterMember(s, i) == AfterMember(s, j)
  {
    hide SkipEnd, SkipWs, ItemsEnd, MembersEnd, AfterName;
    SameName(s, i, j);
  }

  /** The value at i, by its first byte. */
  lemma SkipByFirst(s: string, i: nat)
    requires i <= |s| && SkipWs(s, i) == i
    ensures i == |s| ==> SkipEnd(s, i) == None
    ensures i < |s| && s[i] == '"' ==>
              SkipEnd(s, i) == if StringAt(s, i + 1).closed then Some(StringAt(s, i + 1).end) else None
    ensures i < |s| && s[i] == '[' ==>
              var j := SkipWs(s, i + 1);
              SkipEnd(s, i) == if j < |s| && s[j] == ']' then Some(j + 1) else ItemsEnd(s, i + 1)
    ensures i < |s| && s[i] == '{' ==>
              var j := SkipWs(s, i + 1);
              SkipEnd(s, i) == if j < |s| && s[j] == '}' then Some(j + 1) else MembersEnd(s, i + 1)
    ensures i < |s| && StartsWord(s[i]) ==> SkipEnd(s, i) == Some(Run(s, i, WordChar))
    ensures i < |s| && StartsNumber(s[i]) ==> SkipEnd(s, i) == Some(Run(s, i, Numeric))
    ensures i < |s| && s[i] !in "\"[{" && !StartsWord(s[i]) && !StartsNumber(s[i]) ==> SkipEnd(s, i) == None
  {
    hide StringAt, PiecesAt, ParseItems, ParseMembers, SkipWs;
    if i < |s| && s[i] == '"' {
      StringIsMeaning(s, i + 1);
    }
  }

  /** An array goes on after a comma and ends with a bracket. */
  lemma ItemsByNext(s: string, i: nat)
    requires i <= |s|
    ensures ItemsEnd(s, i) == AfterItem(s, i)
  {
    hide ParseItem, SkipEnd, SkipWs;
    ItemByValue(s, i);
  }

  function AfterItem(s: string, i: nat): Option<nat>
    requires i <= |s|
  {
    match SkipEnd(s, i)
    case None => None
    case Some(e) =>
      var n := SkipWs(s, e);
      if n == |s| then None
      else if s[n] == ',' then ItemsEnd(s, n + 1)
      else if s[n] == ']' then Some(n + 1)
      else None
  }

  /** An object goes on after a comma and ends with a brace. */
  lemma MembersByNext(s: string, i: nat)
    requires i <= |s|
    ensures MembersEnd(s, i) == AfterMember(s, i)
  {
    hide ParseItem, ParseValue, SkipWs, AfterName;
    MemberByName(s, i);
    if AfterName(s, i).Some? {
      ItemByValue(s, AfterName(s, i).value);
    }
  }

  lemma MemberByName(s: string, i: nat)
    requires i <= |s|
    ensures ParseMember(s, i).Some? <==>
              AfterName(s, i).Some? && ParseItem(s, AfterName(s, i).value).Some?
    ensures ParseMember(s, i).Some? ==>
              ParseMember(s, i).value.end == ParseItem(s, AfterName(s, i).value).value.end
  {
    hide ParseItem, StringAt, PiecesAt, SkipWs;
    var j := SkipWs(s, i);
    if j < |s| && s[j] == '"' {
      StringIsMeaning(s, j + 1);
    }
  }

  lemma ItemByValue(s: string, i: nat)
    requires i <= |s|
    ensures ParseItem(s, i).Some? <==> SkipEnd(s, i).Some?
    ensures ParseItem(s, i).Some? ==> ParseItem(s, i).value.end == SkipWs(s, SkipEnd(s, i).value)
  {
    hide ParseValue, SkipWs;
  }

  /** Where the value of the member at i starts, after its name and colon. */
  function AfterName(s: string, i: nat): (v: Option<nat>)
    requires i <= |s|
    ensures v.Some? ==> i < v.value <= |s|
  {
    var j := SkipWs(s, i);
    if j == |s| || s[j] != '"' || !StringAt(s, j + 1).closed then None
    else
      var k := SkipWs(s, StringAt(s, j + 1).end);
      if k == |s| || s[k] != ':' then None else Some(k + 1)
  }

  /** The decoded name of the member at i. */
  function NameAt(s: string, i: nat): string
    requires i <= |s| && SkipWs(s, i) < |s|
  {
    StringAt(s, SkipWs(s, i) + 1).text
  }

  function AfterMember(s: string, i: nat): Option<nat>
    requires i <= |s|
  {
    match AfterName(s, i)
    case None => None
    case Some(v) =>
      match SkipEnd(s, v)
      case None => None
      case Some(e) =>
        var n := SkipWs(s, e);
        if n == |s| then None
        else if s[n] == ',' then MembersEnd(s, n + 1)
        else if s[n] == '}' then Some(n + 1)
        else None
  }

  lemma OrdinaryUnit(s: string, i: nat)
    requires i < |s|
    ensures s[i] != '\\' || i + 1 == |s| ==> UnitAt(s, i) == Unit([s[i]], i + 1)
  {}

  /** What separates the elements of a sequence. */
  datatype Separator = Comma | Close | Neither

  function SeparatorAt(s: string, i: nat, close: char): Separator
    requires i <= |s|
  {
    var n := SkipWs(s, i);
    if n == |s| then Neither else if s[n] == ',' then Comma else if s[n] == close then Close else Neither
  }

  class JsonParser {
    const s: string
    var i: nat
    var ok: bool

    ghost predicate Valid()
      reads this
    {
      i <= |s|
    }

    constructor (text: string)
      ensures Valid() && s == text && i == 0 && ok
    {
      s := text;
      i := 0;
      ok := true;
    }

    method SkipSpace()
      requires Valid()
      modifies this
      ensures Valid() && i == SkipWs(s, old(i)) && ok == old(ok)
    {
      while i < |s| && (s[i] == ' ' || s[i] == '\t' || s[i] == '\n' || s[i] == '\r')
        invariant Valid() && ok == old(ok)
        invariant SkipWs(s, i) == SkipWs(s, old(i))
      {
        i := i + 1;
      }
    }

    method Peek() returns (ch: int)
      requires Valid()
      modifies this
      ensures Valid() && i == SkipWs(s, old(i)) && ok == old(ok)
      ensures ch == PeekAt(s, old(i)) && SkipWs(s, i) == i
    {
      RunOnce(s, i, Space);
      SkipSpace();
      if i < |s| {
        ch := s[i] as int;
      } else {
        ch := -1;
      }
    }

    method Expect(c: char)
      requires Valid()
      modifies this
      ensures Valid()
      ensures var j := SkipWs(s, old(i));
              if j < |s| && s[j] == c then i == j + 1 && ok == old(ok) else i == j && !ok
    {
      SkipSpace();
      if i < |s| && s[i] == c {
        i := i + 1;
        return;
      }
      ok := false;
    }

    /** The four characters after \u, non-hexadecimal ones counting as 0. */
    method ReadHex4() returns (cp: int)
      requires Valid() && i + 4 <= |s|
      modifies this`i
      ensures i == old(i) + 4 && i <= |s| && cp == Hex4(s[old(i)..i])
    {
      cp := 0;
      var k := 0;
      while k < 4
        invariant 0 <= k <= 4 && i == old(i) + k
        invariant k == 0 ==> cp == 0
        invariant k == 1 ==> cp == HexValue(s[old(i)])
        invariant k == 2 ==> cp == HexValue(s[old(i)]) * 16 + HexValue(s[old(i) + 1])
        invariant k == 3 ==> cp == (HexValue(s[old(i)]) * 16 + HexValue(s[old(i) + 1])) * 16 + HexValue(s[old(i) + 2])
        invariant k == 4 ==> cp == Hex4(s[old(i)..old(i) + 4])
      {
        var h := s[i];
        i := i + 1;
        cp := cp * 16;
        if '0' <= h <= '9' {
          cp := cp + (h as int - '0' as int);
        } else if 'a' <= h <= 'f' {
          cp := cp + (h as int - 'a' as int + 10);
        } else if 'A' <= h <= 'F' {
          cp := cp + (h as int - 'A' as int + 10);
        }
        k := k + 1;
      }
    }

    /** Looks ahead, from the cursor, for the escaped low half of a surrogate pair. */
    method FindLowHalf() returns (found: bool, lo: int)
      requires Valid()
      ensures found <==> LowHalfAt(s, i).Some?
      ensures found ==> lo == LowHalfAt(s, i).value
    {
      found, lo := false, 0;
      if i + 6 <= |s| && s[i] == '\\' && s[i + 1] == 'u' {
        ghost var digits := s[i + 2..i + 6];
        var j, k, hexOk := i + 2, 0, true;
        while k < 4
          invariant 0 <= k <= 4 && hexOk && j == i + 2 + k
          invariant AllHex(digits[..k])
          invariant k == 0 ==> lo == 0
          invariant k == 1 ==> lo == HexValue(digits[0])
          invariant k == 2 ==> lo == HexValue(digits[0]) * 16 + HexValue(digits[1])
          invariant k == 3 ==> lo == (HexValue(digits[0]) * 16 + HexValue(digits[1])) * 16 + HexValue(digits[2])
          invariant k == 4 ==> lo == Hex4(digits)
        {
          var h := s[j];
          assert h == digits[k];
          j := j + 1;
          lo := lo * 16;
          if '0' <= h <= '9' {
            lo := lo + (h as int - '0' as int);
          } else if 'a' <= h <= 'f' {
            lo := lo + (h as int - 'a' as int + 10);
          } else if 'A' <= h <= 'F' {
            lo := lo + (h as int - 'A' as int + 10);
          } else {
            hexOk := false;
            break;
          }
          k := k + 1;
        }
        assert hexOk ==> digits[..4] == digits;
        assert hexOk <==> AllHex(digits);
        found := hexOk && 0xDC00 <= lo <= 0xDFFF;
      }
    }

    /** Decodes one \u escape, the cursor being on its first digit. */
    method ReadUnicodeEscape() returns (out: string)
      requires Valid() && i + 4 <= |s|
      modifies this`i
      ensures Valid() && Unit(out, i) == EscapeAt(s, old(i))
    {
      hide Hex4, Utf8;
      var cp := ReadHex4();
      if 0xD800 <= cp <= 0xDBFF {
        var found, lo := FindLowHalf();
        if found {
          cp := 0x10000 + (cp - 0xD800) * 1024 + (lo - 0xDC00);
          i := i + 6;
        } else {
          cp := 0xFFFD;
        }
      } else if 0xDC00 <= cp <= 0xDFFF {
        cp := 0xFFFD;
      }
      out := AppendUtf8("", cp);
    }

    /** Decodes one escape, the cursor being just after its backslash. */
    method ReadEscape() returns (unit: string)
      requires Valid() && 0 < i < |s| && s[i - 1] == '\\'
      modifies this`i
      ensures Valid() && Unit(unit, i) == UnitAt(s, old(i) - 1)
    {
      hide EscapeAt;
      var n := s[i];
      i := i + 1;
      if n == 'b' {
        unit := [8 as char];
      } else if n == 'f' {
        unit := [12 as char];
      } else if n == 'n' {
        unit := "\n";
      } else if n == 'r' {
        unit := "\r";
      } else if n == 't' {
        unit := "\t";
      } else if n == 'u' {
        unit := "";
        if i + 4 <= |s| {
          unit := ReadUnicodeEscape();
        }
      } else {
        unit := [n];
      }
    }

    static method AppendUtf8(out: string, cp: CodePoint) returns (r: string)
      ensures r == out + Utf8(cp)
    {
      r := out;
      if cp < 0x80 {
        r := r + [cp as char];
      } else if cp < 0x800 {
        r := r + [(0xC0 + cp / 64) as char];
        r := r + [(0x80 + cp % 64) as char];
      } else if cp < 0x10000 {
        r := r + [(0xE0 + cp / 4096) as char];
        r := r + [(0x80 + cp / 64 % 64) as char];
        r := r + [(0x80 + cp % 64) as char];
      } else {
        r := r + [(0xF0 + cp / 262144) as char];
        r := r + [(0x80 + cp / 4096 % 64) as char];
        r := r + [(0x80 + cp / 64 % 64) as char];
        r := r + [(0x80 + cp % 64) as char];
      }
    }

    /** Reads a string body, the cursor being on its opening quote. */
    method ReadStringRaw() returns (out: string)
      requires Valid() && i < |s|
      modifies this
      ensures Valid()
      ensures var t := StringAt(s, old(i) + 1);
              out == t.text && i == t.end && ok == (old(ok) && t.closed)
    {
      hide UnitAt;
      out := "";
      i := i + 1;
      while i < |s|
        invariant Valid() && ok == old(ok)
        invariant var t := StringAt(s, i);
                  StringAt(s, old(i) + 1) == Token(out + t.text, t.end, t.closed)
        decreases |s| - i
      {
        ghost var start := i;
        var c := s[i];
        i := i + 1;
        if c == '"' {
          return;
        }
        var unit := [c];
        if c == '\\' && i < |s| {
          unit := ReadEscape();
        }
        assert Unit(unit, i) == UnitAt(s, start) by { OrdinaryUnit(s, start); }
        assert (out + unit) + StringAt(s, i).text == out + (unit + StringAt(s, i).text);
        out := out + unit;
      }
      ok := false;
    }

    method ReadNumberRaw() returns (num: string)
      requires Valid()
      modifies this`i
      ensures Valid() && i == Run(s, old(i), Numeric) && num == s[old(i)..i]
    {
      var start := i;
      while i < |s|
        invariant start <= i <= |s| && Run(s, i, Numeric) == Run(s, start, Numeric)
      {
        var c := s[i];
        if '0' <= c <= '9' || c == '-' || c == '+' || c == '.' || c == 'e' || c == 'E' {
          i := i + 1;
        } else {
          break;
        }
      }
      num := s[start..i];
    }

    /**
     Skips a whole value. The call succeeds exactly when the reference parser finds a value
     at the cursor, and then stops where that value ends. It never moves the cursor back and
     never sets the flag.
     */
    method SkipValue()
      requires Valid()
      modifies this
      ensures Valid() && old(i) <= i
      ensures ok <==> old(ok) && SkipEnd(s, old(i)).Some?
      ensures ok ==> i == SkipEnd(s, old(i)).value
      decreases |s| - i
    {
      hide StringAt, SkipEnd, ItemsEnd, MembersEnd, SkipWs;
      SkipWsOnce(s, i);
      var ch := Peek();
      SkipByFirst(s, i);
      if ch == '"' as int {
        var _ := ReadStringRaw();
      } else if ch == '{' as int {
        SkipObject();
      } else if ch == '[' as int {
        SkipArray();
      } else if ch == 't' as int || ch == 'f' as int || ch == 'n' as int {
        ghost var start := i;
        while i < |s|
          invariant start <= i <= |s| && ok == old(ok) && Run(s, i, WordChar) == Run(s, start, WordChar)
        {
          var c := s[i];
          if 'a' <= c <= 'z' || 'A' <= c <= 'Z' || c == '_' {
            i := i + 1;
          } else {
            break;
          }
        }
      } else if ch == '-' as int || '0' as int <= ch <= '9' as int {
        var _ := ReadNumberRaw();
      } else {
        ok := false;
      }
    }

    /** The array case of skip_value, the cursor being on the opening bracket. */
    method SkipArray()
      requires Valid() && i < |s| && s[i] == '[' && SkipWs(s, i) == i
      modifies this
      ensures Valid() && old(i) <= i
      ensures ok <==> old(ok) && SkipEnd(s, old(i)).Some?
      ensures ok ==> i == SkipEnd(s, old(i)).value
      decreases |s| - i, 0
    {
      hide SkipEnd, ItemsEnd, SkipWs;
      SkipByFirst(s, i);
      ghost var start := i + 1;
      SkipWsOnce(s, start);
      i := i + 1;
      SkipSpace();
      var ch := Peek();
      if ch == ']' as int {
        i := i + 1;
        return;
      }
      while true
        invariant Valid() && start <= i && ok == old(ok)
        invariant ItemsEnd(s, start) == ItemsEnd(s, i)
        decreases |s| - i
      {
        ItemsByNext(s, i);
        SkipValue();
        if !ok {
          return;
        }
        var n := Peek();
        if n == ',' as int {
          i := i + 1;
          continue;
        }
        if n == ']' as int {
          i := i + 1;
          return;
        }
        ok := false;
        return;
      }
    }

    /** Consumes a comma or the closing bracket. */
    method ReadSeparator(close: char) returns (sep: Separator)
      requires Valid() && ok
      modifies this
      ensures Valid() && old(i) <= i && sep == SeparatorAt(s, old(i), close)
      ensures sep != Neither ==> ok && SkipWs(s, old(i)) < |s| && i == SkipWs(s, old(i)) + 1
    {
      hide SkipWs;
      var ch := Peek();
      if ch == ',' as int {
        Expect(',');
        return Comma;
      }
      if ch == close as int {
        Expect(close);
        return Close;
      }
      return Neither;
    }

    /** Reads a member's name and colon; named is false if there is none or it is malformed. */
    method ReadName() returns (named: bool, name: string)
      requires Valid() && ok
      modifies this
      ensures Valid() && old(i) <= i
      ensures named <==> AfterName(s, old(i)).Some?
      ensures named ==> i == AfterName(s, old(i)).value && ok && name == NameAt(s, old(i))
    {
      hide StringAt, SkipWs;
      name := "";
      var ch := Peek();
      if ch != '"' as int {
        return false, name;
      }
      name := ReadStringRaw();
      if !ok {
        return false, name;
      }
      Expect(':');
      named := ok;
    }

    /** Skips a member's name and colon; false if there is no name. */
    method SkipName() returns (named: bool)
      requires Valid()
      modifies this
      ensures Valid() && old(i) <= i && (named ==> old(i) < i)
      ensures ok <==> old(ok) && AfterName(s, old(i)).Some?
      ensures ok ==> named && i == AfterName(s, old(i)).value
    {
      var ch := Peek();
      named := ch == '"' as int;
      if !named {
        ok := false;
        return;
      }
      var _ := ReadStringRaw();
      Expect(':');
    }

    /** The object case of skip_value, the cursor being on the opening bracket. */
    method SkipObject()
      requires Valid() && i < |s| && s[i] == '{' && SkipWs(s, i) == i
      modifies this
      ensures Valid() && old(i) <= i
      ensures ok <==> old(ok) && SkipEnd(s, old(i)).Some?
      ensures ok ==> i == SkipEnd(s, old(i)).value
      decreases |s| - i, 0
    {
      hide SkipEnd, MembersEnd, SkipWs, AfterName;
      SkipByFirst(s, i);
      ghost var start := i + 1;
      SkipWsOnce(s, start);
      i := i + 1;
      SkipSpace();
      var ch := Peek();
      if ch == '}' as int {
        i := i + 1;
        return;
      }
      while true
        invariant Valid() && start <= i && ok == old(ok)
        invariant MembersEnd(s, start) == MembersEnd(s, i)
        decreases |s| - i
      {
        MembersByNext(s, i);
        var named := SkipName();
        if !named {
          return;
        }
        SkipValue();
        if !ok {
          return;
        }
        var n := Peek();
        if n == ',' as int {
          i := i + 1;
          continue;
        }
        if n == '}' as int {
          i := i + 1;
          return;
        }
        ok := false;
        return;
      }
    }

    /** The literal case of read_value: the letters at the cursor. */
    method ReadLetters() returns (lit: string)
      requires Valid()
      modifies this`i
      ensures Valid() && i == Run(s, old(i), Alpha) && lit == s[old(i)..i]
    {
      var start := i;
      while i < |s| && ('a' <= s[i] <= 'z' || 'A' <= s[i] <= 'Z')
        invariant start <= i <= |s| && Run(s, i, Alpha) == Run(s, start, Alpha)
      {
        i := i + 1;
      }
      lit := s[start..i];
    }

    /** The null case of read_value: the lower-case letters at the cursor. */
    method SkipLower()
      requires Valid()
      modifies this`i
      ensures Valid() && i == Run(s, old(i), Lower)
    {
      ghost var start := i;
      while i < |s| && 'a' <= s[i] <= 'z'
        invariant start <= i <= |s| && Run(s, i, Lower) == Run(s, start, Lower)
      {
        i := i + 1;
      }
    }

    /** Reads the value at the cursor. */
    method ReadValue() returns (v: Value)
      requires Valid()
      modifies this
      ensures Valid() && old(i) <= i
      ensures ok <==> old(ok) && ReadAt(s, old(i)).Some?
      ensures ok ==> Parsed(v, i) == ReadAt(s, old(i)).value
    {
      hide StringAt, ParseValue, Strtoll, HasMark, Run;
      RunOnce(s, i, Space);
      var ch := Peek();
      if ch == '"' as int {
        var x := ReadStringRaw();
        return String(x);
      }
      if ch == '{' as int || ch == '[' as int {
        var start := i;
        SkipValue();
        return Json(s[start..i]);
      }
      if ch == 't' as int || ch == 'f' as int {
        var lit := ReadLetters();
        return Bool(lit == "true");
      }
      if ch == 'n' as int {
        SkipLower();
        return Null;
      }
      if ch == '-' as int || '0' as int <= ch <= '9' as int {
        var num := ReadNumberRaw();
        if HasMark(num) {
          return Floating(Finite(num));
        }
        return Int64(Strtoll(num));
      }
      ok := false;
      return Null;
    }
  }
}
