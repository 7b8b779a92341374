/** Cell values, and the value the walker reads at a position. */
module Values {
  import opened Bytes
  import opened Strings
  import opened Numbers
  import opened Grammar

  /**
   A double is represented by its text: the lexeme it was read from, or the output of
   snprintf with %.17g. Infinities and NaN have none.
   */
  datatype Double = Finite(text: string) | NotFinite

  datatype Value =
    | Null
    | Bool(b: bool)
    | Int64(n: int64)
    | Floating(d: Double)
    | String(x: string)
    | Json(x: string)

  datatype Cell = Cell(columnId: int64, value: Value)

  type Row = seq<Cell>

  /** One of the characters by which the reader tells a double from an integer. */
  predicate HasMark(x: string) {
    exists k :: 0 <= k < |x| && IsMark(x[k])
  }

  predicate IsMark(c: char) { c == '.' || c == 'e' || c == 'E' }

  function NumberValue(x: string): Value {
    if HasMark(x) then Floating(Finite(x)) else Int64(Strtoll(x))
  }

  /** What read_value computes from i, and where it stops; None if it clears the ok flag. */
  function ReadAt(s: string, i: nat): (r: Option<Parsed<Value>>)
    requires i <= |s|
    ensures r.Some? ==> i < r.value.end <= |s|
  {
    ReadFrom(s, SkipWs(s, i))
  }

  /** The same, once white space has been skipped. */
  function ReadFrom(s: string, j: nat): (r: Option<Parsed<Value>>)
    requires j <= |s|
    ensures r.Some? ==> j < r.value.end <= |s|
  {
    if j == |s| then None
    else if s[j] == '"' then
      var t := StringAt(s, j + 1);
      if t.closed then Some(Parsed(String(t.text), t.end)) else None
    else if s[j] == '{' || s[j] == '[' then
      match ParseValue(s, j)
      case None => None
      case Some(p) => Some(Parsed(Json(s[j..p.end]), p.end))
    else if s[j] == 't' || s[j] == 'f' then
      var e := Run(s, j, Alpha);
      Some(Parsed(Bool(s[j..e] == "true"), e))
    else if s[j] == 'n' then Some(Parsed(Null, Run(s, j, Lower)))
    else if StartsNumber(s[j]) then
      var e := Run(s, j, Numeric);
      Some(Parsed(NumberValue(s[j..e]), e))
    else None
  }

  /** A number that is written with a fraction or an exponent. */
  predicate IsDouble(x: string) { '.' in x || 'e' in x || 'E' in x }

  /** The value a document stands for. */
  function ValueOf(t: Tree): Value {
    match t
    case Word(x) => if x == "null" then Null else Bool(x == "true")
    case Number(x) =>
      if IsDouble(x) then Floating(Finite(x)) else Int64(Strtoll(x))
    case Str(ps) => String(Meaning(ps))
    case Arr(_, _) => Json(Text(t))
    case Obj(_, _) => Json(Text(t))
  }

  lemma MarksAre(x: string)
    ensures HasMark(x) <==> IsDouble(x)
  {
    if IsDouble(x) {
      var k :| 0 <= k < |x| && (x[k] == '.' || x[k] == 'e' || x[k] == 'E');
      assert IsMark(x[k]);
    }
  }

  predicate IsKeyword(t: Tree) {
    t.Word? ==> t.x == "true" || t.x == "false" || t.x == "null"
  }

  /** read_value reads the value of the document at the cursor, and nothing more. */
  lemma ReadIsValueOf(s: string, i: nat)
    requires i <= |s|
    requires var p := ParseValue(s, SkipWs(s, i)); p.Some? ==> IsKeyword(p.value.t)
    ensures ReadAt(s, i).Some? <==> ParseValue(s, SkipWs(s, i)).Some?
    ensures ReadAt(s, i).Some? ==>
              var p := ParseValue(s, SkipWs(s, i)).value;
              ReadAt(s, i).value == Parsed(ValueOf(p.t), p.end)
  {
    hide Text, Run, StringAt, PiecesAt, ParseItems, ParseMembers, IsKeyword, HasMark, IsDouble;
    var j := SkipWs(s, i);
    if j < |s| {
      MarksAre(s[j..Run(s, j, Numeric)]);
      if s[j] == '"' {
        StringIsMeaning(s, j + 1);
      } else if s[j] == '{' || s[j] == '[' {
        ContainerSlice(s, j);
      } else if StartsWord(s[j]) {
        KeywordRuns(s, j);
      }
    }
  }

  lemma ContainerSlice(s: string, i: nat)
    requires i < |s| && (s[i] == '{' || s[i] == '[')
    ensures ParseValue(s, i).Some? ==>
              var p := ParseValue(s, i).value;
              ValueOf(p.t) == Json(s[i..p.end])
  {
    hide Text;
    if ParseValue(s, i).Some? {
      ValueSound(s, i);
    }
  }

  /** On the three keywords the narrower runs of read_value stop where the walker's does. */
  lemma KeywordRuns(s: string, j: nat)
    requires j < |s| && StartsWord(s[j])
    requires IsKeyword(Word(s[j..Run(s, j, WordChar)]))
    ensures var e := Run(s, j, WordChar);
            && (s[j] == 'n' ==> Run(s, j, Lower) == e && s[j..e] == "null")
            && (s[j] != 'n' ==> Run(s, j, Alpha) == e && s[j..e] != "null")
  {
    hide In, IsKeyword, Run, AllIn;
    var e := Run(s, j, WordChar);
    assert j < e by { RunStarts(s, j); }
    KeywordLetters(s[j..e]);
    assert s[j] == s[j..e][0];
    KeywordRun(s, j, Lower);
    KeywordRun(s, j, Alpha);
  }

  lemma RunStarts(s: string, j: nat)
    requires j < |s| && StartsWord(s[j])
    ensures j < Run(s, j, WordChar)
  {}

  /** A run of word characters that is a keyword is also a run of letters of either kind. */
  lemma KeywordRun(s: string, j: nat, k: Class)
    requires j < |s| && (k == Lower || k == Alpha)
    requires IsKeyword(Word(s[j..Run(s, j, WordChar)]))
    ensures Run(s, j, k) == Run(s, j, WordChar)
  {
    hide IsKeyword, Run;
    var e := Run(s, j, WordChar);
    KeywordLetters(s[j..e]);
    AtSlice(s, j, e);
    RunExact(s, j, s[j..e], k);
  }

  lemma KeywordLetters(x: string)
    requires IsKeyword(Word(x))
    ensures x != "" && AllIn(x, Lower) && AllIn(x, Alpha)
    ensures x[0] == 'n' <==> x == "null"
  {}

  // ---- Words and numbers that are no keywords or numbers of RFC 8259 ----

  /** x is written at j and what follows does not continue it. */
  predicate EndsRun(s: string, j: nat, x: string, k: Class) {
    At(s, j, x) && x != "" && AllIn(x, k) && (j + |x| < |s| ==> !In(s[j + |x|], k))
  }

  lemma RunReads(s: string, j: nat, x: string, k: Class)
    requires EndsRun(s, j, x, k)
    ensures j < |s| && s[j] == x[0] && Run(s, j, k) == j + |x| && s[j..j + |x|] == x
  {
    AtChars(s, j, x);
    assert s[j + 0] == x[0];
    RunExact(s, j, x, k);
  }

  /** Letters that start with t or f are a boolean, true only if they are the word true. */
  lemma WordReads(s: string, j: nat, x: string)
    requires EndsRun(s, j, x, Alpha) && (x[0] == 't' || x[0] == 'f')
    ensures ReadAt(s, j) == Some(Parsed(Bool(x == "true"), j + |x|))
  {
    hide ParseValue, StringAt, Run, AllIn;
    RunReads(s, j, x, Alpha);
    NoSpace(s, j);
  }

  /** Lower-case letters that start with n are null. */
  lemma NullReads(s: string, j: nat, x: string)
    requires EndsRun(s, j, x, Lower) && x[0] == 'n'
    ensures ReadAt(s, j) == Some(Parsed(Null, j + |x|))
  {
    hide ParseValue, StringAt, Run, AllIn;
    RunReads(s, j, x, Lower);
    NoSpace(s, j);
  }

  /** Any run of number characters is converted as a whole, whether it is a number or not. */
  lemma LexemeReads(s: string, j: nat, x: string)
    requires EndsRun(s, j, x, Numeric) && (x[0] == '-' || '0' <= x[0] <= '9')
    ensures ReadAt(s, j)
            == Some(Parsed(if IsDouble(x) then Floating(Finite(x)) else Int64(Strtoll(x)), j + |x|))
  {
    hide ParseValue, StringAt, Run, AllIn, IsDouble, HasMark, Strtoll;
    RunReads(s, j, x, Numeric);
    NoSpace(s, j);
    MarksAre(x);
  }

  lemma NoSpace(s: string, j: nat)
    requires j < |s| && !In(s[j], Space)
    ensures SkipWs(s, j) == j
  {}

  /** No other byte starts a value. */
  lemma NothingReads(s: string, i: nat)
    requires i <= |s|
    requires var j := SkipWs(s, i); j < |s| ==> s[j] !in "\"{[tfn-0123456789"
    ensures ReadAt(s, i) == None && ParseValue(s, SkipWs(s, i)) == None
  {
    hide SkipWs, ParseItems, ParseMembers, PiecesAt, StringAt, Run;
    var j := SkipWs(s, i);
    if j < |s| && IsDigit(s[j]) { DigitIn(s[j]); }
  }

  lemma DigitIn(c: char)
    requires IsDigit(c)
    ensures c in "0123456789"
  {
    assert "0123456789"[c as int - '0' as int] == c;
  }
}
