/** The bodies of query, sql and retrieve_text requests. */
module Requests {
  import opened Bytes
  import opened StringLaws
  import opened Numbers
  import opened Build
  import opened Writers

  /** snprintf into a buffer of n bytes. */
  function Snprintf(n: nat, x: string): string
    requires n > 0
  {
    if |x| < n then x else x[..n - 1]
  }

  // ---- query ----

  datatype CondKind = Pk | BitmapEq | Range | FmContains | IsNull | IsNotNull

  /** lo and hi are range bounds as snprintf prints them with %.17g; the flags are never sent. */
  datatype Condition = Condition(
    kind: CondKind,
    columnId: int64,
    lo: Option<string>,
    hi: Option<string>,
    loInclusive: bool,
    hiInclusive: bool,
    strValue: string,
    intValue: int64,
    conditionJson: Option<string>)

  function WithBound(b: string, name: string, bound: Option<string>): string {
    match bound
    case Some(x) => b + Snprintf(64, "," + Key(name) + x)
    case None => b
  }

  function CondName(kind: CondKind): (name: string)
    ensures IsName(name)
  {
    match kind
    case Pk => "pk"
    case BitmapEq => "bitmap_eq"
    case Range => "range"
    case FmContains => "fm_contains"
    case IsNull => "is_null"
    case IsNotNull => "is_not_null"
  }

  /** A built condition up to its closing braces. */
  function ConditionHead(c: Condition): string {
    var b := "{" + Key(CondName(c.kind)) + "{";
    match c.kind
    case Pk => b + Key("value") + (if c.strValue != "" then Quoted(c.strValue) else IntText(c.intValue))
    case BitmapEq => b + Key("column_id") + IntText(c.columnId) + "," + Key("value") + Quoted(c.strValue)
    case Range => WithBound(WithBound(b + Key("column_id") + IntText(c.columnId), "lo", c.lo), "hi", c.hi)
    case FmContains => b + Key("column_id") + IntText(c.columnId) + "," + Key("pattern") + Quoted(c.strValue)
    case IsNull => b + Key("column_id") + IntText(c.columnId)
    case IsNotNull => b + Key("column_id") + IntText(c.columnId)
  }

  function ConditionText(c: Condition): string {
    match c.conditionJson
    case Some(x) => x
    case None => ConditionHead(c) + "}" + "}"
  }

  method WriteCondition(out: string, c: Condition) returns (body: string)
    ensures body == out + ConditionText(c)
  {
    hide Key, Quoted, IntText, Snprintf;
    if c.conditionJson.Some? {
      return out + c.conditionJson.value;
    }
    body := "{";
    match c.kind {
      case Pk =>
        body := body + Key("pk") + "{" + Key("value");
        if c.strValue != "" {
          body := JsonEscape(body, c.strValue);
        } else {
          body := body + IntText(c.intValue);
        }
      case BitmapEq =>
        body := body + Key("bitmap_eq") + "{" + Key("column_id") + IntText(c.columnId) + "," + Key("value");
        body := JsonEscape(body, c.strValue);
      case Range =>
        body := body + Key("range") + "{" + Key("column_id") + IntText(c.columnId);
        if c.lo.Some? {
          body := body + Snprintf(64, "," + Key("lo") + c.lo.value);
        }
        if c.hi.Some? {
          body := body + Snprintf(64, "," + Key("hi") + c.hi.value);
        }
      case FmContains =>
        body := body + Key("fm_contains") + "{" + Key("column_id") + IntText(c.columnId) + "," + Key("pattern");
        body := JsonEscape(body, c.strValue);
      case IsNull =>
        body := body + Key("is_null") + "{" + Key("column_id") + IntText(c.columnId);
      case IsNotNull =>
        body := body + Key("is_not_null") + "{" + Key("column_id") + IntText(c.columnId);
    }
    body := body + "}";
    body := body + "}";
    body := out + body;
  }

  function ConditionTexts(cs: seq<Condition>): seq<string> {
    seq(|cs|, k requires 0 <= k < |cs| => ConditionText(cs[k]))
  }

  function IntTexts(ns: seq<int64>): seq<string> {
    seq(|ns|, k requires 0 <= k < |ns| => IntText(ns[k]))
  }

  function QueryBody(
    table: string, conditions: seq<Condition>, projection: seq<int64>, limit: int64, offset: int64): string
  {
    var b := "{" + Key("table") + Quoted(table);
    var b := if conditions != []
             then b + "," + Key("conditions") + ("[" + Commas(ConditionTexts(conditions)) + "]") else b;
    var b := if projection != [] then b + "," + Key("projection") + ("[" + Commas(IntTexts(projection)) + "]") else b;
    var b := if limit > 0 then b + "," + Key("limit") + IntText(limit) else b;
    var b := if offset != 0 then b + "," + Key("offset") + IntText(offset) else b;
    b + "}"
  }

  method WriteConditions(out: string, conditions: seq<Condition>) returns (body: string)
    ensures body == out + ("[" + Commas(ConditionTexts(conditions)) + "]")
  {
    hide ConditionText;
    body := out + "[";
    ghost var done := "";
    var k := 0;
    while k < |conditions|
      invariant 0 <= k <= |conditions| && done == Commas(ConditionTexts(conditions[..k]))
      invariant body == out + "[" + done
      invariant k == 0 ==> done == ""
    {
      assert ConditionTexts(conditions[..k + 1]) == ConditionTexts(conditions[..k]) + [ConditionText(conditions[k])];
      CommasAppend(ConditionTexts(conditions[..k]), ConditionText(conditions[k]));
      if k > 0 {
        body := body + ",";
      }
      body := WriteCondition(body, conditions[k]);
      done := Commas(ConditionTexts(conditions[..k + 1]));
      k := k + 1;
    }
    assert conditions[..|conditions|] == conditions;
    body := body + "]";
    assert out + "[" + done + "]" == out + ("[" + done + "]");
  }

  method WriteProjection(out: string, projection: seq<int64>) returns (body: string)
    ensures body == out + ("[" + Commas(IntTexts(projection)) + "]")
  {
    hide IntText;
    body := out + "[";
    ghost var done := "";
    var k := 0;
    while k < |projection|
      invariant 0 <= k <= |projection| && done == Commas(IntTexts(projection[..k]))
      invariant body == out + "[" + done
      invariant k == 0 ==> done == ""
    {
      assert IntTexts(projection[..k + 1]) == IntTexts(projection[..k]) + [IntText(projection[k])];
      CommasAppend(IntTexts(projection[..k]), IntText(projection[k]));
      if k > 0 {
        body := body + ",";
      }
      body := body + IntText(projection[k]);
      done := Commas(IntTexts(projection[..k + 1]));
      k := k + 1;
    }
    assert projection[..|projection|] == projection;
    body := body + "]";
    assert out + "[" + done + "]" == out + ("[" + done + "]");
  }

  method BuildQuery(
    table: string, conditions: seq<Condition>, projection: seq<int64>, limit: int64, offset: int64)
    returns (body: string)
    ensures body == QueryBody(table, conditions, projection, limit, offset)
  {
    hide Key, Quoted, IntText, Commas;
    body := "{" + Key("table");
    body := JsonEscape(body, table);
    if conditions != [] {
      body := body + "," + Key("conditions");
      body := WriteConditions(body, conditions);
    }
    if projection != [] {
      body := body + "," + Key("projection");
      body := WriteProjection(body, projection);
    }
    if limit > 0 {
      body := body + "," + Key("limit");
      body := body + IntText(limit);
    }
    if offset != 0 {
      body := body + "," + Key("offset");
      body := body + IntText(offset);
    }
    body := body + "}";
  }

  // ---- sql and retrieve_text ----

  function SqlBody(statement: string): string {
    "{" + Key("sql") + Quoted(statement) + "," + Key("format") + "\"json\"" + "}"
  }

  method BuildSql(statement: string) returns (body: string)
    ensures body == SqlBody(statement)
  {
    hide Key, Quoted;
    body := "{" + Key("sql");
    body := JsonEscape(body, statement);
    body := body + "," + Key("format") + "\"json\"" + "}";
  }

  function RetrieveTextBody(table: string, embeddingColumn: int64, text: string, k: int64): string {
    var b := "{" + Key("table") + Quoted(table) + "," + Key("embedding_column") + IntText(embeddingColumn)
             + "," + Key("text") + Quoted(text);
    var b := if k > 0 then b + "," + Key("k") + IntText(k) else b;
    b + "}"
  }

  method BuildRetrieveText(table: string, embeddingColumn: int64, text: string, k: int64) returns (body: string)
    ensures body == RetrieveTextBody(table, embeddingColumn, text, k)
  {
    hide Key, Quoted, IntText;
    body := "{" + Key("table");
    body := JsonEscape(body, table);
    body := body + "," + Key("embedding_column") + IntText(embeddingColumn);
    body := body + "," + Key("text");
    body := JsonEscape(body, text);
    if k > 0 {
      body := body + "," + Key("k") + IntText(k);
    }
    body := body + "}";
  }
}
