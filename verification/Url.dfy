/** Percent-encoded path segments, and the request paths built from them. */
module Url {
  import opened Bytes
  import opened Strings

  predicate IsUnreserved(c: char) {
    'A' <= c <= 'Z' || 'a' <= c <= 'z' || IsDigit(c) || c == '-' || c == '_' || c == '.' || c == '~'
  }

  function UpperHexDigit(v: int): (c: char)
    requires 0 <= v < 16
    ensures HexValue(c) == v && IsHex(c) && IsUnreserved(c)
  {
    if v < 10 then '0' + v as char else 'A' + (v - 10) as char
  }

  function EncodeByte(c: char): string
    requires c as int < 256
  {
    if IsUnreserved(c) then [c] else ['%', UpperHexDigit(c as int / 16), UpperHexDigit(c as int % 16)]
  }

  function EncodeSegment(s: string): string
    requires IsBytes(s)
  {
    if s == "" then "" else EncodeByte(s[0]) + EncodeSegment(s[1..])
  }

  method UrlEncodeSegment(seg: string) returns (out: string)
    requires IsBytes(seg)
    ensures out == EncodeSegment(seg)
  {
    out := "";
    for k := 0 to |seg|
      invariant out == EncodeSegment(seg[..k])
    {
      var c := seg[k];
      EncodeJoins(seg[..k], [c]);
      assert seg[..k + 1] == seg[..k] + [c];
      EncodeOne(c);
      if IsUnreserved(c) {
        out := out + [c];
      } else {
        var buf := ['%', UpperHexDigit(c as int / 16), UpperHexDigit(c as int % 16)];
        out := out + buf;
      }
    }
    assert seg[..|seg|] == seg;
  }

  lemma EncodeOne(c: char)
    requires c as int < 256
    ensures EncodeSegment([c]) == EncodeByte(c)
  {
    assert [c][1..] == "";
  }

  /** Encoding distributes over concatenation. */
  lemma {:induction false} EncodeJoins(a: string, b: string)
    requires IsBytes(a) && IsBytes(b)
    ensures EncodeSegment(a + b) == EncodeSegment(a) + EncodeSegment(b)
    decreases |a|
  {
    hide EncodeByte;
    if a == "" {
      assert a + b == b;
    } else {
      assert (a + b)[1..] == a[1..] + b;
      EncodeJoins(a[1..], b);
    }
  }

  // ---- Decoding ----

  /** Percent-decoding of RFC 3986 section 2.1; None if a percent sign lacks its two hex digits. */
  function Decode(x: string): Option<string> {
    if x == "" then Some("")
    else if x[0] != '%' then
      match Decode(x[1..])
      case None => None
      case Some(rest) => Some([x[0]] + rest)
    else if |x| < 3 || !IsHex(x[1]) || !IsHex(x[2]) then None
    else
      match Decode(x[3..])
      case None => None
      case Some(rest) => Some([(HexValue(x[1]) * 16 + HexValue(x[2])) as char] + rest)
  }

  /** Decoding gives back every byte string. */
  lemma {:induction false} DecodeInvertsEncode(s: string)
    requires IsBytes(s)
    ensures Decode(EncodeSegment(s)) == Some(s)
    decreases |s|
  {
    hide HexValue;
    if s != "" {
      var x := EncodeSegment(s);
      var rest := EncodeSegment(s[1..]);
      DecodeInvertsEncode(s[1..]);
      if IsUnreserved(s[0]) {
        assert x[1..] == rest;
      } else {
        assert x[1] == UpperHexDigit(s[0] as int / 16) && x[2] == UpperHexDigit(s[0] as int % 16);
        assert x[3..] == rest;
      }
      assert [s[0]] + s[1..] == s;
    }
  }

  /** An encoded segment is made of unreserved bytes and escapes, so it has no slash in it. */
  lemma {:induction false} EncodeIsOneSegment(s: string)
    requires IsBytes(s)
    ensures var x := EncodeSegment(s); forall k :: 0 <= k < |x| ==> IsUnreserved(x[k]) || x[k] == '%'
    ensures NoSlash(EncodeSegment(s))
    ensures EncodeSegment(s) == "" <==> s == ""
    decreases |s|
  {
    if s != "" { EncodeIsOneSegment(s[1..]); }
  }

  // ---- Which bytes stand as they are ----

  /** The unreserved characters of RFC 3986 section 2.3, by their codes: letters, digits, and - . _ ~. */
  predicate MayStand(c: char) {
    var n := c as int;
    || 0x41 <= n <= 0x5A || 0x61 <= n <= 0x7A || 0x30 <= n <= 0x39
    || n == 0x2D || n == 0x2E || n == 0x5F || n == 0x7E
  }

  /** A percent sign and the two upper-case hexadecimal digits of a byte. */
  function Escaped(c: char): string
    requires c as int < 256
  {
    ['%', "0123456789ABCDEF"[c as int / 16], "0123456789ABCDEF"[c as int % 16]]
  }

  /** Each byte of a name stands as it is exactly if it is unreserved, and otherwise as its escape. */
  lemma EncodedByByte(before: string, c: char, after: string)
    requires IsBytes(before) && c as int < 256 && IsBytes(after)
    ensures IsBytes(before + [c] + after)
    ensures EncodeSegment(before + [c] + after)
            == EncodeSegment(before) + (if MayStand(c) then [c] else Escaped(c)) + EncodeSegment(after)
  {
    hide EncodeSegment, EncodeByte, Escaped, MayStand;
    EncodeJoins(before + [c], after);
    EncodeJoins(before, [c]);
    EncodeOne(c);
    ByteIsEncoded(c);
  }

  lemma ByteIsEncoded(c: char)
    requires c as int < 256
    ensures EncodeByte(c) == if MayStand(c) then [c] else Escaped(c)
  {
    DigitFromTable(c as int / 16);
    DigitFromTable(c as int % 16);
  }

  lemma DigitFromTable(v: int)
    requires 0 <= v < 16
    ensures UpperHexDigit(v) == "0123456789ABCDEF"[v]
  {}

  predicate MayAppear(c: char) { MayStand(c) || c == '%' || c == '/' }

  lemma {:induction false} EncodedBytesMayAppear(s: string)
    requires IsBytes(s)
    ensures forall k :: 0 <= k < |EncodeSegment(s)| ==> MayAppear(EncodeSegment(s)[k])
    decreases |s|
  {
    if s != "" { EncodedBytesMayAppear(s[1..]); }
  }

  predicate NoSlash(x: string) {
    forall k :: 0 <= k < |x| ==> x[k] != '/'
  }

  // ---- Request paths ----

  datatype Route = DropTable(name: string) | Count(name: string) | SchemaFor(name: string) | QueryStatus(name: string)
                 | CancelQuery(name: string)

  /** The segments after the leading slash. */
  function Segments(r: Route): seq<string>
    requires IsBytes(r.name)
  {
    var e := EncodeSegment(r.name);
    match r
    case DropTable(_) => ["tables", e]
    case Count(_) => ["tables", e, "count"]
    case SchemaFor(_) => ["kit", "schema", e]
    case QueryStatus(_) => ["queries", e]
    case CancelQuery(_) => ["queries", e, "cancel"]
  }

  /** The path of a request; None where the client throws for an empty query id. */
  function Path(r: Route): Option<string>
    requires IsBytes(r.name)
  {
    var e := EncodeSegment(r.name);
    match r
    case DropTable(_) => Some("/tables/" + e)
    case Count(_) => Some("/tables/" + e + "/count")
    case SchemaFor(_) => Some("/kit/schema/" + e)
    case QueryStatus(id) => if id == "" then None else Some("/queries/" + e)
    case CancelQuery(id) => if id == "" then None else Some("/queries/" + e + "/cancel")
  }

  /** The five paths, for a name that needs no encoding. */
  lemma PathsAre()
    ensures Path(DropTable("t")) == Some("/tables/t") && Path(Count("t")) == Some("/tables/t/count")
    ensures Path(SchemaFor("t")) == Some("/kit/schema/t")
    ensures Path(QueryStatus("t")) == Some("/queries/t") && Path(CancelQuery("t")) == Some("/queries/t/cancel")
  {
    hide EncodeSegment;
    EncodeOne('t');
    assert "/tables/" + "t" == "/tables/t" && "/tables/" + "t" + "/count" == "/tables/t/count";
    assert "/kit/schema/" + "t" == "/kit/schema/t";
    assert "/queries/" + "t" == "/queries/t" && "/queries/" + "t" + "/cancel" == "/queries/t/cancel";
  }

  /** Only an empty query id has no path. */
  lemma PathMissingIff(r: Route)
    requires IsBytes(r.name)
    ensures Path(r).None? <==> (r.QueryStatus? || r.CancelQuery?) && r.name == ""
  {
    hide EncodeSegment;
  }

  /** No byte of a path is anything but unreserved, a percent sign or a slash. */
  lemma PathBytesMayAppear(r: Route)
    requires IsBytes(r.name) && Path(r).Some?
    ensures forall k :: 0 <= k < |Path(r).value| ==> MayAppear(Path(r).value[k])
  {
    hide EncodeSegment;
    EncodedBytesMayAppear(r.name);
    WordsMayAppear();
    var e := EncodeSegment(r.name);
    assert forall k :: 0 <= k < |e| ==> MayAppear(e[k]);
  }

  lemma WordsMayAppear()
    ensures forall k :: 0 <= k < |"/tables/"| ==> MayAppear("/tables/"[k])
    ensures forall k :: 0 <= k < |"/count"| ==> MayAppear("/count"[k])
    ensures forall k :: 0 <= k < |"/kit/schema/"| ==> MayAppear("/kit/schema/"[k])
    ensures forall k :: 0 <= k < |"/queries/"| ==> MayAppear("/queries/"[k])
    ensures forall k :: 0 <= k < |"/cancel"| ==> MayAppear("/cancel"[k])
  {}

  method RequestPath(r: Route) returns (path: Option<string>)
    requires IsBytes(r.name)
    ensures path == Path(r)
  {
    if (r.QueryStatus? || r.CancelQuery?) && r.name == "" {
      return None;
    }
    var e := UrlEncodeSegment(r.name);
    match r {
      case DropTable(_) => path := Some("/tables/" + e);
      case Count(_) => path := Some("/tables/" + e + "/count");
      case SchemaFor(_) => path := Some("/kit/schema/" + e);
      case QueryStatus(_) => path := Some("/queries/" + e);
      case CancelQuery(_) => path := Some("/queries/" + e + "/cancel");
    }
  }

  /** The text up to the first slash. */
  function Head(x: string): (n: nat)
    ensures n <= |x| && NoSlash(x[..n]) && (n < |x| ==> x[n] == '/')
  {
    if x == "" || x[0] == '/' then 0
    else
      assert x[..1 + Head(x[1..])] == [x[0]] + x[1..][..Head(x[1..])];
      1 + Head(x[1..])
  }

  /** A path cut at its slashes, as a server routes it. */
  function Split(x: string): seq<string> {
    var n := Head(x);
    if n == |x| then [x] else [x[..n]] + Split(x[n + 1..])
  }

  lemma SplitOne(x: string)
    requires NoSlash(x)
    ensures Split(x) == [x]
  {}

  lemma SplitMore(x: string, rest: string)
    requires NoSlash(x)
    ensures Split(x + ("/" + rest)) == [x] + Split(rest)
  {
    var y := x + ("/" + rest);
    assert y[..|x|] == x && y[|x| + 1..] == rest;
    HeadIs(y, |x|);
  }

  lemma {:induction false} HeadIs(y: string, n: nat)
    requires n < |y| && y[n] == '/' && NoSlash(y[..n])
    ensures Head(y) == n
    decreases n
  {
    if n > 0 {
      assert y[0] == y[..n][0];
      assert y[1..][..n - 1] == y[..n][1..];
      HeadIs(y[1..], n - 1);
    }
  }

  lemma SplitTwo(a: string, e: string)
    requires NoSlash(a) && NoSlash(e)
    ensures Split("/" + a + "/" + e) == ["", a, e]
  {
    hide Split, NoSlash;
    NoSlashIn("");
    SplitOne(e);
    SplitMore(a, e);
    SplitMore("", a + ("/" + e));
    assert "/" + a + "/" + e == "" + ("/" + (a + ("/" + e)));
  }

  lemma SplitThree(a: string, e: string, b: string)
    requires NoSlash(a) && NoSlash(e) && NoSlash(b)
    ensures Split("/" + a + "/" + e + "/" + b) == ["", a, e, b]
  {
    hide Split, NoSlash;
    NoSlashIn("");
    SplitOne(b);
    SplitMore(e, b);
    SplitMore(a, e + ("/" + b));
    SplitMore("", a + ("/" + (e + ("/" + b))));
    assert "/" + a + "/" + e + "/" + b == "" + ("/" + (a + ("/" + (e + ("/" + b)))));
  }

  lemma NoSlashIn(x: string)
    requires forall k :: 0 <= k < |x| ==> x[k] != '/'
    ensures NoSlash(x)
  {}

  /** A name of any bytes, slashes included, takes up exactly one segment of its path. */
  lemma PathHasSegments(r: Route)
    requires IsBytes(r.name) && Path(r).Some?
    ensures Split(Path(r).value) == [""] + Segments(r)
  {
    hide Split, EncodeSegment;
    var e := EncodeSegment(r.name);
    EncodeIsOneSegment(r.name);
    match r {
      case DropTable(_) =>
        assert "/tables/" == "/" + "tables" + "/";
        SplitTwo("tables", e);
      case Count(_) =>
        assert "/tables/" + e + "/count" == "/" + "tables" + "/" + e + "/" + "count";
        SplitThree("tables", e, "count");
      case SchemaFor(_) =>
        assert "/kit/schema/" + e == "/" + "kit" + "/" + "schema" + "/" + e;
        SplitThree("kit", "schema", e);
      case QueryStatus(_) =>
        assert "/queries/" == "/" + "queries" + "/";
        SplitTwo("queries", e);
      case CancelQuery(_) =>
        assert "/queries/" + e + "/cancel" == "/" + "queries" + "/" + e + "/" + "cancel";
        SplitThree("queries", e, "cancel");
    }
  }

  /** The request that a path names. */
  function RouteOf(path: string): Option<Route> {
    var parts := Split(path);
    if |parts| == 3 && parts[1] == "tables" then NamedRoute(parts[2], n => DropTable(n))
    else if |parts| == 4 && parts[1] == "tables" && parts[3] == "count" then NamedRoute(parts[2], n => Count(n))
    else if |parts| == 4 && parts[1] == "kit" && parts[2] == "schema" then NamedRoute(parts[3], n => SchemaFor(n))
    else if |parts| == 3 && parts[1] == "queries" then NamedRoute(parts[2], n => QueryStatus(n))
    else if |parts| == 4 && parts[1] == "queries" && parts[3] == "cancel" then NamedRoute(parts[2], n => CancelQuery(n))
    else None
  }

  function NamedRoute(segment: string, build: string -> Route): Option<Route> {
    match Decode(segment)
    case None => None
    case Some(name) => Some(build(name))
  }

  /** The path determines the request and the name in it. */
  lemma PathDeterminesRoute(r: Route)
    requires IsBytes(r.name) && Path(r).Some?
    ensures RouteOf(Path(r).value) == Some(r)
  {
    hide Split, EncodeSegment, Decode, Path;
    PathHasSegments(r);
    DecodeInvertsEncode(r.name);
    assert |"tables"| == 6 && |"kit"| == 3 && |"queries"| == 7;
  }

  /** Different requests have different paths. */
  lemma PathInjective(r: Route, q: Route)
    requires IsBytes(r.name) && IsBytes(q.name) && Path(r).Some? && Path(r) == Path(q)
    ensures r == q
  {
    hide Path, RouteOf;
    PathDeterminesRoute(r);
    PathDeterminesRoute(q);
  }
}
