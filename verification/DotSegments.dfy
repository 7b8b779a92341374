/** What the removal of dot segments, done by URL libraries, makes of a request path. */
module DotSegments {
  import opened Bytes
  import opened Url

  predicate Begins(x: string, p: string) { |x| >= |p| && x[..|p|] == p }

  /** Without its last segment and the slash before it. */
  function WithoutLast(x: string): (y: string)
    ensures |y| <= |x|
  {
    if x == "" then "" else if x[|x| - 1] == '/' then x[..|x| - 1] else WithoutLast(x[..|x| - 1])
  }

  /** The first segment with its slash. */
  function FirstSegment(x: string): (n: nat)
    requires x != ""
    ensures 0 < n <= |x|
  {
    1 + Head(x[1..])
  }

  /** remove_dot_segments of RFC 3986 section 5.2.4, steps A to E, on an input and an output buffer. */
  function RemoveDots(input: string, output: string): string
    decreases |input|, input == "/." || input == "/.."
  {
    if input == "" then output
    else if Begins(input, "../") then RemoveDots(input[3..], output)
    else if Begins(input, "./") then RemoveDots(input[2..], output)
    else if Begins(input, "/./") then RemoveDots(input[2..], output)
    else if input == "/." then RemoveDots("/", output)
    else if Begins(input, "/../") then RemoveDots(input[3..], WithoutLast(output))
    else if input == "/.." then RemoveDots("/", WithoutLast(output))
    else if input == "." || input == ".." then RemoveDots("", output)
    else RemoveDots(input[FirstSegment(input)..], output + input[..FirstSegment(input)])
  }

  predicate IsDots(x: string) { x == "." || x == ".." }

  // ---- Paths as lists of segments ----

  function JoinPath(segments: seq<string>): string {
    if segments == [] then "" else "/" + segments[0] + JoinPath(segments[1..])
  }

  predicate AllPlain(segments: seq<string>) {
    forall k :: 0 <= k < |segments| ==> NoSlash(segments[k])
  }

  lemma RestIsPath(segments: seq<string>)
    ensures var rest := JoinPath(segments); rest == "" || rest[0] == '/'
  {}

  /** An ordinary segment is moved to the output. */
  lemma MoveSegment(a: string, rest: string, output: string)
    requires NoSlash(a) && !IsDots(a) && (rest == "" || rest[0] == '/')
    ensures RemoveDots("/" + a + rest, output) == RemoveDots(rest, output + ("/" + a))
  {
    var x := "/" + a + rest;
    assert x[1..] == a + rest;
    SegmentHead(a, rest);
    assert x[..1 + |a|] == "/" + a && x[1 + |a|..] == rest;
    NotADotSegment(a, rest);
  }

  lemma SegmentHead(a: string, rest: string)
    requires NoSlash(a) && (rest == "" || rest[0] == '/')
    ensures Head(a + rest) == |a|
  {
    if rest == "" {
      assert a + rest == a;
    } else {
      assert (a + rest)[..|a|] == a;
      HeadIs(a + rest, |a|);
    }
  }

  lemma NotADotSegment(a: string, rest: string)
    requires NoSlash(a) && !IsDots(a) && (rest == "" || rest[0] == '/')
    ensures var x := "/" + a + rest;
            && !Begins(x, "/./") && x != "/." && !Begins(x, "/../") && x != "/.."
            && !Begins(x, "./") && !Begins(x, "../")
            && x != "." && x != ".."
  {
    var x := "/" + a + rest;
    assert x[0] == '/';
    if |a| >= 1 { assert x[1] == a[0]; }
    if |a| >= 2 { assert x[2] == a[1]; }
    if |a| >= 3 { assert x[3] == a[2]; }
    if |a| == 0 && rest != "" { assert x[1] == '/'; }
    ShortDots(a);
  }

  lemma ShortDots(a: string)
    requires !IsDots(a)
    ensures |a| == 1 ==> a[0] != '.'
    ensures |a| == 2 ==> a[0] != '.' || a[1] != '.'
  {
    if |a| == 1 { assert a == [a[0]]; }
    if |a| == 2 { assert a == [a[0], a[1]]; }
  }

  /** Nothing is ever added. */
  lemma {:induction false} RemoveDotsShrinks(input: string, output: string)
    ensures |RemoveDots(input, output)| <= |input| + |output|
    decreases |input|, input == "/." || input == "/.."
  {
    if input == "" {
    } else if Begins(input, "../") {
      RemoveDotsShrinks(input[3..], output);
    } else if Begins(input, "./") || Begins(input, "/./") {
      RemoveDotsShrinks(input[2..], output);
    } else if input == "/." {
      RemoveDotsShrinks("/", output);
    } else if Begins(input, "/../") {
      RemoveDotsShrinks(input[3..], WithoutLast(output));
    } else if input == "/.." {
      RemoveDotsShrinks("/", WithoutLast(output));
    } else if input == "." || input == ".." {
      RemoveDotsShrinks("", output);
    } else {
      RemoveDotsShrinks(input[FirstSegment(input)..], output + input[..FirstSegment(input)]);
    }
  }

  lemma DropSegment(a: string, rest: string, output: string)
    requires IsDots(a) && (rest == "" || rest[0] == '/')
    ensures |RemoveDots("/" + a + rest, output)| < |"/" + a + rest| + |output|
  {
    var x := "/" + a + rest;
    if rest == "" {
      assert x == "/" + a;
      RemoveDotsShrinks("/", output);
      RemoveDotsShrinks("/", WithoutLast(output));
    } else {
      assert x[0] == '/' && x[1] == '.' && x[|a| + 1] == '/';
      if a == "." {
        assert x[..3] == "/./";
        RemoveDotsShrinks(x[2..], output);
      } else {
        assert x[2] == '.' && x[3] == '/';
        assert x[..4] == "/../";
        RemoveDotsShrinks(x[3..], WithoutLast(output));
      }
    }
  }

  /** A path is left as it is exactly when none of its segments is a dot segment. */
  lemma {:induction false} PathKeptIff(segments: seq<string>, output: string)
    requires AllPlain(segments)
    ensures RemoveDots(JoinPath(segments), output) == output + JoinPath(segments)
            <==> forall k :: 0 <= k < |segments| ==> !IsDots(segments[k])
    ensures |RemoveDots(JoinPath(segments), output)| <= |output + JoinPath(segments)|
    decreases |segments|
  {
    hide RemoveDots, IsDots, NoSlash;
    RemoveDotsShrinks(JoinPath(segments), output);
    if segments == [] {
      Finished(output);
    } else {
      var a, rest := segments[0], JoinPath(segments[1..]);
      RestIsPath(segments[1..]);
      if IsDots(a) {
        DropSegment(a, rest, output);
      } else {
        MoveSegment(a, rest, output);
        PathKeptIff(segments[1..], output + ("/" + a));
        assert output + ("/" + a) + rest == output + ("/" + a + rest);
        FirstOrLater(segments);
      }
    }
  }

  lemma FirstOrLater(segments: seq<string>)
    requires segments != [] && !IsDots(segments[0])
    ensures (forall k :: 0 <= k < |segments| ==> !IsDots(segments[k]))
            <==> forall k :: 0 <= k < |segments[1..]| ==> !IsDots(segments[1..][k])
  {
    hide IsDots;
    if forall k :: 0 <= k < |segments[1..]| ==> !IsDots(segments[1..][k]) {
      forall k | 0 <= k < |segments| ensures !IsDots(segments[k]) {
        if k > 0 { assert segments[k] == segments[1..][k - 1]; }
      }
    }
  }

  lemma Finished(output: string)
    ensures RemoveDots("", output) == output && output + "" == output
  {}

  // ---- Request paths ----

  lemma EncodedDots(name: string)
    requires IsBytes(name)
    ensures IsDots(EncodeSegment(name)) <==> IsDots(name)
  {
    EncodeOne('.');
    DotDotKept();
    DecodeInvertsEncode(name);
    DecodeInvertsEncode(".");
    DecodeInvertsEncode("..");
  }

  lemma JoinTwo(a: string, b: string)
    ensures JoinPath([a, b]) == "/" + a + ("/" + b)
  {
    assert [a, b][1..] == [b] && [b][1..] == [];
    assert JoinPath([b]) == "/" + b + JoinPath([]);
    assert "/" + b + "" == "/" + b;
  }

  lemma JoinThree(a: string, b: string, c: string)
    ensures JoinPath([a, b, c]) == "/" + a + ("/" + b + ("/" + c))
  {
    hide JoinPath;
    JoinTwo(b, c);
    JoinMore(a, [b, c]);
    assert [a] + [b, c] == [a, b, c];
  }

  lemma JoinMore(a: string, segments: seq<string>)
    ensures JoinPath([a] + segments) == "/" + a + JoinPath(segments)
  {
    assert ([a] + segments)[1..] == segments;
  }

  lemma PathIsJoined(r: Route)
    requires IsBytes(r.name) && Path(r).Some?
    ensures Path(r).value == JoinPath(Segments(r))
  {
    hide EncodeSegment, JoinPath;
    var e := EncodeSegment(r.name);
    match r {
      case DropTable(_) => TwoSlashes("tables", e);
      case Count(_) => ThreeSlashes("tables", e, "count");
      case SchemaFor(_) => ThreeSlashes("kit", "schema", e);
      case QueryStatus(_) => TwoSlashes("queries", e);
      case CancelQuery(_) => ThreeSlashes("queries", e, "cancel");
    }
    Words(e);
  }

  lemma TwoSlashes(a: string, e: string)
    ensures JoinPath([a, e]) == "/" + a + "/" + e
  {
    hide JoinPath;
    JoinTwo(a, e);
  }

  lemma ThreeSlashes(a: string, b: string, c: string)
    ensures JoinPath([a, b, c]) == "/" + a + "/" + b + "/" + c
  {
    hide JoinPath;
    JoinThree(a, b, c);
  }

  /** The fixed parts of the paths. */
  lemma Words(e: string)
    ensures "/" + "tables" + "/" == "/tables/" && "/" + "queries" + "/" == "/queries/"
    ensures "/" + "kit" + "/" + "schema" + "/" == "/kit/schema/"
    ensures "/tables/" + e + "/" + "count" == "/tables/" + e + "/count"
    ensures "/queries/" + e + "/" + "cancel" == "/queries/" + e + "/cancel"
  {
    assert "/" + "count" == "/count" && "/" + "cancel" == "/cancel";
  }

  lemma SegmentsArePlain(r: Route)
    requires IsBytes(r.name)
    ensures AllPlain(Segments(r))
    ensures (forall k :: 0 <= k < |Segments(r)| ==> !IsDots(Segments(r)[k])) <==> !IsDots(EncodeSegment(r.name))
  {
    hide EncodeSegment;
    EncodeIsOneSegment(r.name);
    assert |"tables"| == 6 && |"count"| == 5 && |"kit"| == 3 && |"schema"| == 6 && |"queries"| == 7 && |"cancel"| == 6;
    var e := EncodeSegment(r.name);
    assert e in Segments(r);
  }

  /**
   Removing dot segments leaves a request path as it is if and only if its name is neither
   "." nor "..": dots are unreserved, so encoding does not protect them.
   */
  lemma DotRemovalKeepsPathIff(r: Route)
    requires IsBytes(r.name) && Path(r).Some?
    ensures RemoveDots(Path(r).value, "") == Path(r).value <==> r.name != "." && r.name != ".."
  {
    hide RemoveDots, JoinPath, Path, Segments, EncodeSegment, NoSlash;
    PathIsJoined(r);
    SegmentsArePlain(r);
    EncodedDots(r.name);
    PathKeptIff(Segments(r), "");
    assert "" + JoinPath(Segments(r)) == JoinPath(Segments(r));
  }

  /** A parent segment takes back what was moved before it. */
  lemma PopSegment(a: string, rest: string)
    requires NoSlash(a) && !IsDots(a) && rest != "" && rest[0] == '/'
    ensures RemoveDots("/" + a + ("/.." + rest), "") == RemoveDots(rest, "")
  {
    var x := "/.." + rest;
    assert x[0] == '/' && x[1] == '.' && x[2] == '.' && x[3] == '/';
    assert x[..4] == "/../" && x[3..] == rest;
    MoveSegment(a, x, "");
    assert "" + ("/" + a) == "/" + a;
    LastRemoved(a);
  }

  lemma {:induction false} LastRemoved(a: string)
    requires NoSlash(a)
    ensures WithoutLast("/" + a) == ""
    decreases |a|
  {
    var x := "/" + a;
    if a != "" {
      assert x[..|x| - 1] == "/" + a[..|a| - 1];
      LastRemoved(a[..|a| - 1]);
    } else {
      assert x[..0] == "";
    }
  }

  lemma OneKept(a: string)
    requires NoSlash(a) && !IsDots(a)
    ensures RemoveDots("/" + a, "") == "/" + a
  {
    hide RemoveDots;
    assert "/" + a + "" == "/" + a && "" + ("/" + a) == "/" + a;
    MoveSegment(a, "", "");
    Finished("/" + a);
  }

  /** Counting the table ".." asks for the path /count. */
  lemma CountOfDotDot()
    ensures Path(Count("..")).Some? && Path(Count("..")).value == "/tables/../count"
    ensures RemoveDots("/tables/../count", "") == "/count"
  {
    hide RemoveDots, EncodeSegment;
    DotDotKept();
    assert "/tables/" + ".." + "/count" == "/tables/../count";
    assert "/" + "tables" + ("/.." + "/count") == "/tables/../count";
    assert |"tables"| == 6 && |"count"| == 5;
    PopSegment("tables", "/count");
    OneKept("count");
    assert "/" + "count" == "/count";
  }

  lemma DotDotKept()
    ensures EncodeSegment("..") == ".."
  {
    EncodeOne('.');
    EncodeJoins(".", ".");
    assert "." + "." == "..";
  }
}
