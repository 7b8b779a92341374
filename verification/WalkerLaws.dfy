/** Which inputs skip_value accepts, and the shape of what it consumes. */
module WalkerLaws {
  import opened Bytes
  import opened Strings
  import opened Grammar
  import opened GrammarLaws
  import opened Walker

  /**
   Soundness and completeness: skip_value succeeds from i and stops at e exactly when the
   text between, after white space, is a value of the lenient grammar that does not go on.
   */
  lemma SkipsExactlyValues(s: string, i: nat, e: nat)
    requires i <= |s|
    ensures SkipEnd(s, i) == Some(e) <==> exists t :: ReadsAs(s, SkipWs(s, i), t, e)
  {
    hide ReadsAs, ParseValue;
    var j := SkipWs(s, i);
    if SkipEnd(s, i) == Some(e) {
      ValueSound(s, j);
    }
    if t :| ReadsAs(s, j, t, e) {
      ValueExact(s, j, t, e);
    }
  }

  /** RFC 8259 values are consumed to their last byte, whatever delimits them and comes after. */
  lemma SkipsRfcValues(p: string, w: string, t: Tree, q: string)
    requires Strict(t) && AllIn(w, Space) && Delimited(q, 0)
    ensures SkipEnd(p + w + Text(t) + q, |p|) == Some(|p + w + Text(t)|)
  {
    hide Text, Strict, ParseValue;
    StrictExact(p, w, t, q);
  }

  // ---- Brackets ----

  predicate IsOpen(c: char) { c == '{' || c == '[' }

  predicate IsClose(c: char) { c == '}' || c == ']' }

  function Closer(c: char): char { if c == '{' then '}' else ']' }

  /**
   Scans s[i..e] with a stack of open brackets (innermost first) and nothing else: quoted
   text is passed over, every other byte only matters if it is a bracket. None if a closing
   bracket does not match the innermost open one or a string runs past e.
   */
  function Nest(s: string, i: nat, e: nat, open: string): Option<string>
    requires e <= |s|
    decreases e - i
  {
    if i >= e then (if i == e then Some(open) else None)
    else if s[i] == '"' then
      match PiecesAt(s, i + 1)
      case None => None
      case Some(w) => Nest(s, w.end, e, open)
    else if IsOpen(s[i]) then Nest(s, i + 1, e, [s[i]] + open)
    else if IsClose(s[i]) then
      if open == "" || s[i] != Closer(open[0]) then None else Nest(s, i + 1, e, open[1..])
    else Nest(s, i + 1, e, open)
  }

  /** A span scanned without a mismatch can be scanned first. */
  lemma {:induction false} NestJoin(s: string, i: nat, m: nat, e: nat, open: string, inner: string)
    requires i <= m <= e <= |s| && Nest(s, i, m, open) == Some(inner)
    ensures Nest(s, i, e, open) == Nest(s, m, e, inner)
    decreases m - i
  {
    hide PiecesAt;
    if i < m {
      if s[i] == '"' {
        NestInside(s, PiecesAt(s, i + 1).value.end, m, open);
        NestJoin(s, PiecesAt(s, i + 1).value.end, m, e, open, inner);
      } else if IsOpen(s[i]) {
        NestJoin(s, i + 1, m, e, [s[i]] + open, inner);
      } else if IsClose(s[i]) {
        NestJoin(s, i + 1, m, e, open[1..], inner);
      } else {
        NestJoin(s, i + 1, m, e, open, inner);
      }
    }
  }

  lemma NestInside(s: string, i: nat, e: nat, open: string)
    requires e <= |s| && Nest(s, i, e, open).Some?
    ensures i <= e
  {}

  /** White space, letters and number characters are neither quotes nor brackets. */
  lemma {:induction false} NestRun(s: string, i: nat, k: Class, open: string)
    requires i <= |s|
    ensures Nest(s, i, Run(s, i, k), open) == Some(open)
    decreases |s| - i
  {
    hide PiecesAt;
    if i < |s| && In(s[i], k) { NestRun(s, i + 1, k, open); }
  }

  /** A bracket that is opened at i and closed at e - 1. */
  lemma NestOpen(s: string, i: nat, e: nat, open: string)
    requires i < e <= |s| && IsOpen(s[i])
    ensures Nest(s, i, e, open) == Nest(s, i + 1, e, [s[i]] + open)
  {}

  lemma NestClose(s: string, i: nat, c: char, open: string)
    requires i < |s| && IsOpen(c) && s[i] == Closer(c)
    ensures Nest(s, i, i + 1, [c] + open) == Some(open)
  {
    assert ([c] + open)[1..] == open;
  }

  lemma NestPlain(s: string, i: nat, open: string)
    requires i < |s| && (s[i] == ',' || s[i] == ':')
    ensures Nest(s, i, i + 1, open) == Some(open)
  {}

  lemma NestString(s: string, i: nat, open: string)
    requires i < |s| && s[i] == '"' && PiecesAt(s, i + 1).Some?
    ensures Nest(s, i, PiecesAt(s, i + 1).value.end, open) == Some(open)
  {
    hide PiecesAt;
  }

  /** What a value consumes is a word of correctly matched brackets, outside strings. */
  lemma {:induction false} ValueNests(s: string, i: nat, open: string)
    requires i <= |s| && ParseValue(s, i).Some?
    ensures Nest(s, i, ParseValue(s, i).value.end, open) == Some(open)
    decreases |s| - i, 0
  {
    hide Nest, ParseItems, ParseMembers, PiecesAt, Run;
    var e := ParseValue(s, i).value.end;
    if s[i] == '"' {
      NestString(s, i, open);
    } else if IsOpen(s[i]) {
      NestOpen(s, i, e, open);
      var j := SkipWs(s, i + 1);
      if j < |s| && s[j] == Closer(s[i]) {
        NestRun(s, i + 1, Space, [s[i]] + open);
        NestJoin(s, i + 1, j, e, [s[i]] + open, [s[i]] + open);
        NestClose(s, j, s[i], open);
      } else if s[i] == '{' {
        MembersNest(s, i + 1, open);
      } else {
        ItemsNest(s, i + 1, open);
      }
    } else {
      NestRun(s, i, if StartsWord(s[i]) then WordChar else Numeric, open);
    }
  }

  lemma {:induction false} ItemNests(s: string, i: nat, open: string)
    requires i <= |s| && ParseItem(s, i).Some?
    ensures Nest(s, i, ParseItem(s, i).value.end, open) == Some(open)
    decreases |s| - i, 1
  {
    hide Nest, ParseValue, Run;
    var j := SkipWs(s, i);
    var m := ParseValue(s, j).value.end;
    var e := SkipWs(s, m);
    NestRun(s, i, Space, open);
    ValueNests(s, j, open);
    NestRun(s, m, Space, open);
    NestJoin(s, i, j, e, open, open);
    NestJoin(s, j, m, e, open, open);
  }

  lemma {:induction false} ItemsNest(s: string, i: nat, open: string)
    requires i <= |s| && ParseItems(s, i).Some?
    ensures Nest(s, i, ParseItems(s, i).value.end, "[" + open) == Some(open)
    decreases |s| - i, 2
  {
    hide Nest, ParseItem;
    var e := ParseItems(s, i).value.end;
    var m := ParseItem(s, i).value.end;
    ItemNests(s, i, "[" + open);
    NestJoin(s, i, m, e, "[" + open, "[" + open);
    if s[m] == ',' {
      NestPlain(s, m, "[" + open);
      NestJoin(s, m, m + 1, e, "[" + open, "[" + open);
      ItemsNest(s, m + 1, open);
    } else {
      NestClose(s, m, '[', open);
    }
  }

  lemma {:induction false} MemberNests(s: string, i: nat, open: string)
    requires i <= |s| && ParseMember(s, i).Some?
    ensures Nest(s, i, ParseMember(s, i).value.end, open) == Some(open)
    decreases |s| - i, 2
  {
    hide Nest, ParseItem, PiecesAt, Run;
    var e := ParseMember(s, i).value.end;
    var j := SkipWs(s, i);
    var w := PiecesAt(s, j + 1).value.end;
    var k := SkipWs(s, w);
    NestRun(s, i, Space, open);
    NestString(s, j, open);
    NestRun(s, w, Space, open);
    NestPlain(s, k, open);
    ItemNests(s, k + 1, open);
    NestJoin(s, i, j, e, open, open);
    NestJoin(s, j, w, e, open, open);
    NestJoin(s, w, k, e, open, open);
    NestJoin(s, k, k + 1, e, open, open);
  }

  lemma {:induction false} MembersNest(s: string, i: nat, open: string)
    requires i <= |s| && ParseMembers(s, i).Some?
    ensures Nest(s, i, ParseMembers(s, i).value.end, "{" + open) == Some(open)
    decreases |s| - i, 3
  {
    hide Nest, ParseMember;
    var e := ParseMembers(s, i).value.end;
    var m := ParseMember(s, i).value.end;
    MemberNests(s, i, "{" + open);
    NestJoin(s, i, m, e, "{" + open, "{" + open);
    if s[m] == ',' {
      NestPlain(s, m, "{" + open);
      NestJoin(s, m, m + 1, e, "{" + open, "{" + open);
      MembersNest(s, m + 1, open);
    } else {
      NestClose(s, m, '{', open);
    }
  }

  /** Wherever skip_value succeeds, what it consumed is a correctly matched bracket word. */
  lemma SkippedSpanNests(s: string, i: nat)
    requires i <= |s| && SkipEnd(s, i).Some?
    ensures Nest(s, i, SkipEnd(s, i).value, "") == Some("")
  {
    hide Nest, ParseValue, Run;
    var j := SkipWs(s, i);
    NestRun(s, i, Space, "");
    ValueNests(s, j, "");
    NestJoin(s, i, j, SkipEnd(s, i).value, "", "");
  }
}
