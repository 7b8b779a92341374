/** An index is a JSON value exactly when its tuning blocks fit their buffers. */
module TuningLaws {
  import opened Bytes
  import opened StringLaws
  import opened Numbers
  import opened Grammar
  import opened GrammarLaws
  import opened Build
  import opened Fragments
  import opened Requests
  import opened Tables
  import opened TableLaws
  import opened Truncation

  // ---- Blocks as lists of numbers ----

  function DiskannNums(ix: Index): seq<Num> {
    [Num("r", OrDefault(ix.diskannR, 64)), Num("l", OrDefault(ix.diskannL, 128)),
     Num("beam_width", OrDefault(ix.diskannBeamWidth, 8)), Num("alpha", OrDefault(ix.diskannAlpha, 120))]
  }

  function IvfNums(ix: Index): seq<Num> {
    [Num("nlist", OrDefault(ix.ivfNlist, 256)), Num("nprobe", OrDefault(ix.ivfNprobe, 8))]
  }

  function ProductNums(ix: Index): seq<Num> {
    [Num("training_samples", OrDefault(ix.pqTrainingSamples, 256000)),
     Num("seed", OrDefault(ix.pqSeed, 0x9E3779B97F4A7C15)), Num("rerank_factor", OrDefault(ix.pqRerankFactor, 5))]
  }

  function Block(fs: seq<Num>): string { "{" + NumsText(fs) + "}" }

  lemma NumsCons(f: Num, rest: seq<Num>)
    requires rest != []
    ensures NumsText([f] + rest) == Key(f.name) + NatText(f.n) + "," + NumsText(rest)
  {
    hide Key, NatText;
    assert ([f] + rest)[1..] == rest;
  }

  lemma NumsOne(f: Num)
    ensures NumsText([f]) == Key(f.name) + NatText(f.n)
  {
    hide Key, NatText;
  }

  lemma BlocksAreNums(ix: Index)
    ensures DiskannText(ix) == Block(DiskannNums(ix)) && IvfText(ix) == Block(IvfNums(ix))
    ensures ProductText(ix) == Block(ProductNums(ix))
  {
    DiskannIsBlock(ix);
    IvfIsBlock(ix);
    ProductIsBlock(ix);
  }

  lemma DiskannIsBlock(ix: Index)
    ensures DiskannText(ix) == Block(DiskannNums(ix))
  {
    hide Key, NatText, NumsText;
    var fs := DiskannNums(ix);
    assert fs == [fs[0]] + ([fs[1]] + ([fs[2]] + [fs[3]]));
    NumsOne(fs[3]);
    NumsCons(fs[2], [fs[3]]);
    NumsCons(fs[1], [fs[2]] + [fs[3]]);
    NumsCons(fs[0], [fs[1]] + ([fs[2]] + [fs[3]]));
  }

  lemma IvfIsBlock(ix: Index)
    ensures IvfText(ix) == Block(IvfNums(ix))
  {
    hide Key, NatText, NumsText;
    var fs := IvfNums(ix);
    assert fs == [fs[0]] + [fs[1]];
    NumsOne(fs[1]);
    NumsCons(fs[0], [fs[1]]);
  }

  lemma ProductIsBlock(ix: Index)
    ensures ProductText(ix) == Block(ProductNums(ix))
  {
    hide Key, NatText, NumsText;
    var fs := ProductNums(ix);
    assert fs == [fs[0]] + ([fs[1]] + [fs[2]]);
    NumsOne(fs[2]);
    NumsCons(fs[1], [fs[2]]);
    NumsCons(fs[0], [fs[1]] + [fs[2]]);
  }

  lemma NumsAreNamed(ix: Index)
    ensures AreNums(ProductNums(ix))
  {}

  /** What is left of a block that does not fit: at least its opening, never its closing brace. */
  lemma CutBlock(size: nat, name: string, fs: seq<Num>) returns (k: nat)
    requires AreNums(fs) && IsName(name) && size >= |name| + 8
    requires var x := "," + Key(name) + Block(fs); Snprintf(size, x) != x
    ensures 1 <= k <= |NumsText(fs)|
    ensures Snprintf(size, "," + Key(name) + Block(fs)) == "," + Key(name) + ("{" + NumsText(fs)[..k])
    ensures Opens("{" + NumsText(fs)[..k])
  {
    hide Key, NumsText;
    var x := "," + Key(name) + Block(fs);
    KeyLength(name);
    k := size - 3 - |Key(name)|;
    assert x == ("," + Key(name)) + ("{" + (NumsText(fs) + "}"));
    assert x[..size - 1] == "," + Key(name) + ("{" + NumsText(fs)[..k]);
    NumsOpen(fs);
  }

  lemma NumsOpen(fs: seq<Num>)
    requires AreNums(fs)
    ensures NumsText(fs) != "" && NumsText(fs)[0] == '"'
  {}

  lemma OpensMore(x: string, y: string)
    requires Opens(x)
    ensures Opens(x + y)
  {}

  // ---- The parts of an index ----

  lemma HeadsOpen(ix: Index)
    ensures Opens(IndexHead(ix)) && Opens(AnnHead(ix))
  {
    IndexHeadOpens(ix);
    AnnHeadOpens(ix);
  }

  lemma IndexHeadOpens(ix: Index)
    ensures Opens(IndexHead(ix))
  {
    hide Key, Quoted, IntText, KindName;
    KeyOpens("name");
    var b := "{" + Key("name") + Quoted(ix.name);
    var c := b + "," + Key("column_id") + IntText(ix.columnId);
    var d := c + "," + Key("kind") + Quoted(KindName(ix.kind));
    assert Opens(b);
    assert Opens(c);
    assert Opens(d);
  }

  lemma AnnHeadOpens(ix: Index)
    ensures Opens(AnnHead(ix))
  {
    hide Key, NatText, QuantizationName, AlgorithmName;
    KeyOpens("m");
    var b := "{" + Key("m") + NatText(ix.annM);
    var c := b + "," + Key("ef_construction") + NatText(ix.annEfConstruction);
    var d := c + "," + Key("ef_search") + NatText(ix.annEfSearch);
    assert Opens(b);
    assert Opens(c);
    assert Opens(d);
  }

  /** The first tuning block of an index: its name, its buffer and its numbers. */
  datatype FirstBlock = FirstBlock(name: string, size: nat, nums: seq<Num>)

  function FirstOf(ix: Index): (f: FirstBlock)
    requires ix.algorithm != Hnsw
    ensures IsName(f.name) && AreNums(f.nums) && f.size >= |f.name| + 8
  {
    if ix.algorithm == Diskann then FirstBlock("diskann", 96, DiskannNums(ix)) else FirstBlock("ivf", 64, IvfNums(ix))
  }

  /** options.ann up to and including the first tuning block. */
  function AnnFirst(ix: Index): string {
    if ix.algorithm == Hnsw then AnnHead(ix)
    else WithBlock(AnnHead(ix), FirstOf(ix).size, FirstOf(ix).name, Block(FirstOf(ix).nums))
  }

  predicate FirstWhole(ix: Index) {
    ix.algorithm == Hnsw
    || var x := "," + Key(FirstOf(ix).name) + Block(FirstOf(ix).nums); Snprintf(FirstOf(ix).size, x) == x
  }

  predicate ProductWhole(ix: Index) {
    var x := "," + Key("product") + Block(ProductNums(ix)); Snprintf(96, x) == x
  }

  lemma WholeIffFits(ix: Index)
    ensures TuningFits(ix) <==> FirstWhole(ix) && (ix.quantization == Product ==> ProductWhole(ix))
  {
    hide Snprintf, Block, Key, DiskannText, IvfText, ProductText, DiskannNums, IvfNums, ProductNums, DiskannDigits,
         IvfDigits, ProductDigits;
    BlocksAreNums(ix);
    BlocksWholeIffFew(ix);
  }

  lemma AnnFromFirst(ix: Index)
    ensures AnnText(ix) == (if ix.quantization == Product
                            then WithBlock(AnnFirst(ix), 96, "product", Block(ProductNums(ix))) else AnnFirst(ix)) + "}"
  {
    hide AnnHead, WithBlock, AnnText, Block, DiskannNums, IvfNums, ProductNums, DiskannText, IvfText, ProductText;
    BlocksAreNums(ix);
    AnnFromHead(ix);
  }

  /** With a whole first block, options.ann so far is an object that goes on. */
  lemma AnnFirstHolds(ix: Index) returns (ms: seq<Member>)
    requires FirstWhole(ix)
    ensures Holds(AnnFirst(ix), "{", ms) && Opens(AnnFirst(ix))
  {
    hide Holds, IsFragment, Block, AnnHead, Key, DiskannText, IvfText, ProductText, Snprintf, Opens,
         DiskannNums, IvfNums, ProductNums, HasNat;
    ms := AnnHeadHolds(ix);
    HeadsOpen(ix);
    if ix.algorithm != Hnsw {
      BlocksAreNums(ix);
      DiskannIsFragment(ix);
      IvfIsFragment(ix);
      var f := FirstOf(ix);
      ms := GrowBlock(AnnHead(ix), ms, f.size, f.name, Block(f.nums));
      OpensMore(AnnHead(ix), Snprintf(f.size, "," + Key(f.name) + Block(f.nums)));
    }
  }

  /** An index whose options.ann ends in the block called name, cut down to z. */
  lemma IndexIsCutText(ix: Index, b: string, name: string, z: string)
    requires ix.kind == Ann && AnnText(ix) == b + ("," + Key(name) + z) + "}"
    ensures IndexText(ix) == CutText(IndexHead(ix), b, name, z)
  {
    hide Key, AnnText, Quoted, IntText, KindName;
    assert IndexText(ix) == WithOptions(IndexHead(ix), "ann", AnnText(ix)) + "}";
    CutTextShape(IndexHead(ix), b, name, z);
  }

  lemma CutTextShape(head: string, b: string, name: string, z: string)
    ensures WithOptions(head, "ann", b + ("," + Key(name) + z) + "}") + "}" == CutText(head, b, name, z)
  {
    hide Key;
    var o, a, n := Key("options"), Key("ann"), Key(name);
    assert head + "," + o + ("{" + a + (b + ("," + n + z) + "}") + "}") + "}"
        == head + "," + o + "{" + a + b + "," + n + z + "}}}";
  }

  // ---- Broken indexes ----

  /** Where the cut block of an index is, and that three braces and the end of the index follow it. */
  lemma CutPlaces(s: string, i: nat, head: string, ann: string, name: string, z: string)
    requires var x := CutText(head, ann, name, z); At(s, i, x) && AfterIndex(s, i + |x|)
    ensures var b := BlockStart(i, head, ann, name); At(s, b, z) && Closing(s, b + |z|, 3)
  {
    hide At, Key, AfterIndex;
    var before := head + "," + Key("options") + "{" + Key("ann") + ann + "," + Key(name);
    assert CutText(head, ann, name, z) == before + (z + "}}}");
    AtSplit(s, i, before, z + "}}}");
    AtSplit(s, i + |before|, z, "}}}");
    ThreeBraces(s, i + |before| + |z|);
  }

  lemma ThreeBraces(s: string, j: nat)
    requires At(s, j, "}}}") && AfterIndex(s, j + 3)
    ensures Closing(s, j, 3)
  {
    AtChars(s, j, "}}}");
    assert s[j + 0] == '}' && s[j + 1] == '}' && s[j + 2] == '}';
  }

  /** The last block was cut: its object, options.ann and options end, the index does not. */
  lemma LastCutBreaks(s: string, i: nat, head: string, ms1: seq<Member>, ann: string, ms2: seq<Member>, name: string,
                      fs: seq<Num>, k: nat)
    requires Holds(head, "{", ms1) && Holds(ann, "{", ms2) && IsName(name) && Opens(head) && Opens(ann)
    requires AreNums(fs) && 1 <= k <= |NumsText(fs)|
    requires var x := CutText(head, ann, name, "{" + NumsText(fs)[..k]); At(s, i, x) && AfterIndex(s, i + |x|)
    ensures ParseValue(s, i).None?
  {
    hide ParseValue, ParseMembers, Holds, Key, At, CutText, NumsText, AfterIndex, AreNums, BlockStart, IsName;
    var x := NumsText(fs)[..k];
    var b := BlockStart(i, head, ann, name);
    CutPlaces(s, i, head, ann, name, "{" + x);
    AtSplit(s, b, "{", x);
    assert Opens("{" + x) by { NumsOpen(fs); }
    if ParseMembers(s, b + 1).Some? {
      CutBlockEnds(s, b + 1, fs, k, 3);
    }
    CutIsBroken(s, i, head, ms1, ann, ms2, name, "{" + x, b + 1 + k + 1);
  }

  /** A block that lost its end, followed by a second block, whole or not. */
  function Swallowing(x: string, y: string, close: string): string {
    ("{" + x) + (("," + Key("product")) + (("{" + y) + close))
  }

  lemma SwallowingPlaces(s: string, i: nat, x: string, y: string, close: string)
    requires At(s, i, Swallowing(x, y, close)) && y != "" && y[0] == '"'
    ensures var j := i + 1 + |x|;
            var v := j + 1 + |Key("product")|;
            && At(s, i + 1, x) && NextField(s, j) && At(s, j + 1, Key("product"))
            && At(s, v, "{" + y) && v + 1 < |s| && s[v] == '{' && s[v + 1] == '"'
            && At(s, v + 1, y) && At(s, v + 1 + |y|, close)
            && |Swallowing(x, y, close)| == |x| + |y| + 3 + |Key("product")| + |close|
  {
    hide At, Key;
    var j := i + 1 + |x|;
    var v := j + 1 + |Key("product")|;
    AtSplit(s, i, "{" + x, ("," + Key("product")) + (("{" + y) + close));
    AtSplit(s, i, "{", x);
    AtSplit(s, j, "," + Key("product"), ("{" + y) + close);
    AtSplit(s, j, ",", Key("product"));
    AtSplit(s, v, "{" + y, close);
    AtSplit(s, v, "{", y);
    NextIsProduct(s, j);
    TwoAt(s, v, "{" + y);
  }

  lemma NextIsProduct(s: string, j: nat)
    requires At(s, j, "," + Key("product"))
    ensures NextField(s, j)
  {
    AtChars(s, j, "," + Key("product"));
    assert s[j + 0] == ("," + Key("product"))[0] && s[j + 1] == ("," + Key("product"))[1];
    assert s[j + 2] == ("," + Key("product"))[2];
  }

  /** The second block is read inside the first, and takes up one more brace. */
  lemma SwallowedEnds(s: string, i: nat, fs: seq<Num>, k: nat, gs: seq<Num>, m: nat, n: nat)
    requires AreNums(fs) && k <= |NumsText(fs)| && AreNums(gs) && m <= |NumsText(gs)| && n >= 2
    requires At(s, i, NumsText(fs)[..k]) && NextField(s, i + k) && At(s, i + k + 1, Key("product"))
    requires var v := i + k + 1 + |Key("product")|;
             && v + 1 < |s| && s[v] == '{' && s[v + 1] == '"' && At(s, v + 1, NumsText(gs)[..m])
             && Closing(s, v + 1 + m, n)
    requires ParseMembers(s, i).Some?
    ensures ParseMembers(s, i).value.end == i + k + 1 + |Key("product")| + 1 + m + 2
  {
    hide ParseMembers, Key, At, NumsText, AfterIndex, NoName, AreNums, In, IsName;
    var v := i + k + 1 + |Key("product")|;
    NotSpaces();
    NextFieldEndsNoName(s, i + k);
    CutRun(s, i, fs, k);
    assert IsName("product") by { BlockNamesAreNames(); }
    IntoField(s, i + k + 1, "product");
    CutBlockEnds(s, v + 1, gs, m, n);
  }

  lemma BlockNamesAreNames()
    ensures IsName("product")
  {}

  /** The first block was cut: one brace is missing, or two if the second was cut as well. */
  lemma FirstCutBreaksText(s: string, i: nat, head: string, ms1: seq<Member>, ann: string, ms2: seq<Member>,
                           name: string, fs: seq<Num>, k: nat, gs: seq<Num>, m: nat, close: string)
    requires Holds(head, "{", ms1) && Holds(ann, "{", ms2) && IsName(name) && Opens(head) && Opens(ann)
    requires AreNums(fs) && 1 <= k <= |NumsText(fs)| && AreNums(gs) && 1 <= m <= |NumsText(gs)|
    requires close == "" || close == "}"
    requires var x := CutText(head, ann, name, Swallowing(NumsText(fs)[..k], NumsText(gs)[..m], close));
             At(s, i, x) && AfterIndex(s, i + |x|)
    ensures ParseValue(s, i).None?
  {
    hide ParseValue, ParseMembers, Holds, Key, At, CutText, Swallowing, NumsText, AfterIndex, AreNums, BlockStart,
         IsName, NextField;
    var x, y := NumsText(fs)[..k], NumsText(gs)[..m];
    var z := Swallowing(x, y, close);
    var b := BlockStart(i, head, ann, name);
    var c := b + 1 + k + 1 + |Key("product")| + 1 + m;
    NumsOpen(fs);
    NumsOpen(gs);
    assert Opens(z) by { SwallowingOpens(x, y, close); }
    CutPlaces(s, i, head, ann, name, z);
    SwallowingPlaces(s, b, x, y, close);
    assert Closing(s, c, 3 + |close|) by { OneMoreBrace(s, c, close); }
    if ParseMembers(s, b + 1).Some? {
      SwallowedEnds(s, b + 1, fs, k, gs, m, 3 + |close|);
    }
    CutIsBroken(s, i, head, ms1, ann, ms2, name, z, c + 2);
  }

  lemma OneMoreBrace(s: string, j: nat, close: string)
    requires (close == "" || close == "}") && At(s, j, close) && Closing(s, j + |close|, 3)
    ensures Closing(s, j, 3 + |close|)
  {
    hide AfterIndex;
    if close == "}" { FirstAt(s, j, close); }
  }

  lemma SwallowingOpens(x: string, y: string, close: string)
    requires x != "" && x[0] == '"'
    ensures Opens(Swallowing(x, y, close))
  {
    hide Key;
  }

  /** How options.ann ends when the first block lost its end. */
  lemma FirstCutShape(ix: Index) returns (k: nat)
    requires ix.kind == Ann && !FirstWhole(ix)
    ensures ix.algorithm != Hnsw
    ensures var f := FirstOf(ix);
            && AreNums(f.nums) && 1 <= k <= |NumsText(f.nums)|
            && AnnText(ix)
               == AnnHead(ix) + ("," + Key(f.name) + (("{" + NumsText(f.nums)[..k]) + Second(ix))) + "}"
  {
    hide AnnHead, Key, Block, ProductNums, DiskannNums, IvfNums, Snprintf, NumsText, Opens, AreNums, AnnText;
    var f := FirstOf(ix);
    k := CutBlock(f.size, f.name, f.nums);
    AnnFromFirst(ix);
    Regroup(AnnHead(ix), "," + Key(f.name), "{" + NumsText(f.nums)[..k], Second(ix));
  }

  /** What the product block appends. */
  function Second(ix: Index): string {
    if ix.quantization == Product then Snprintf(96, "," + Key("product") + Block(ProductNums(ix))) else ""
  }

  lemma Regroup(b: string, key: string, x: string, y: string)
    ensures (b + (key + x)) + y == b + (key + (x + y))
    ensures y == "" ==> b + (key + x) == b + (key + (x + y))
  {}

  /** The product block as it is emitted: its numbers up to m, and its brace if it fits. */
  lemma SecondShape(ix: Index, x: string) returns (m: nat, close: string)
    requires ix.quantization == Product
    ensures AreNums(ProductNums(ix)) && 1 <= m <= |NumsText(ProductNums(ix))| && (close == "" || close == "}")
    ensures ("{" + x) + Second(ix) == Swallowing(x, NumsText(ProductNums(ix))[..m], close)
  {
    hide Key, ProductNums, NumsText, Snprintf, AreNums;
    NumsAreNamed(ix);
    var gs := ProductNums(ix);
    assert NumsText(gs) != "" by { NumsOpen(gs); }
    if ProductWhole(ix) {
      m, close := |NumsText(gs)|, "}";
      assert NumsText(gs)[..m] == NumsText(gs);
      assert "," + Key("product") + Block(gs) == ("," + Key("product")) + (("{" + NumsText(gs)) + "}");
    } else {
      m := CutBlock(96, "product", gs);
      close := "";
      assert ("{" + NumsText(gs)[..m]) + "" == "{" + NumsText(gs)[..m];
    }
  }

  lemma ProductCutBreaks(s: string, i: nat, ix: Index)
    requires ix.kind == Ann && ix.quantization == Product && FirstWhole(ix) && !ProductWhole(ix)
    requires At(s, i, IndexText(ix)) && AfterIndex(s, i + |IndexText(ix)|)
    ensures ParseValue(s, i).None?
  {
    hide At, AfterIndex, Holds, Block, AnnFirst, Key, Opens, IndexHead, IndexText, Snprintf, ProductNums, NumsText,
         CutText, ParseValue, AnnText, FirstWhole;
    var inner := AnnFirstHolds(ix);
    var outer := IndexHeadHolds(ix);
    HeadsOpen(ix);
    NumsAreNamed(ix);
    var k := CutBlock(96, "product", ProductNums(ix));
    AnnFromFirst(ix);
    IndexIsCutText(ix, AnnFirst(ix), "product", "{" + NumsText(ProductNums(ix))[..k]);
    LastCutBreaks(s, i, IndexHead(ix), outer, AnnFirst(ix), inner, "product", ProductNums(ix), k);
  }

  lemma FirstCutBreaks(s: string, i: nat, ix: Index)
    requires ix.kind == Ann && !FirstWhole(ix) && ix.quantization != Product
    requires At(s, i, IndexText(ix)) && AfterIndex(s, i + |IndexText(ix)|)
    ensures ParseValue(s, i).None?
  {
    hide At, AfterIndex, Holds, AnnHead, Key, Opens, IndexHead, IndexText, NumsText, CutText, ParseValue, AnnText,
         FirstWhole, AreNums, FirstOf, IsName, IsBlockName, Named,
         AnnReads, IndexReads;
    var inner := AnnHeadHolds(ix);
    var outer := IndexHeadHolds(ix);
    HeadsOpen(ix);
    var k := FirstCutShape(ix);
    var f := FirstOf(ix);
    var x := "{" + NumsText(f.nums)[..k];
    assert x + "" == x;
    IndexIsCutText(ix, AnnHead(ix), f.name, x);
    LastCutBreaks(s, i, IndexHead(ix), outer, AnnHead(ix), inner, f.name, f.nums, k);
  }

  lemma FirstCutThenProductBreaks(s: string, i: nat, ix: Index)
    requires ix.kind == Ann && !FirstWhole(ix) && ix.quantization == Product
    requires At(s, i, IndexText(ix)) && AfterIndex(s, i + |IndexText(ix)|)
    ensures ParseValue(s, i).None?
  {
    hide At, AfterIndex, Holds, AnnHead, Key, Opens, IndexHead, IndexText, NumsText, CutText, ParseValue, AnnText,
         FirstWhole, Swallowing, AreNums, Second, ProductNums, FirstOf, IsName, IsBlockName, Named,
         AnnReads, IndexReads;
    var inner := AnnHeadHolds(ix);
    var outer := IndexHeadHolds(ix);
    HeadsOpen(ix);
    var k := FirstCutShape(ix);
    var f := FirstOf(ix);
    var x := NumsText(f.nums)[..k];
    var m, close := SecondShape(ix, x);
    IndexIsCutText(ix, AnnHead(ix), f.name, ("{" + x) + Second(ix));
    FirstCutBreaksText(s, i, IndexHead(ix), outer, AnnHead(ix), inner, f.name, f.nums, k, ProductNums(ix), m, close);
  }

  /** An index with a block that does not fit cannot be read, alone or in a list of indexes. */
  lemma UnfitIndexBreaks(s: string, i: nat, ix: Index)
    requires !IndexFits(ix) && At(s, i, IndexText(ix)) && AfterIndex(s, i + |IndexText(ix)|)
    ensures ParseValue(s, i).None?
  {
    hide At, AfterIndex, ParseValue, IndexText, FirstWhole, ProductWhole, TuningFits;
    WholeIffFits(ix);
    if FirstWhole(ix) {
      ProductCutBreaks(s, i, ix);
    } else if ix.quantization == Product {
      FirstCutThenProductBreaks(s, i, ix);
    } else {
      FirstCutBreaks(s, i, ix);
    }
  }

  /**
   An index is one complete JSON value exactly when every tuning block it emits has few
   enough digits for its buffer; otherwise not even the lenient walker can read it.
   */
  lemma IndexIsValueIffTuningFits(ix: Index)
    ensures IsWhole(IndexText(ix)) <==> IndexFits(ix)
    ensures ParseValue(IndexText(ix), 0).Some? <==> IndexFits(ix)
  {
    hide ParseValue, IsWhole, IsFragment, IndexText, TuningFits;
    var x := IndexText(ix);
    if IndexFits(ix) {
      IndexIsFragment(ix);
      WholeIsComplete(x);
    } else {
      AtSlice(x, 0, |x|);
      assert x[0..|x|] == x;
      UnfitIndexBreaks(x, 0, ix);
      if IsWhole(x) { WholeIsComplete(x); }
    }
  }

  const ALL_ONES: uint64 := TWO64 - 1

  function HugeIndex(): Index {
    Index("i", 1, Ann, None, 16, 64, 64, Dense, Diskann, ALL_ONES, ALL_ONES, ALL_ONES, 0, 0, 0, 0, 0, 0, 0,
          0, 0, 0, 0)
  }

  /** Three tuning numbers of twenty digits are too many. */
  lemma HugeIndexIsNoValue()
    ensures !IndexFits(HugeIndex()) && ParseValue(IndexText(HugeIndex()), 0).None?
  {
    hide ParseValue, IndexText, NatText;
    assert Pow10(5) == 100_000;
    Pow10Join(5, 5);
    Pow10Join(10, 5);
    DigitsAtLeast(ALL_ONES, 15);
    assert Pow10(2) == 100;
    DigitsAtLeast(120, 2);
    IndexIsValueIffTuningFits(HugeIndex());
  }

  function Pow10(k: nat): nat { if k == 0 then 1 else 10 * Pow10(k - 1) }

  lemma {:induction false} Pow10Join(a: nat, b: nat)
    ensures Pow10(a + b) == Pow10(a) * Pow10(b)
    decreases a
  {
    if a > 0 {
      Pow10Join(a - 1, b);
      ProductAssociates(10, Pow10(a - 1), Pow10(b));
    }
  }

  lemma {:induction false} DigitsAtLeast(n: nat, k: nat)
    requires n >= Pow10(k)
    ensures Digits(n) > k
    decreases k
  {
    if k > 0 { DigitsAtLeast(n / 10, k - 1); }
  }
}
