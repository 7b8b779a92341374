/** Which create_table bodies are well formed, and what can be read back from an index. */
module TableLaws {
  import opened Bytes
  import opened StringLaws
  import opened Numbers
  import opened Grammar
  import opened GrammarLaws
  import opened Build
  import opened Fragments
  import opened Paths
  import opened Requests
  import opened Tables

  // ---- Reading names ----

  function KindIn(v: Option<Tree>): Option<IndexKind> {
    match StringOf(v)
    case None => None
    case Some(x) =>
      if x == "bitmap" then Some(Bitmap)
      else if x == "fm_index" then Some(Fm)
      else if x == "ann" then Some(Ann)
      else if x == "learned_range" then Some(LearnedRange)
      else if x == "minhash" then Some(MinHash)
      else if x == "sparse" then Some(Sparse)
      else None
  }

  function QuantizationIn(v: Option<Tree>): Option<Quantization> {
    match StringOf(v)
    case None => None
    case Some(x) =>
      if x == "binary_sign" then Some(BinarySign)
      else if x == "dense" then Some(Dense)
      else if x == "product" then Some(Product)
      else None
  }

  /** An absent algorithm is hnsw. */
  function AlgorithmIn(v: Option<Tree>): Option<Algorithm> {
    match StringOf(v)
    case None => if v.None? then Some(Hnsw) else None
    case Some(x) => if x == "diskann" then Some(Diskann) else if x == "ivf" then Some(Ivf) else None
  }

  lemma KindIsRead(v: Option<Tree>, kind: IndexKind)
    requires StringOf(v) == Some(KindName(kind))
    ensures KindIn(v) == Some(kind)
  {
    hide StringOf;
    assert |"bitmap"| == 6 && |"fm_index"| == 8 && |"ann"| == 3 && |"learned_range"| == 13 && |"minhash"| == 7;
    assert |"sparse"| == 6 && "sparse"[0] == 's' && "bitmap"[0] == 'b';
  }

  lemma QuantizationIsRead(v: Option<Tree>, q: Quantization)
    requires StringOf(v) == Some(QuantizationName(q))
    ensures QuantizationIn(v) == Some(q)
  {
    hide StringOf;
    assert |"binary_sign"| == 11 && |"dense"| == 5 && |"product"| == 7;
  }

  lemma AlgorithmIsRead(v: Option<Tree>, a: Algorithm)
    requires if a == Hnsw then v == None else StringOf(v) == Some(AlgorithmName(a))
    ensures AlgorithmIn(v) == Some(a)
  {
    assert |"diskann"| == 7 && |"ivf"| == 3;
  }

  // ---- Tuning blocks ----

  lemma NatIsFragment(n: nat)
    ensures IsFragment(NatText(n)) && FragmentTree(NatText(n)) == Number(NatText(n))
  {
    IntIsFragment(n);
  }

  /** Appends a numeric field. */
  lemma GrowNat(b: string, ms: seq<Member>, name: string, n: nat) returns (ms': seq<Member>)
    requires Holds(b, "{", ms) && IsName(name)
    ensures Holds(b + "," + Key(name) + NatText(n), "{", ms')
    ensures forall key :: Named(ms', key)
                          == OrElse(Named(ms, key), if key == name then Some(Number(NatText(n))) else None)
  {
    hide Key, Holds, IsFragment, IsWhole, NatText;
    NatIsFragment(n);
    ms' := GrowFragment(b, "{", ms, name, NatText(n));
  }

  lemma StartNat(name: string, n: nat) returns (ms: seq<Member>)
    requires IsName(name)
    ensures Holds("{" + Key(name) + NatText(n), "{", ms)
    ensures forall key :: Named(ms, key) == if key == name then Some(Number(NatText(n))) else None
  {
    hide Key, Holds, IsFragment, IsWhole, NatText;
    NatIsFragment(n);
    ms := StartFragment("{", name, NatText(n));
  }

  /** The member called name of the object t is the number n. */
  predicate HasNat(t: Tree, name: string, n: nat) {
    t.Obj? && Named(t.members, name) == Some(Number(NatText(n)))
  }

  lemma DiskannIsFragment(ix: Index)
    ensures IsFragment(DiskannText(ix))
    ensures var t := FragmentTree(DiskannText(ix));
            && HasNat(t, "r", OrDefault(ix.diskannR, 64)) && HasNat(t, "l", OrDefault(ix.diskannL, 128))
            && HasNat(t, "beam_width", OrDefault(ix.diskannBeamWidth, 8))
            && HasNat(t, "alpha", OrDefault(ix.diskannAlpha, 120))
  {
    hide Key, Holds, IsFragment, IsWhole, NatText, Named;
    var r, l, w, a := OrDefault(ix.diskannR, 64), OrDefault(ix.diskannL, 128), OrDefault(ix.diskannBeamWidth, 8),
      OrDefault(ix.diskannAlpha, 120);
    assert "r"[0] != "l"[0] && |"beam_width"| == 10 && |"alpha"| == 5;
    var ms := StartNat("r", r);
    var b := "{" + Key("r") + NatText(r);
    ms := GrowNat(b, ms, "l", l);
    b := b + "," + Key("l") + NatText(l);
    ms := GrowNat(b, ms, "beam_width", w);
    b := b + "," + Key("beam_width") + NatText(w);
    ms := GrowNat(b, ms, "alpha", a);
    b := b + "," + Key("alpha") + NatText(a);
    FinishFragment(b, ms);
  }

  lemma IvfIsFragment(ix: Index)
    ensures IsFragment(IvfText(ix))
    ensures var t := FragmentTree(IvfText(ix));
            HasNat(t, "nlist", OrDefault(ix.ivfNlist, 256)) && HasNat(t, "nprobe", OrDefault(ix.ivfNprobe, 8))
  {
    hide Key, Holds, IsFragment, IsWhole, NatText, Named;
    var n, p := OrDefault(ix.ivfNlist, 256), OrDefault(ix.ivfNprobe, 8);
    assert |"nlist"| == 5 && |"nprobe"| == 6;
    var ms := StartNat("nlist", n);
    var b := "{" + Key("nlist") + NatText(n);
    ms := GrowNat(b, ms, "nprobe", p);
    FinishFragment(b + "," + Key("nprobe") + NatText(p), ms);
  }

  lemma ProductIsFragment(ix: Index)
    ensures IsFragment(ProductText(ix))
    ensures var t := FragmentTree(ProductText(ix));
            && HasNat(t, "training_samples", OrDefault(ix.pqTrainingSamples, 256000))
            && HasNat(t, "seed", OrDefault(ix.pqSeed, 0x9E3779B97F4A7C15))
            && HasNat(t, "rerank_factor", OrDefault(ix.pqRerankFactor, 5))
  {
    hide Key, Holds, IsFragment, IsWhole, NatText, Named;
    var n, s, f := OrDefault(ix.pqTrainingSamples, 256000), OrDefault(ix.pqSeed, 0x9E3779B97F4A7C15),
      OrDefault(ix.pqRerankFactor, 5);
    assert |"training_samples"| == 16 && |"seed"| == 4 && |"rerank_factor"| == 13;
    var ms := StartNat("training_samples", n);
    var b := "{" + Key("training_samples") + NatText(n);
    ms := GrowNat(b, ms, "seed", s);
    b := b + "," + Key("seed") + NatText(s);
    ms := GrowNat(b, ms, "rerank_factor", f);
    FinishFragment(b + "," + Key("rerank_factor") + NatText(f), ms);
  }

  // ---- The options.ann object ----

  /** The part of options.ann before the tuning blocks. */
  function AnnHead(ix: Index): string {
    var b := "{" + Key("m") + NatText(ix.annM);
    var b := b + "," + Key("ef_construction") + NatText(ix.annEfConstruction);
    var b := b + "," + Key("ef_search") + NatText(ix.annEfSearch);
    var b := b + "," + Key("quantization") + ("\"" + QuantizationName(ix.quantization) + "\"");
    if ix.algorithm != Hnsw then b + "," + Key("algorithm") + ("\"" + AlgorithmName(ix.algorithm) + "\"") else b
  }

  predicate IsBlockName(key: string) { key == "diskann" || key == "ivf" || key == "product" }

  lemma BlockNamesDiffer(key: string)
    requires IsBlockName(key)
    ensures IsName(key)
    ensures key != "m" && key != "ef_construction" && key != "ef_search" && key != "quantization" && key != "algorithm"
    ensures "diskann" != "ivf" && "diskann" != "product" && "ivf" != "product"
  {
    assert |key| == 7 || |key| == 3;
    assert |"m"| == 1 && |"ef_construction"| == 15 && |"ef_search"| == 9 && |"quantization"| == 12;
    assert |"algorithm"| == 9 && "diskann"[0] == 'd' && "product"[0] == 'p';
  }

  lemma AnnNamesDiffer()
    ensures var m, c, s, q, a := "m", "ef_construction", "ef_search", "quantization", "algorithm";
            && m != c && m != s && m != q && m != a && c != s && c != q && c != a && s != q && s != a && q != a
            && IsName(m) && IsName(c) && IsName(s) && IsName(q) && IsName(a)
  {
    assert |"m"| == 1 && |"ef_construction"| == 15 && |"ef_search"| == 9 && |"quantization"| == 12;
    assert |"algorithm"| == 9 && "algorithm"[0] == 'a' && "ef_search"[0] == 'e';
  }

  /** The members that every options.ann object has. */
  ghost predicate AnnReads(ix: Index, ms: seq<Member>) {
    && Named(ms, "m") == Some(Number(NatText(ix.annM)))
    && Named(ms, "ef_construction") == Some(Number(NatText(ix.annEfConstruction)))
    && Named(ms, "ef_search") == Some(Number(NatText(ix.annEfSearch)))
    && QuantizationIn(Named(ms, "quantization")) == Some(ix.quantization)
    && AlgorithmIn(Named(ms, "algorithm")) == Some(ix.algorithm)
  }

  lemma AnnHeadHolds(ix: Index) returns (ms: seq<Member>)
    ensures Holds(AnnHead(ix), "{", ms) && AnnReads(ix, ms)
    ensures forall key | IsBlockName(key) :: Named(ms, key) == None
  {
    hide Key, Holds, IsFragment, IsWhole, NatText, Named, QuantizationName, AlgorithmName, IsBlockName, IsName,
         StringOf, QuantizationIn, AlgorithmIn;
    var q, a := QuantizationName(ix.quantization), AlgorithmName(ix.algorithm);
    NothingHeld();
    AnnNamesDiffer();
    NameHolds(q);
    NameHolds(a);
    ms := StartNat("m", ix.annM);
    var b := "{" + Key("m") + NatText(ix.annM);
    ms := GrowNat(b, ms, "ef_construction", ix.annEfConstruction);
    b := b + "," + Key("ef_construction") + NatText(ix.annEfConstruction);
    ms := GrowNat(b, ms, "ef_search", ix.annEfSearch);
    b := b + "," + Key("ef_search") + NatText(ix.annEfSearch);
    ms := GrowFragment(b, "{", ms, "quantization", "\"" + q + "\"");
    b := b + "," + Key("quantization") + ("\"" + q + "\"");
    if ix.algorithm != Hnsw {
      ms := GrowFragment(b, "{", ms, "algorithm", "\"" + a + "\"");
    }
    QuantizationIsRead(Named(ms, "quantization"), ix.quantization);
    AlgorithmIsRead(Named(ms, "algorithm"), ix.algorithm);
    forall key | IsBlockName(key) ensures Named(ms, key) == None {
      BlockNamesDiffer(key);
    }
  }

  lemma GrowBlock(b: string, ms: seq<Member>, size: nat, name: string, x: string) returns (ms': seq<Member>)
    requires size > 0 && Snprintf(size, "," + Key(name) + x) == "," + Key(name) + x
    requires Holds(b, "{", ms) && IsName(name) && IsFragment(x)
    ensures Holds(WithBlock(b, size, name, x), "{", ms')
    ensures forall key :: Named(ms', key) == OrElse(Named(ms, key), if key == name then Some(FragmentTree(x)) else None)
  {
    hide Key, Holds, IsFragment, IsWhole, Snprintf;
    ms' := GrowFragment(b, "{", ms, name, x);
    assert b + ("," + Key(name) + x) == b + "," + Key(name) + x;
  }

  /** The member of an object, as text. */
  ghost predicate HasFragment(t: Tree, name: string, x: string) {
    t.Obj? && IsFragment(x) && Named(t.members, name) == Some(FragmentTree(x))
  }

  /** Adding a block leaves the other members as they are. */
  lemma BlockKeeps(ix: Index, ms: seq<Member>, ms': seq<Member>, name: string, v: Tree)
    requires AnnReads(ix, ms) && IsBlockName(name)
    requires forall key :: Named(ms', key) == OrElse(Named(ms, key), if key == name then Some(v) else None)
    ensures AnnReads(ix, ms')
  {
    hide Named, IsBlockName, NatText, QuantizationIn, AlgorithmIn;
    BlockNamesDiffer(name);
  }

  /** With blocks that fit, options.ann is a complete object that carries every emitted block. */
  lemma AnnIsFragment(ix: Index)
    requires TuningFits(ix)
    ensures IsFragment(AnnText(ix))
    ensures var t := FragmentTree(AnnText(ix));
            && t.Obj? && AnnReads(ix, t.members)
            && (ix.algorithm == Diskann ==> HasFragment(t, "diskann", DiskannText(ix)))
            && (ix.algorithm == Ivf ==> HasFragment(t, "ivf", IvfText(ix)))
            && (ix.quantization == Product ==> HasFragment(t, "product", ProductText(ix)))
  {
    hide Key, Holds, IsFragment, IsWhole, Named, NatText, DiskannText, IvfText, ProductText, Snprintf, WithBlock,
         AnnHead, DiskannDigits, IvfDigits, ProductDigits, HasNat, AnnReads, IsName;
    BlocksWholeIffFew(ix);
    DiskannIsFragment(ix);
    IvfIsFragment(ix);
    ProductIsFragment(ix);
    BlockNamesDiffer("diskann");
    BlockNamesDiffer("ivf");
    BlockNamesDiffer("product");
    var ms := AnnHeadHolds(ix);
    var b := AnnHead(ix);
    if ix.algorithm == Diskann {
      ghost var before := ms;
      ms := GrowBlock(b, ms, 96, "diskann", DiskannText(ix));
      BlockKeeps(ix, before, ms, "diskann", FragmentTree(DiskannText(ix)));
      b := WithBlock(b, 96, "diskann", DiskannText(ix));
    }
    if ix.algorithm == Ivf {
      ghost var before := ms;
      ms := GrowBlock(b, ms, 64, "ivf", IvfText(ix));
      BlockKeeps(ix, before, ms, "ivf", FragmentTree(IvfText(ix)));
      b := WithBlock(b, 64, "ivf", IvfText(ix));
    }
    if ix.quantization == Product {
      ghost var before := ms;
      ms := GrowBlock(b, ms, 96, "product", ProductText(ix));
      BlockKeeps(ix, before, ms, "product", FragmentTree(ProductText(ix)));
      b := WithBlock(b, 96, "product", ProductText(ix));
    }
    AnnFromHead(ix);
    assert AnnText(ix) == b + "}";
    FinishFragment(b, ms);
  }

  lemma AnnFromHead(ix: Index)
    ensures var b := AnnHead(ix);
            var b := if ix.algorithm == Diskann then WithBlock(b, 96, "diskann", DiskannText(ix)) else b;
            var b := if ix.algorithm == Ivf then WithBlock(b, 64, "ivf", IvfText(ix)) else b;
            var b := if ix.quantization == Product then WithBlock(b, 96, "product", ProductText(ix)) else b;
            AnnText(ix) == b + "}"
  {
    hide Key, NatText, WithBlock, DiskannText, IvfText, ProductText, QuantizationName, AlgorithmName;
  }

  // ---- Whole indexes ----

  /** The part of an index before its options. */
  function IndexHead(ix: Index): string {
    var b := "{" + Key("name") + Quoted(ix.name);
    var b := b + "," + Key("column_id") + IntText(ix.columnId);
    var b := b + "," + Key("kind") + Quoted(KindName(ix.kind));
    if ix.predicate_.Some? then b + "," + Key("predicate") + Quoted(ix.predicate_.value) else b
  }

  lemma IndexNamesDiffer()
    ensures var o, n, c, k, p := "options", "name", "column_id", "kind", "predicate";
            && o != n && o != c && o != k && o != p && n != c && n != k && n != p && c != k && c != p && k != p
            && IsName(o) && IsName(n) && IsName(c) && IsName(k) && IsName(p)
  {
    assert "name"[0] == 'n' && "kind"[0] == 'k' && "column_id"[0] == 'c';
    assert "predicate"[0] == 'p' && "options"[0] == 'o';
  }

  /** The members that every index has. */
  ghost predicate IndexReads(ix: Index, ms: seq<Member>) {
    && StringOf(Named(ms, "name")) == Some(ix.name)
    && IntOf(Named(ms, "column_id")) == Some(ix.columnId)
    && KindIn(Named(ms, "kind")) == Some(ix.kind)
    && StringOf(Named(ms, "predicate")) == ix.predicate_
  }

  lemma IndexHeadHolds(ix: Index) returns (ms: seq<Member>)
    ensures Holds(IndexHead(ix), "{", ms)
    ensures Named(ms, "options") == None && IndexReads(ix, ms)
  {
    hide Key, Quoted, IntText, Holds, IsFragment, IsWhole, Named, KindName, KindIn, IntOf, StringOf, IsName;
    NothingHeld();
    IndexNamesDiffer();
    QuotedHolds(ix.name);
    IntHolds(ix.columnId);
    QuotedHolds(KindName(ix.kind));
    ms := StartFragment("{", "name", Quoted(ix.name));
    var b := "{" + Key("name") + Quoted(ix.name);
    ms := GrowFragment(b, "{", ms, "column_id", IntText(ix.columnId));
    b := b + "," + Key("column_id") + IntText(ix.columnId);
    ms := GrowFragment(b, "{", ms, "kind", Quoted(KindName(ix.kind)));
    b := b + "," + Key("kind") + Quoted(KindName(ix.kind));
    if ix.predicate_.Some? {
      QuotedHolds(ix.predicate_.value);
      ms := GrowFragment(b, "{", ms, "predicate", Quoted(ix.predicate_.value));
    }
    KindIsRead(Named(ms, "kind"), ix.kind);
  }

  /** An index with an options object that has one member. */
  lemma IndexWithOptions(ix: Index, name: string, x: string)
    requires IsName(name) && IsFragment(x)
    ensures var s := WithOptions(IndexHead(ix), name, x) + "}";
            && IsWhole(s) && IsFragment(s)
            && var t := FragmentTree(s);
            && t.Obj? && IndexReads(ix, t.members) && Named(t.members, "options").Some?
            && HasFragment(Named(t.members, "options").value, name, x)
  {
    hide Key, Holds, IsFragment, IsWhole, Named, IndexHead, IsName, StringOf, IntOf, KindIn;
    IndexNamesDiffer();
    var inner := StartFragment("{", name, x);
    FinishFragment("{" + Key(name) + x, inner);
    var ms := IndexHeadHolds(ix);
    ms := GrowFragment(IndexHead(ix), "{", ms, "options", "{" + Key(name) + x + "}");
    FinishFragment(WithOptions(IndexHead(ix), name, x), ms);
  }

  lemma MinHashIsFragment(ix: Index)
    ensures IsFragment(MinHashText(ix))
    ensures var t := FragmentTree(MinHashText(ix));
            HasNat(t, "permutations", ix.minhashPermutations) && HasNat(t, "bands", ix.minhashBands)
  {
    hide Key, Holds, IsFragment, IsWhole, NatText, Named;
    assert |"permutations"| == 12 && |"bands"| == 5;
    var ms := StartNat("permutations", ix.minhashPermutations);
    var b := "{" + Key("permutations") + NatText(ix.minhashPermutations);
    ms := GrowNat(b, ms, "bands", ix.minhashBands);
    FinishFragment(b + "," + Key("bands") + NatText(ix.minhashBands), ms);
  }

  lemma LearnedRangeIsFragment(ix: Index)
    ensures IsFragment(LearnedRangeText(ix))
    ensures HasNat(FragmentTree(LearnedRangeText(ix)), "epsilon", ix.learnedRangeEpsilon)
  {
    hide Key, Holds, IsFragment, IsWhole, NatText, Named;
    var ms := StartNat("epsilon", ix.learnedRangeEpsilon);
    FinishFragment("{" + Key("epsilon") + NatText(ix.learnedRangeEpsilon), ms);
  }

  predicate IndexFits(ix: Index) { ix.kind == Ann ==> TuningFits(ix) }

  /** The one member of an index's options, as its text: only three kinds have any. */
  function OptionsOf(ix: Index): Option<(string, string)> {
    match ix.kind
    case Ann => Some(("ann", AnnText(ix)))
    case MinHash => Some(("minhash", MinHashText(ix)))
    case LearnedRange => Some(("learned_range", LearnedRangeText(ix)))
    case _ => None
  }

  lemma OptionNames()
    ensures IsName("ann") && IsName("minhash") && IsName("learned_range")
  {}

  /** Every index whose tuning blocks fit is a complete RFC 8259 object with the members of ix. */
  lemma IndexIsFragment(ix: Index)
    requires IndexFits(ix)
    ensures IsWhole(IndexText(ix)) && IsFragment(IndexText(ix))
    ensures var t := FragmentTree(IndexText(ix));
            && t.Obj? && IndexReads(ix, t.members)
            && (match OptionsOf(ix)
                case None => Named(t.members, "options") == None
                case Some((name, x)) =>
                  && Named(t.members, "options").Some?
                  && HasFragment(Named(t.members, "options").value, name, x))
  {
    hide Key, Quoted, IntText, Holds, IsFragment, IsWhole, Named, AnnText, MinHashText, LearnedRangeText, WithOptions,
         TuningFits, HasFragment, KindName, IndexReads, IsName;
    OptionNames();
    match ix.kind {
      case Ann =>
        AnnIsFragment(ix);
        IndexWithOptions(ix, "ann", AnnText(ix));
      case MinHash =>
        MinHashIsFragment(ix);
        IndexWithOptions(ix, "minhash", MinHashText(ix));
      case LearnedRange =>
        LearnedRangeIsFragment(ix);
        IndexWithOptions(ix, "learned_range", LearnedRangeText(ix));
      case _ =>
        var ms := IndexHeadHolds(ix);
        FinishFragment(IndexHead(ix), ms);
    }
  }

  /** Parsing an index gives back its fields, and those of its options that its kind has. */
  lemma IndexRecovered(ix: Index)
    requires IndexFits(ix)
    ensures var x := IndexText(ix);
            && Parse(x).Some? && Parse(x).value.Obj? && IndexReads(ix, Parse(x).value.members)
            && (ix.kind == Ann ==> AnnReads(ix, ObjectAlong(x, ["options", "ann"])))
            && (ix.kind == MinHash ==>
                  && NumberAlong(x, ["options", "minhash", "permutations"]) == Some(ix.minhashPermutations)
                  && NumberAlong(x, ["options", "minhash", "bands"]) == Some(ix.minhashBands))
            && (ix.kind == LearnedRange ==>
                  NumberAlong(x, ["options", "learned_range", "epsilon"]) == Some(ix.learnedRangeEpsilon))
            && (ix.kind == Bitmap || ix.kind == Fm || ix.kind == Sparse ==> MemberIn(x, "options") == None)
  {
    hide NumberAlong, Named, IsFragment, IsWhole, HasNat, IndexText, AnnText, MinHashText, LearnedRangeText, TuningFits,
         IndexReads, AnnReads, Parse, ObjectAlong, Text, Strict;
    var x := IndexText(ix);
    IndexIsFragment(ix);
    ParseFragment(x);
    match ix.kind {
      case Ann =>
        AnnIsFragment(ix);
        ObjectRecovered(x, "ann", AnnText(ix));
      case MinHash =>
        MinHashIsFragment(ix);
        NatRecovered(x, "minhash", MinHashText(ix), "permutations", ix.minhashPermutations);
        NatRecovered(x, "minhash", MinHashText(ix), "bands", ix.minhashBands);
      case LearnedRange =>
        LearnedRangeIsFragment(ix);
        NatRecovered(x, "learned_range", LearnedRangeText(ix), "epsilon", ix.learnedRangeEpsilon);
      case _ =>
    }
  }

  // ---- Reading tuning numbers back ----

  /** The number a body holds along a path of member names. */
  function NumberAlong(body: string, path: seq<string>): Option<nat> {
    match Parse(body)
    case None => None
    case Some(t) =>
      match Along(t, path)
      case Some(Number(x)) => if AllIn(x, Digit) then Some(NatValue(x)) else None
      case _ => None
  }

  /** The members of the object that a body holds along a path. */
  function ObjectAlong(body: string, path: seq<string>): seq<Member> {
    match Parse(body)
    case None => []
    case Some(t) =>
      match Along(t, path)
      case Some(Obj(_, ms)) => ms
      case _ => []
  }

  /** A body has options with a member called name whose text is x. */
  ghost predicate HasOption(body: string, name: string, x: string) {
    && IsFragment(body) && FragmentTree(body).Obj?
    && Named(FragmentTree(body).members, "options").Some?
    && HasFragment(Named(FragmentTree(body).members, "options").value, name, x)
  }

  lemma OptionAlong(body: string, name: string, x: string, rest: seq<string>)
    requires HasOption(body, name, x)
    ensures Parse(body).Some?
    ensures Along(Parse(body).value, ["options"] + ([name] + rest)) == Along(FragmentTree(x), rest)
  {
    hide Parse, Named, IsFragment, IsWhole, Text, Strict, Along;
    ParseFragment(body);
    var t := FragmentTree(body);
    AlongStep(t, "options", [name] + rest);
    AlongStep(Named(t.members, "options").value, name, rest);
  }

  lemma ObjectRecovered(body: string, name: string, x: string)
    requires HasOption(body, name, x) && FragmentTree(x).Obj?
    ensures ObjectAlong(body, ["options", name]) == FragmentTree(x).members
  {
    hide Parse, Named, IsFragment, IsWhole;
    OptionAlong(body, name, x, []);
    assert ["options", name] == ["options"] + ([name] + []);
  }

  lemma NatRecovered(body: string, option: string, x: string, name: string, n: nat)
    requires HasOption(body, option, x) && HasNat(FragmentTree(x), name, n)
    ensures NumberAlong(body, ["options", option, name]) == Some(n)
  {
    hide Parse, Named, IsFragment, IsWhole, NatText, NatValue;
    NatTextInverse(n);
    OptionAlong(body, option, x, [name]);
    AlongStep(FragmentTree(x), name, []);
    assert [name] == [name] + [];
    assert ["options", option, name] == ["options"] + ([option] + [name]);
  }

  lemma TuningNatRecovered(body: string, ann: string, block: string, x: string, name: string, n: nat)
    requires HasOption(body, "ann", ann) && HasFragment(FragmentTree(ann), block, x) && HasNat(FragmentTree(x), name, n)
    ensures NumberAlong(body, ["options", "ann", block, name]) == Some(n)
  {
    hide Parse, Named, IsFragment, IsWhole, NatText, NatValue;
    NatTextInverse(n);
    OptionAlong(body, "ann", ann, [block] + [name]);
    AlongStep(FragmentTree(ann), block, [name]);
    AlongStep(FragmentTree(x), name, []);
    assert [name] == [name] + [];
    assert ["options", "ann", block, name] == ["options"] + (["ann"] + ([block] + [name]));
  }

  /**
   When the digits of the emitted blocks total at most 50, 36 and 38, the index is a
   complete object from which every tuning number, with zeros replaced by the defaults, is
   read back along its path.
   */
  lemma TuningRecovered(ix: Index)
    requires ix.kind == Ann && TuningFits(ix)
    ensures var x := IndexText(ix);
            && IsWhole(x)
            && (ix.algorithm == Diskann ==>
                  && NumberAlong(x, ["options", "ann", "diskann", "r"])
                     == Some(if ix.diskannR == 0 then 64 else ix.diskannR)
                  && NumberAlong(x, ["options", "ann", "diskann", "l"])
                     == Some(if ix.diskannL == 0 then 128 else ix.diskannL)
                  && NumberAlong(x, ["options", "ann", "diskann", "beam_width"])
                     == Some(if ix.diskannBeamWidth == 0 then 8 else ix.diskannBeamWidth)
                  && NumberAlong(x, ["options", "ann", "diskann", "alpha"])
                     == Some(if ix.diskannAlpha == 0 then 120 else ix.diskannAlpha))
            && (ix.algorithm == Ivf ==>
                  && NumberAlong(x, ["options", "ann", "ivf", "nlist"])
                     == Some(if ix.ivfNlist == 0 then 256 else ix.ivfNlist)
                  && NumberAlong(x, ["options", "ann", "ivf", "nprobe"])
                     == Some(if ix.ivfNprobe == 0 then 8 else ix.ivfNprobe))
            && (ix.quantization == Product ==>
                  && NumberAlong(x, ["options", "ann", "product", "training_samples"])
                     == Some(if ix.pqTrainingSamples == 0 then 256000 else ix.pqTrainingSamples)
                  && NumberAlong(x, ["options", "ann", "product", "seed"])
                     == Some(if ix.pqSeed == 0 then 0x9E3779B97F4A7C15 else ix.pqSeed)
                  && NumberAlong(x, ["options", "ann", "product", "rerank_factor"])
                     == Some(if ix.pqRerankFactor == 0 then 5 else ix.pqRerankFactor))
  {
    hide NumberAlong, Named, IsFragment, IsWhole, HasNat, IndexText, AnnText, DiskannText, IvfText, ProductText,
         TuningFits;
    var x := IndexText(ix);
    IndexIsFragment(ix);
    AnnIsFragment(ix);
    if ix.algorithm == Diskann {
      var d := DiskannText(ix);
      DiskannIsFragment(ix);
      TuningNatRecovered(x, AnnText(ix), "diskann", d, "r", OrDefault(ix.diskannR, 64));
      TuningNatRecovered(x, AnnText(ix), "diskann", d, "l", OrDefault(ix.diskannL, 128));
      TuningNatRecovered(x, AnnText(ix), "diskann", d, "beam_width", OrDefault(ix.diskannBeamWidth, 8));
      TuningNatRecovered(x, AnnText(ix), "diskann", d, "alpha", OrDefault(ix.diskannAlpha, 120));
    } else if ix.algorithm == Ivf {
      IvfIsFragment(ix);
      TuningNatRecovered(x, AnnText(ix), "ivf", IvfText(ix), "nlist", OrDefault(ix.ivfNlist, 256));
      TuningNatRecovered(x, AnnText(ix), "ivf", IvfText(ix), "nprobe", OrDefault(ix.ivfNprobe, 8));
    }
    if ix.quantization == Product {
      ProductIsFragment(ix);
      TuningNatRecovered(x, AnnText(ix), "product", ProductText(ix), "training_samples",
                         OrDefault(ix.pqTrainingSamples, 256000));
      TuningNatRecovered(x, AnnText(ix), "product", ProductText(ix), "seed", OrDefault(ix.pqSeed, 0x9E3779B97F4A7C15));
      TuningNatRecovered(x, AnnText(ix), "product", ProductText(ix), "rerank_factor", OrDefault(ix.pqRerankFactor, 5));
    }
  }
}
