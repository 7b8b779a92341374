/** Exactly which columns, indexes and tables have the same text. */
module TableIdentity {
  import opened Bytes
  import opened StringLaws
  import opened Numbers
  import opened Build
  import opened Fragments
  import opened Objects
  import opened Requests
  import opened Tables
  import opened ColumnLaws
  import opened TableLaws
  import opened Truncation
  import opened TuningLaws
  import BodyLaws

  // ---- Columns ----

  function ColumnNames(): seq<string> {
    ["id"] + (["name"] + (["ty"] + (["primary_key"] + (["nullable"] + (["enum_variants"] + (["default_expr"]
    + (["default_value"] + (["embedding_source"] + []))))))))
  }

  function ColumnParts(col: Column): (xs: seq<Option<string>>)
    ensures |xs| == 9
  {
    [Some(IntText(col.id))] + ([Some(Quoted(col.name))] + ([Some(Quoted(col.ty))] + ([Some(BoolText(col.primaryKey))]
    + ([Some(BoolText(col.nullable))] + ([VariantsText(col)] + ([QuotedOption(col.defaultExpr)]
    + ([DefaultValueText(col)] + ([col.embeddingSourceJson] + []))))))))
  }

  lemma ColumnNamesAreDistinct()
    ensures |ColumnNames()| == 9 && Distinct(ColumnNames())
  {
    HeadNamesDiffer();
    TailNames();
    TailNamesDiffer("enum_variants");
    TailNamesDiffer("default_expr");
    TailNamesDiffer("default_value");
    TailNamesDiffer("embedding_source");
  }

  lemma ColumnIsBuilt(col: Column)
    ensures |ColumnNames()| == 9 && ColumnText(col) == ObjectText(Select(ColumnNames(), ColumnParts(col)))
  {
    hide Key, Quoted, IntText, BoolText, Chain, Select, ObjectText, VariantsText, QuotedOption, DefaultValueText,
         ColumnText;
    var n, t := Some(Quoted(col.name)), Some(Quoted(col.ty));
    var p, u := Some(BoolText(col.primaryKey)), Some(BoolText(col.nullable));
    var v, e := VariantsText(col), QuotedOption(col.defaultExpr);
    var d, s := DefaultValueText(col), col.embeddingSourceJson;
    var ns8, xs8 := ["embedding_source"] + [], [s] + [];
    var ns7, xs7 := ["default_value"] + ns8, [d] + xs8;
    var ns6, xs6 := ["default_expr"] + ns7, [e] + xs7;
    var ns5, xs5 := ["enum_variants"] + ns6, [v] + xs6;
    var ns4, xs4 := ["nullable"] + ns5, [u] + xs5;
    var ns3, xs3 := ["primary_key"] + ns4, [p] + xs4;
    var ns2, xs2 := ["ty"] + ns3, [t] + xs3;
    var ns1, xs1 := ["name"] + ns2, [n] + xs2;
    var b := "{" + Key("id") + IntText(col.id);
    ChainIsObject("id", IntText(col.id), ns1, xs1);
    ChainStep(b, "name", ns2, n, xs2);
    b := WithOption(b, "name", n);
    ChainStep(b, "ty", ns3, t, xs3);
    b := WithOption(b, "ty", t);
    ChainStep(b, "primary_key", ns4, p, xs4);
    b := WithOption(b, "primary_key", p);
    ChainStep(b, "nullable", ns5, u, xs5);
    b := WithOption(b, "nullable", u);
    ChainStep(b, "enum_variants", ns6, v, xs6);
    b := WithOption(b, "enum_variants", v);
    ChainStep(b, "default_expr", ns7, e, xs7);
    b := WithOption(b, "default_expr", e);
    ChainStep(b, "default_value", ns8, d, xs8);
    b := WithOption(b, "default_value", d);
    ChainStep(b, "embedding_source", [], s, []);
    b := WithOption(b, "embedding_source", s);
    ChainEnds(b);
    ColumnTextParts(col);
  }

  lemma ColumnIsWritable(col: Column)
    requires SendableColumn(col)
    ensures |ColumnNames()| == 9 && AllWritable(ColumnNames(), ColumnParts(col))
  {
    hide Quoted, IntText, BoolText, IsName, IsFragment, VariantsText, QuotedOption, DefaultValueText, AllWritable,
         IsTailName;
    HeadNamesDiffer();
    TailNames();
    TailNamesDiffer("enum_variants");
    TailNamesDiffer("default_expr");
    TailNamesDiffer("default_value");
    TailNamesDiffer("embedding_source");
    IntIsFragment(col.id);
    QuotedIsFragment(col.name);
    QuotedIsFragment(col.ty);
    BoolTextHolds(col.primaryKey);
    BoolTextHolds(col.nullable);
    TailIsFragments(col);
    QuotedOptionIsFragment(col.defaultExpr);
    var n, t := Some(Quoted(col.name)), Some(Quoted(col.ty));
    var p, u := Some(BoolText(col.primaryKey)), Some(BoolText(col.nullable));
    var v, e := VariantsText(col), QuotedOption(col.defaultExpr);
    var d, s := DefaultValueText(col), col.embeddingSourceJson;
    var ns8, xs8 := ["embedding_source"] + [], [s] + [];
    var ns7, xs7 := ["default_value"] + ns8, [d] + xs8;
    var ns6, xs6 := ["default_expr"] + ns7, [e] + xs7;
    var ns5, xs5 := ["enum_variants"] + ns6, [v] + xs6;
    var ns4, xs4 := ["nullable"] + ns5, [u] + xs5;
    var ns3, xs3 := ["primary_key"] + ns4, [p] + xs4;
    var ns2, xs2 := ["ty"] + ns3, [t] + xs3;
    var ns1, xs1 := ["name"] + ns2, [n] + xs2;
    NothingWritable();
    WritableStep("embedding_source", [], s, []);
    WritableStep("default_value", ns8, d, xs8);
    WritableStep("default_expr", ns7, e, xs7);
    WritableStep("enum_variants", ns6, v, xs6);
    WritableStep("nullable", ns5, u, xs5);
    WritableStep("primary_key", ns4, p, xs4);
    WritableStep("ty", ns3, t, xs3);
    WritableStep("name", ns2, n, xs2);
    WritableStep("id", ns1, Some(IntText(col.id)), xs1);
  }

  /** All fields, the default value being the text that is sent for it. */
  predicate SameColumn(c: Column, d: Column) {
    && c.id == d.id && c.name == d.name && c.ty == d.ty && c.primaryKey == d.primaryKey && c.nullable == d.nullable
    && c.enumVariants == d.enumVariants && c.defaultExpr == d.defaultExpr
    && DefaultValueText(c) == DefaultValueText(d) && c.embeddingSourceJson == d.embeddingSourceJson
  }

  lemma BoolTextInjective(a: bool, b: bool)
    ensures BoolText(a) == BoolText(b) <==> a == b
  {
    assert "true"[0] != "false"[0];
  }

  lemma QuotedOptionInjective(x: Option<string>, y: Option<string>)
    ensures QuotedOption(x) == QuotedOption(y) <==> x == y
  {
    hide Quoted;
    if x.Some? && y.Some? { QuotedInjective(x.value, y.value); }
  }

  lemma VariantsInjective(c: Column, d: Column)
    ensures VariantsText(c) == VariantsText(d) <==> c.enumVariants == d.enumVariants
  {
    hide Quoted, Commas, IsFragment;
    var xs, ys := QuotedTexts(c.enumVariants), QuotedTexts(d.enumVariants);
    StringsAreFragments(c.enumVariants);
    StringsAreFragments(d.enumVariants);
    assert VariantsText(c) == ListPart(xs) && VariantsText(d) == ListPart(ys);
    ListPartInjective(xs, ys);
    if xs == ys {
      assert |xs| == |c.enumVariants| && |ys| == |d.enumVariants|;
      forall k | 0 <= k < |c.enumVariants| ensures c.enumVariants[k] == d.enumVariants[k] {
        assert xs[k] == ys[k];
        QuotedInjective(c.enumVariants[k], d.enumVariants[k]);
      }
    }
  }

  lemma ColumnPartsEqualIff(c: Column, d: Column)
    ensures ColumnParts(c) == ColumnParts(d) <==> SameColumn(c, d)
  {
    hide Quoted, IntText, BoolText, VariantsText, QuotedOption, DefaultValueText;
    IntTextInjective(c.id, d.id);
    QuotedInjective(c.name, d.name);
    QuotedInjective(c.ty, d.ty);
    BoolTextInjective(c.primaryKey, d.primaryKey);
    BoolTextInjective(c.nullable, d.nullable);
    VariantsInjective(c, d);
    QuotedOptionInjective(c.defaultExpr, d.defaultExpr);
    var xs, ys := ColumnParts(c), ColumnParts(d);
    assert xs == ys <==> xs[0] == ys[0] && xs[1] == ys[1] && xs[2] == ys[2] && xs[3] == ys[3] && xs[4] == ys[4]
                         && xs[5] == ys[5] && xs[6] == ys[6] && xs[7] == ys[7] && xs[8] == ys[8];
  }

  /** Two columns have the same text if and only if they agree on every field, defaults by precedence. */
  lemma ColumnTextsEqualIff(c: Column, d: Column)
    requires SendableColumn(c) && SendableColumn(d)
    ensures ColumnText(c) == ColumnText(d) <==> SameColumn(c, d)
  {
    hide ColumnText, ObjectText, Select, ColumnParts, ColumnNames, SameColumn, AllWritable, Distinct;
    ColumnIsBuilt(c);
    ColumnIsBuilt(d);
    ColumnIsWritable(c);
    ColumnIsWritable(d);
    ColumnNamesAreDistinct();
    ColumnPartsEqualIff(c, d);
    if ColumnText(c) == ColumnText(d) { BuiltInjective(ColumnNames(), ColumnParts(c), ColumnParts(d)); }
  }

  // ---- Blocks of numbers ----

  function NumPairs(fs: seq<Num>): seq<Pair> {
    seq(|fs|, k requires 0 <= k < |fs| => Pair(fs[k].name, NatText(fs[k].n)))
  }

  lemma {:induction false} NumsAreCommas(fs: seq<Num>)
    ensures NumsText(fs) == Commas(PairTexts(NumPairs(fs)))
    decreases |fs|
  {
    hide Key, NatText;
    if fs != [] {
      NumsAreCommas(fs[1..]);
      assert PairTexts(NumPairs(fs))[1..] == PairTexts(NumPairs(fs[1..]));
    }
  }

  /** A block determines its numbers. */
  lemma BlockInjective(fs: seq<Num>, gs: seq<Num>)
    requires AreNums(fs) && AreNums(gs) && Block(fs) == Block(gs)
    ensures fs == gs
  {
    hide NatText, IsName, IsFragment, NumsText, PairTexts, Commas;
    NumsAreCommas(fs);
    NumsAreCommas(gs);
    forall n: nat ensures IsFragment(NatText(n)) { NatIsFragment(n); }
    ObjectInjective(NumPairs(fs), NumPairs(gs));
    assert |NumPairs(fs)| == |fs| && |NumPairs(gs)| == |gs|;
    forall k | 0 <= k < |fs| ensures fs[k] == gs[k] {
      assert NumPairs(fs)[k] == NumPairs(gs)[k];
      NatTextInjective(fs[k].n, gs[k].n);
    }
  }

  function MinHashNums(ix: Index): seq<Num> {
    [Num("permutations", ix.minhashPermutations), Num("bands", ix.minhashBands)]
  }

  function LearnedRangeNums(ix: Index): seq<Num> { [Num("epsilon", ix.learnedRangeEpsilon)] }

  lemma OtherBlocksAreNums(ix: Index)
    ensures MinHashText(ix) == Block(MinHashNums(ix)) && LearnedRangeText(ix) == Block(LearnedRangeNums(ix))
    ensures AreNums(MinHashNums(ix)) && AreNums(LearnedRangeNums(ix))
  {
    hide Key, NatText, NumsText, IsName;
    OtherNames();
    var fs := MinHashNums(ix);
    assert fs == [fs[0]] + [fs[1]];
    NumsOne(fs[1]);
    NumsCons(fs[0], [fs[1]]);
    NumsOne(LearnedRangeNums(ix)[0]);
  }

  lemma OtherNames()
    ensures IsName("permutations") && IsName("bands") && IsName("epsilon")
  {}

  lemma TuningNumsAreNamed(ix: Index)
    ensures AreNums(DiskannNums(ix)) && AreNums(IvfNums(ix)) && AreNums(ProductNums(ix))
  {
    NumsAreNamed(ix);
    var a, b := ix.(algorithm := Diskann), ix.(algorithm := Ivf);
    assert FirstOf(a).nums == DiskannNums(ix) && FirstOf(b).nums == IvfNums(ix);
  }

  // ---- options.ann ----

  function AnnNames(): seq<string> {
    ["m"] + (["ef_construction"] + (["ef_search"] + (["quantization"] + (["algorithm"] + (["diskann"] + (["ivf"]
    + (["product"] + [])))))))
  }

  function NameText(name: string): string { "\"" + name + "\"" }

  function AlgorithmPart(ix: Index): Option<string> {
    if ix.algorithm != Hnsw then Some(NameText(AlgorithmName(ix.algorithm))) else None
  }

  function DiskannPart(ix: Index): Option<string> { if ix.algorithm == Diskann then Some(DiskannText(ix)) else None }

  function IvfPart(ix: Index): Option<string> { if ix.algorithm == Ivf then Some(IvfText(ix)) else None }

  function ProductPart(ix: Index): Option<string> {
    if ix.quantization == Product then Some(ProductText(ix)) else None
  }

  function AnnParts(ix: Index): (xs: seq<Option<string>>)
    ensures |xs| == 8
  {
    [Some(NatText(ix.annM))] + ([Some(NatText(ix.annEfConstruction))] + ([Some(NatText(ix.annEfSearch))]
    + ([Some(NameText(QuantizationName(ix.quantization)))] + ([AlgorithmPart(ix)] + ([DiskannPart(ix)]
    + ([IvfPart(ix)] + ([ProductPart(ix)] + [])))))))
  }

  lemma BlockNames()
    ensures IsBlockName("diskann") && IsBlockName("ivf") && IsBlockName("product")
  {}

  lemma AnnNamesAreDistinct()
    ensures |AnnNames()| == 8 && Distinct(AnnNames())
  {
    AnnNamesDiffer();
    BlockNamesDiffer("diskann");
    BlockNamesDiffer("ivf");
    BlockNamesDiffer("product");
  }

  /** A block that fits is appended as an ordinary member. */
  lemma FittingBlock(b: string, size: nat, name: string, x: string)
    requires size > 0 && Snprintf(size, "," + Key(name) + x) == "," + Key(name) + x
    ensures WithBlock(b, size, name, x) == WithOption(b, name, Some(x))
  {
    hide Key, Snprintf;
  }

  lemma AnnFromParts(ix: Index)
    requires TuningFits(ix)
    ensures var b := WithOption(AnnHead(ix), "diskann", DiskannPart(ix));
            var b := WithOption(b, "ivf", IvfPart(ix));
            AnnText(ix) == WithOption(b, "product", ProductPart(ix)) + "}"
  {
    hide Key, AnnHead, AnnText, DiskannText, IvfText, ProductText, Snprintf, WithBlock, DiskannDigits, IvfDigits,
         ProductDigits;
    BlocksWholeIffFew(ix);
    AnnFromHead(ix);
    var b := AnnHead(ix);
    if ix.algorithm == Diskann {
      FittingBlock(b, 96, "diskann", DiskannText(ix));
      b := WithBlock(b, 96, "diskann", DiskannText(ix));
    }
    if ix.algorithm == Ivf {
      FittingBlock(b, 64, "ivf", IvfText(ix));
      b := WithBlock(b, 64, "ivf", IvfText(ix));
    }
    if ix.quantization == Product { FittingBlock(b, 96, "product", ProductText(ix)); }
  }

  lemma AnnHeadFromParts(ix: Index)
    ensures var b := "{" + Key("m") + NatText(ix.annM);
            var b := WithOption(b, "ef_construction", Some(NatText(ix.annEfConstruction)));
            var b := WithOption(b, "ef_search", Some(NatText(ix.annEfSearch)));
            var b := WithOption(b, "quantization", Some(NameText(QuantizationName(ix.quantization))));
            AnnHead(ix) == WithOption(b, "algorithm", AlgorithmPart(ix))
  {
    hide Key, NatText, QuantizationName, AlgorithmName;
  }

  lemma AnnIsBuilt(ix: Index)
    requires TuningFits(ix)
    ensures |AnnNames()| == 8 && AnnText(ix) == ObjectText(Select(AnnNames(), AnnParts(ix)))
  {
    hide Key, NatText, Chain, Select, ObjectText, AlgorithmPart, DiskannPart, IvfPart, ProductPart, AnnText, AnnHead,
         QuantizationName, NameText, TuningFits, WithOption;
    var c, s := Some(NatText(ix.annEfConstruction)), Some(NatText(ix.annEfSearch));
    var q, a := Some(NameText(QuantizationName(ix.quantization))), AlgorithmPart(ix);
    var d, i, p := DiskannPart(ix), IvfPart(ix), ProductPart(ix);
    var ns7, xs7 := ["product"] + [], [p] + [];
    var ns6, xs6 := ["ivf"] + ns7, [i] + xs7;
    var ns5, xs5 := ["diskann"] + ns6, [d] + xs6;
    var ns4, xs4 := ["algorithm"] + ns5, [a] + xs5;
    var ns3, xs3 := ["quantization"] + ns4, [q] + xs4;
    var ns2, xs2 := ["ef_search"] + ns3, [s] + xs3;
    var ns1, xs1 := ["ef_construction"] + ns2, [c] + xs2;
    var b := "{" + Key("m") + NatText(ix.annM);
    ChainIsObject("m", NatText(ix.annM), ns1, xs1);
    ChainStep(b, "ef_construction", ns2, c, xs2);
    b := WithOption(b, "ef_construction", c);
    ChainStep(b, "ef_search", ns3, s, xs3);
    b := WithOption(b, "ef_search", s);
    ChainStep(b, "quantization", ns4, q, xs4);
    b := WithOption(b, "quantization", q);
    ChainStep(b, "algorithm", ns5, a, xs5);
    b := WithOption(b, "algorithm", a);
    ChainStep(b, "diskann", ns6, d, xs6);
    b := WithOption(b, "diskann", d);
    ChainStep(b, "ivf", ns7, i, xs7);
    b := WithOption(b, "ivf", i);
    ChainStep(b, "product", [], p, []);
    b := WithOption(b, "product", p);
    ChainEnds(b);
    AnnHeadFromParts(ix);
    AnnFromParts(ix);
  }

  lemma AnnIsWritable(ix: Index)
    ensures |AnnNames()| == 8 && AllWritable(AnnNames(), AnnParts(ix))
  {
    hide NatText, IsName, IsFragment, DiskannText, IvfText, ProductText, AllWritable, QuantizationName, AlgorithmName,
         IsBlockName, HasNat, NameText;
    AnnNamesDiffer();
    BlockNames();
    BlockNamesDiffer("diskann");
    BlockNamesDiffer("ivf");
    BlockNamesDiffer("product");
    NatIsFragment(ix.annM);
    NatIsFragment(ix.annEfConstruction);
    NatIsFragment(ix.annEfSearch);
    NameTextIsFragment(QuantizationName(ix.quantization));
    NameTextIsFragment(AlgorithmName(ix.algorithm));
    DiskannIsFragment(ix);
    IvfIsFragment(ix);
    ProductIsFragment(ix);
    var c, s := Some(NatText(ix.annEfConstruction)), Some(NatText(ix.annEfSearch));
    var q, a := Some(NameText(QuantizationName(ix.quantization))), AlgorithmPart(ix);
    var d, i, p := DiskannPart(ix), IvfPart(ix), ProductPart(ix);
    var ns7, xs7 := ["product"] + [], [p] + [];
    var ns6, xs6 := ["ivf"] + ns7, [i] + xs7;
    var ns5, xs5 := ["diskann"] + ns6, [d] + xs6;
    var ns4, xs4 := ["algorithm"] + ns5, [a] + xs5;
    var ns3, xs3 := ["quantization"] + ns4, [q] + xs4;
    var ns2, xs2 := ["ef_search"] + ns3, [s] + xs3;
    var ns1, xs1 := ["ef_construction"] + ns2, [c] + xs2;
    NothingWritable();
    WritableStep("product", [], p, []);
    WritableStep("ivf", ns7, i, xs7);
    WritableStep("diskann", ns6, d, xs6);
    WritableStep("algorithm", ns5, a, xs5);
    WritableStep("quantization", ns4, q, xs4);
    WritableStep("ef_search", ns3, s, xs3);
    WritableStep("ef_construction", ns2, c, xs2);
    WritableStep("m", ns1, Some(NatText(ix.annM)), xs1);
  }

  lemma NameTextIsFragment(name: string)
    requires IsName(name)
    ensures IsFragment(NameText(name))
  {
    hide IsFragment;
    NameIsFragment(name);
  }

  lemma NameTextInjective(x: string, y: string)
    ensures NameText(x) == NameText(y) <==> x == y
  {
    if NameText(x) == NameText(y) {
      assert NameText(x)[1..|x| + 1] == x && NameText(y)[1..|y| + 1] == y;
    }
  }

  lemma QuantizationNameInjective(p: Quantization, q: Quantization)
    ensures NameText(QuantizationName(p)) == NameText(QuantizationName(q)) <==> p == q
  {
    NameTextInjective(QuantizationName(p), QuantizationName(q));
    assert |"binary_sign"| == 11 && |"dense"| == 5 && |"product"| == 7;
  }

  lemma AlgorithmPartInjective(a: Index, b: Index)
    ensures AlgorithmPart(a) == AlgorithmPart(b) <==> a.algorithm == b.algorithm
  {
    hide NameText;
    NameTextInjective(AlgorithmName(a.algorithm), AlgorithmName(b.algorithm));
    assert |"hnsw"| == 4 && |"diskann"| == 7 && |"ivf"| == 3;
  }

  /** The numbers of the blocks that are emitted, zeros standing for the defaults. */
  predicate SameAnn(a: Index, b: Index) {
    && a.annM == b.annM && a.annEfConstruction == b.annEfConstruction && a.annEfSearch == b.annEfSearch
    && a.quantization == b.quantization && a.algorithm == b.algorithm
    && (a.algorithm == Diskann ==> DiskannNums(a) == DiskannNums(b))
    && (a.algorithm == Ivf ==> IvfNums(a) == IvfNums(b))
    && (a.quantization == Product ==> ProductNums(a) == ProductNums(b))
  }

  lemma BlocksEqualIff(a: Index, b: Index)
    ensures DiskannText(a) == DiskannText(b) <==> DiskannNums(a) == DiskannNums(b)
    ensures IvfText(a) == IvfText(b) <==> IvfNums(a) == IvfNums(b)
    ensures ProductText(a) == ProductText(b) <==> ProductNums(a) == ProductNums(b)
  {
    hide Block, DiskannText, IvfText, ProductText, DiskannNums, IvfNums, ProductNums, AreNums;
    BlocksAreNums(a);
    BlocksAreNums(b);
    TuningNumsAreNamed(a);
    TuningNumsAreNamed(b);
    if DiskannText(a) == DiskannText(b) { BlockInjective(DiskannNums(a), DiskannNums(b)); }
    if IvfText(a) == IvfText(b) { BlockInjective(IvfNums(a), IvfNums(b)); }
    if ProductText(a) == ProductText(b) { BlockInjective(ProductNums(a), ProductNums(b)); }
  }

  lemma AnnPartsEqualIff(a: Index, b: Index)
    ensures AnnParts(a) == AnnParts(b) <==> SameAnn(a, b)
  {
    hide NatText, DiskannText, IvfText, ProductText, DiskannNums, IvfNums, ProductNums, QuantizationName, AlgorithmPart,
         NameText;
    NatTextInjective(a.annM, b.annM);
    NatTextInjective(a.annEfConstruction, b.annEfConstruction);
    NatTextInjective(a.annEfSearch, b.annEfSearch);
    QuantizationNameInjective(a.quantization, b.quantization);
    AlgorithmPartInjective(a, b);
    BlocksEqualIff(a, b);
    var xs, ys := AnnParts(a), AnnParts(b);
    assert xs == ys <==> xs[0] == ys[0] && xs[1] == ys[1] && xs[2] == ys[2] && xs[3] == ys[3] && xs[4] == ys[4]
                         && xs[5] == ys[5] && xs[6] == ys[6] && xs[7] == ys[7];
  }

  lemma AnnTextsEqualIff(a: Index, b: Index)
    requires TuningFits(a) && TuningFits(b)
    ensures AnnText(a) == AnnText(b) <==> SameAnn(a, b)
  {
    hide AnnText, ObjectText, Select, AnnParts, AnnNames, SameAnn, AllWritable, Distinct, TuningFits;
    AnnIsBuilt(a);
    AnnIsBuilt(b);
    AnnIsWritable(a);
    AnnIsWritable(b);
    AnnNamesAreDistinct();
    AnnPartsEqualIff(a, b);
    if AnnText(a) == AnnText(b) { BuiltInjective(AnnNames(), AnnParts(a), AnnParts(b)); }
  }

  // ---- Indexes ----

  function IndexNames(): seq<string> {
    ["name"] + (["column_id"] + (["kind"] + (["predicate"] + (["options"] + []))))
  }

  function OptionsPart(ix: Index): Option<string> {
    match OptionsOf(ix)
    case None => None
    case Some((name, x)) => Some("{" + Key(name) + x + "}")
  }

  function IndexParts(ix: Index): (xs: seq<Option<string>>)
    ensures |xs| == 5
  {
    [Some(Quoted(ix.name))] + ([Some(IntText(ix.columnId))] + ([Some(Quoted(KindName(ix.kind)))]
    + ([QuotedOption(ix.predicate_)] + ([OptionsPart(ix)] + []))))
  }

  lemma IndexNamesAreDistinct()
    ensures |IndexNames()| == 5 && Distinct(IndexNames())
  {
    IndexNamesDiffer();
  }

  lemma IndexFromParts(ix: Index)
    ensures var b := WithOption("{" + Key("name") + Quoted(ix.name), "column_id", Some(IntText(ix.columnId)));
            var b := WithOption(b, "kind", Some(Quoted(KindName(ix.kind))));
            var b := WithOption(b, "predicate", QuotedOption(ix.predicate_));
            IndexText(ix) == WithOption(b, "options", OptionsPart(ix)) + "}"
  {
    hide Key, Quoted, IntText, KindName, AnnText, MinHashText, LearnedRangeText;
  }

  lemma IndexIsBuilt(ix: Index)
    ensures |IndexNames()| == 5 && IndexText(ix) == ObjectText(Select(IndexNames(), IndexParts(ix)))
  {
    hide Key, Quoted, IntText, KindName, Chain, Select, ObjectText, QuotedOption, OptionsPart, IndexText, WithOption;
    var c, k := Some(IntText(ix.columnId)), Some(Quoted(KindName(ix.kind)));
    var p, o := QuotedOption(ix.predicate_), OptionsPart(ix);
    var ns4, xs4 := ["options"] + [], [o] + [];
    var ns3, xs3 := ["predicate"] + ns4, [p] + xs4;
    var ns2, xs2 := ["kind"] + ns3, [k] + xs3;
    var ns1, xs1 := ["column_id"] + ns2, [c] + xs2;
    var b := "{" + Key("name") + Quoted(ix.name);
    ChainIsObject("name", Quoted(ix.name), ns1, xs1);
    ChainStep(b, "column_id", ns2, c, xs2);
    b := WithOption(b, "column_id", c);
    ChainStep(b, "kind", ns3, k, xs3);
    b := WithOption(b, "kind", k);
    ChainStep(b, "predicate", ns4, p, xs4);
    b := WithOption(b, "predicate", p);
    ChainStep(b, "options", [], o, []);
    b := WithOption(b, "options", o);
    ChainEnds(b);
    IndexFromParts(ix);
  }

  lemma OptionsIsFragment(ix: Index)
    requires IndexFits(ix)
    ensures OptionsPart(ix).Some? ==> IsFragment(OptionsPart(ix).value)
  {
    hide IsFragment, IsWhole, AnnText, MinHashText, LearnedRangeText, TuningFits, IsName, Key, Holds, AnnReads, HasNat;
    OptionNames();
    match ix.kind {
      case Ann => AnnIsFragment(ix);
      case MinHash => MinHashIsFragment(ix);
      case LearnedRange => LearnedRangeIsFragment(ix);
      case _ =>
    }
    match OptionsOf(ix) {
      case None =>
      case Some((name, x)) =>
        var ms := StartFragment("{", name, x);
        FinishFragment("{" + Key(name) + x, ms);
    }
  }

  lemma IndexIsWritable(ix: Index)
    requires IndexFits(ix)
    ensures |IndexNames()| == 5 && AllWritable(IndexNames(), IndexParts(ix))
  {
    hide Quoted, IntText, KindName, IsName, IsFragment, QuotedOption, OptionsPart, AllWritable, IndexFits;
    IndexNamesDiffer();
    QuotedIsFragment(ix.name);
    IntIsFragment(ix.columnId);
    QuotedIsFragment(KindName(ix.kind));
    QuotedOptionIsFragment(ix.predicate_);
    OptionsIsFragment(ix);
    var c, k := Some(IntText(ix.columnId)), Some(Quoted(KindName(ix.kind)));
    var p, o := QuotedOption(ix.predicate_), OptionsPart(ix);
    var ns4, xs4 := ["options"] + [], [o] + [];
    var ns3, xs3 := ["predicate"] + ns4, [p] + xs4;
    var ns2, xs2 := ["kind"] + ns3, [k] + xs3;
    var ns1, xs1 := ["column_id"] + ns2, [c] + xs2;
    NothingWritable();
    WritableStep("options", [], o, []);
    WritableStep("predicate", ns4, p, xs4);
    WritableStep("kind", ns3, k, xs3);
    WritableStep("column_id", ns2, c, xs2);
    WritableStep("name", ns1, Some(Quoted(ix.name)), xs1);
  }

  /** The fields that the kind sends; pqNumSubvectors and pqBits are in none of them. */
  predicate SameIndex(a: Index, b: Index) {
    && a.name == b.name && a.columnId == b.columnId && a.kind == b.kind && a.predicate_ == b.predicate_
    && (a.kind == Ann ==> SameAnn(a, b))
    && (a.kind == MinHash ==> a.minhashPermutations == b.minhashPermutations && a.minhashBands == b.minhashBands)
    && (a.kind == LearnedRange ==> a.learnedRangeEpsilon == b.learnedRangeEpsilon)
  }

  lemma KindNameInjective(j: IndexKind, k: IndexKind)
    ensures Quoted(KindName(j)) == Quoted(KindName(k)) <==> j == k
  {
    hide Quoted;
    QuotedInjective(KindName(j), KindName(k));
    assert |"bitmap"| == 6 && |"fm_index"| == 8 && |"ann"| == 3 && |"learned_range"| == 13 && |"minhash"| == 7;
    assert |"sparse"| == 6 && "sparse"[0] == 's' && "bitmap"[0] == 'b';
  }

  lemma OtherBlocksEqualIff(a: Index, b: Index)
    ensures MinHashText(a) == MinHashText(b)
            <==> a.minhashPermutations == b.minhashPermutations && a.minhashBands == b.minhashBands
    ensures LearnedRangeText(a) == LearnedRangeText(b) <==> a.learnedRangeEpsilon == b.learnedRangeEpsilon
  {
    hide Block, MinHashText, LearnedRangeText, AreNums;
    OtherBlocksAreNums(a);
    OtherBlocksAreNums(b);
    var fs, gs := MinHashNums(a), MinHashNums(b);
    var hs, js := LearnedRangeNums(a), LearnedRangeNums(b);
    if MinHashText(a) == MinHashText(b) { BlockInjective(fs, gs); }
    if LearnedRangeText(a) == LearnedRangeText(b) { BlockInjective(hs, js); }
    assert fs == gs <==> fs[0] == gs[0] && fs[1] == gs[1];
    assert hs == js <==> hs[0] == js[0];
  }

  lemma BracesInjective(name: string, x: string, y: string)
    ensures "{" + Key(name) + x + "}" == "{" + Key(name) + y + "}" <==> x == y
  {
    hide Key;
    var p := "{" + Key(name);
    if p + x + "}" == p + y + "}" {
      assert (p + x + "}")[|p|..|p| + |x|] == x && (p + y + "}")[|p|..|p| + |y|] == y;
    }
  }

  lemma OptionsEqualIff(a: Index, b: Index)
    requires IndexFits(a) && IndexFits(b) && a.kind == b.kind
    ensures OptionsPart(a) == OptionsPart(b)
            <==> && (a.kind == Ann ==> SameAnn(a, b))
                 && (a.kind == MinHash ==>
                       a.minhashPermutations == b.minhashPermutations && a.minhashBands == b.minhashBands)
                 && (a.kind == LearnedRange ==> a.learnedRangeEpsilon == b.learnedRangeEpsilon)
  {
    hide Key, AnnText, MinHashText, LearnedRangeText, SameAnn, TuningFits;
    match a.kind {
      case Ann =>
        AnnTextsEqualIff(a, b);
        BracesInjective("ann", AnnText(a), AnnText(b));
      case MinHash =>
        OtherBlocksEqualIff(a, b);
        BracesInjective("minhash", MinHashText(a), MinHashText(b));
      case LearnedRange =>
        OtherBlocksEqualIff(a, b);
        BracesInjective("learned_range", LearnedRangeText(a), LearnedRangeText(b));
      case _ =>
    }
  }

  lemma IndexPartsEqualIff(a: Index, b: Index)
    requires IndexFits(a) && IndexFits(b)
    ensures IndexParts(a) == IndexParts(b) <==> SameIndex(a, b)
  {
    hide Quoted, IntText, KindName, QuotedOption, OptionsPart, SameAnn, IndexFits;
    QuotedInjective(a.name, b.name);
    IntTextInjective(a.columnId, b.columnId);
    KindNameInjective(a.kind, b.kind);
    QuotedOptionInjective(a.predicate_, b.predicate_);
    if a.kind == b.kind { OptionsEqualIff(a, b); }
    var xs, ys := IndexParts(a), IndexParts(b);
    assert xs == ys <==> xs[0] == ys[0] && xs[1] == ys[1] && xs[2] == ys[2] && xs[3] == ys[3] && xs[4] == ys[4];
  }

  /**
   Two indexes whose blocks fit have the same text if and only if they agree on their name,
   column, kind, predicate and the fields that their kind sends, zero tuning numbers standing
   for the defaults.
   */
  lemma IndexTextsEqualIff(a: Index, b: Index)
    requires IndexFits(a) && IndexFits(b)
    ensures IndexText(a) == IndexText(b) <==> SameIndex(a, b)
  {
    hide IndexText, ObjectText, Select, IndexParts, IndexNames, SameIndex, AllWritable, Distinct, IndexFits;
    IndexIsBuilt(a);
    IndexIsBuilt(b);
    IndexIsWritable(a);
    IndexIsWritable(b);
    IndexNamesAreDistinct();
    IndexPartsEqualIff(a, b);
    if IndexText(a) == IndexText(b) { BuiltInjective(IndexNames(), IndexParts(a), IndexParts(b)); }
  }

  /** The number of subvectors and of bits of a product-quantized index are never sent. */
  lemma ProductShapeIsLost(ix: Index, subvectors: uint16, bits: uint8)
    ensures IndexText(ix.(pqNumSubvectors := subvectors, pqBits := bits)) == IndexText(ix)
  {
    hide Key, Quoted, IntText, NatText, KindName, Snprintf, QuantizationName, AlgorithmName;
  }

  function ProductIndex(subvectors: uint16): Index {
    Index("i", 1, Ann, None, 16, 64, 64, Product, Hnsw, 0, 0, 0, 0, 0, 0, subvectors, 8, 0, 0, 0, 0, 0, 0)
  }

  /** Eight and sixteen subvectors are sent alike. */
  lemma SubvectorsAreSentAlike()
    ensures ProductIndex(8) != ProductIndex(16) && IndexText(ProductIndex(8)) == IndexText(ProductIndex(16))
  {
    hide IndexText;
    ProductShapeIsLost(ProductIndex(8), 16, 8);
  }

  // ---- Tables ----

  datatype Table = Table(name: string, cols: seq<Column>, constraintsJson: string, ixs: seq<Index>)

  function TableBody(t: Table): string { CreateTableBody(t.name, t.cols, t.constraintsJson, t.ixs) }

  function CreateNames(): seq<string> {
    ["name"] + (["columns"] + (["constraints"] + (["indexes"] + [])))
  }

  function ConstraintsPart(x: string): Option<string> { if x != "" then Some(x) else None }

  function TableParts(t: Table): (xs: seq<Option<string>>)
    ensures |xs| == 4
  {
    [Some(Quoted(t.name))] + ([Some("[" + Commas(ColumnTexts(t.cols)) + "]")]
    + ([ConstraintsPart(t.constraintsJson)] + ([ListPart(IndexTexts(t.ixs))] + [])))
  }

  ghost predicate SendableBody(t: Table) {
    BodyLaws.SendableTable(t.cols, t.constraintsJson) && BodyLaws.AllIndexesFit(t.ixs)
  }

  lemma CreateNamesAreDistinct()
    ensures |CreateNames()| == 4 && Distinct(CreateNames())
  {
    BodyLaws.TableNamesDiffer();
  }

  lemma TableFromParts(t: Table)
    ensures var b := WithOption("{" + Key("name") + Quoted(t.name), "columns",
                                Some("[" + Commas(ColumnTexts(t.cols)) + "]"));
            var b := WithOption(b, "constraints", ConstraintsPart(t.constraintsJson));
            TableBody(t) == WithOption(b, "indexes", ListPart(IndexTexts(t.ixs))) + "}"
  {
    hide Key, Quoted, Commas, ColumnTexts, IndexTexts;
    assert IndexTexts(t.ixs) == [] <==> t.ixs == [] by { IndexCount(t.ixs); }
  }

  lemma IndexCount(ixs: seq<Index>)
    ensures |IndexTexts(ixs)| == |ixs|
  {}

  lemma TableIsBuilt(t: Table)
    ensures |CreateNames()| == 4 && TableBody(t) == ObjectText(Select(CreateNames(), TableParts(t)))
  {
    hide Key, Quoted, Commas, ColumnTexts, IndexTexts, Chain, Select, ObjectText, ConstraintsPart, ListPart, TableBody,
         WithOption;
    var c, k := Some("[" + Commas(ColumnTexts(t.cols)) + "]"), ConstraintsPart(t.constraintsJson);
    var i := ListPart(IndexTexts(t.ixs));
    var ns3, xs3 := ["indexes"] + [], [i] + [];
    var ns2, xs2 := ["constraints"] + ns3, [k] + xs3;
    var ns1, xs1 := ["columns"] + ns2, [c] + xs2;
    var b := "{" + Key("name") + Quoted(t.name);
    ChainIsObject("name", Quoted(t.name), ns1, xs1);
    ChainStep(b, "columns", ns2, c, xs2);
    b := WithOption(b, "columns", c);
    ChainStep(b, "constraints", ns3, k, xs3);
    b := WithOption(b, "constraints", k);
    ChainStep(b, "indexes", [], i, []);
    b := WithOption(b, "indexes", i);
    ChainEnds(b);
    TableFromParts(t);
  }

  lemma TableIsWritable(t: Table)
    requires SendableBody(t)
    ensures |CreateNames()| == 4 && AllWritable(CreateNames(), TableParts(t))
  {
    hide Quoted, Commas, ColumnTexts, IndexTexts, IsName, IsFragment, ListPart, AllWritable,
         BodyLaws.AllSendableColumns, BodyLaws.AllIndexesFit;
    BodyLaws.TableNamesDiffer();
    QuotedIsFragment(t.name);
    BodyLaws.ColumnsAreFragments(t.cols);
    BodyLaws.IndexesAreFragments(t.ixs);
    ListIsFragment(ColumnTexts(t.cols));
    ListPartInjective(IndexTexts(t.ixs), IndexTexts(t.ixs));
    var c, k := Some("[" + Commas(ColumnTexts(t.cols)) + "]"), ConstraintsPart(t.constraintsJson);
    var i := ListPart(IndexTexts(t.ixs));
    var ns3, xs3 := ["indexes"] + [], [i] + [];
    var ns2, xs2 := ["constraints"] + ns3, [k] + xs3;
    var ns1, xs1 := ["columns"] + ns2, [c] + xs2;
    NothingWritable();
    WritableStep("indexes", [], i, []);
    WritableStep("constraints", ns3, k, xs3);
    WritableStep("columns", ns2, c, xs2);
    WritableStep("name", ns1, Some(Quoted(t.name)), xs1);
  }

  predicate SameColumns(cs: seq<Column>, ds: seq<Column>) {
    |cs| == |ds| && forall k :: 0 <= k < |cs| ==> SameColumn(cs[k], ds[k])
  }

  predicate SameIndexes(as_: seq<Index>, bs: seq<Index>) {
    |as_| == |bs| && forall k :: 0 <= k < |as_| ==> SameIndex(as_[k], bs[k])
  }

  lemma ColumnListsEqualIff(cs: seq<Column>, ds: seq<Column>)
    requires BodyLaws.AllSendableColumns(cs) && BodyLaws.AllSendableColumns(ds)
    ensures ColumnTexts(cs) == ColumnTexts(ds) <==> SameColumns(cs, ds)
  {
    hide ColumnText, SameColumn, SendableColumn;
    if |cs| == |ds| {
      forall k | 0 <= k < |cs| ensures ColumnTexts(cs)[k] == ColumnTexts(ds)[k] <==> SameColumn(cs[k], ds[k]) {
        ColumnTextsEqualIff(cs[k], ds[k]);
      }
    }
  }

  lemma IndexListsEqualIff(as_: seq<Index>, bs: seq<Index>)
    requires BodyLaws.AllIndexesFit(as_) && BodyLaws.AllIndexesFit(bs)
    ensures IndexTexts(as_) == IndexTexts(bs) <==> SameIndexes(as_, bs)
  {
    hide IndexText, SameIndex, IndexFits;
    if |as_| == |bs| {
      forall k | 0 <= k < |as_| ensures IndexTexts(as_)[k] == IndexTexts(bs)[k] <==> SameIndex(as_[k], bs[k]) {
        IndexTextsEqualIff(as_[k], bs[k]);
      }
    }
  }

  predicate SameTable(t: Table, u: Table) {
    && t.name == u.name && SameColumns(t.cols, u.cols) && t.constraintsJson == u.constraintsJson
    && SameIndexes(t.ixs, u.ixs)
  }

  lemma TableListsEqualIff(t: Table, u: Table)
    requires SendableBody(t) && SendableBody(u)
    ensures "[" + Commas(ColumnTexts(t.cols)) + "]" == "[" + Commas(ColumnTexts(u.cols)) + "]"
            <==> SameColumns(t.cols, u.cols)
    ensures ListPart(IndexTexts(t.ixs)) == ListPart(IndexTexts(u.ixs)) <==> SameIndexes(t.ixs, u.ixs)
  {
    hide Commas, ColumnTexts, IndexTexts, ListPart, IsFragment, SameColumns, SameIndexes, BodyLaws.AllSendableColumns,
         BodyLaws.AllIndexesFit;
    BodyLaws.ColumnsAreFragments(t.cols);
    BodyLaws.ColumnsAreFragments(u.cols);
    BodyLaws.IndexesAreFragments(t.ixs);
    BodyLaws.IndexesAreFragments(u.ixs);
    ColumnListsEqualIff(t.cols, u.cols);
    IndexListsEqualIff(t.ixs, u.ixs);
    ListPartInjective(IndexTexts(t.ixs), IndexTexts(u.ixs));
    if "[" + Commas(ColumnTexts(t.cols)) + "]" == "[" + Commas(ColumnTexts(u.cols)) + "]" {
      ListInjective(ColumnTexts(t.cols), ColumnTexts(u.cols));
    }
  }

  lemma TablePartsEqualIff(t: Table, u: Table)
    requires SendableBody(t) && SendableBody(u)
    ensures TableParts(t) == TableParts(u) <==> SameTable(t, u)
  {
    hide Quoted, Commas, ColumnTexts, IndexTexts, ListPart, SameColumns, SameIndexes, SendableBody;
    QuotedInjective(t.name, u.name);
    TableListsEqualIff(t, u);
    var xs, ys := TableParts(t), TableParts(u);
    assert xs == ys <==> xs[0] == ys[0] && xs[1] == ys[1] && xs[2] == ys[2] && xs[3] == ys[3];
  }

  /**
   Two create_table bodies whose raw parts are valid and whose blocks fit are equal if and
   only if the tables agree on the name, the constraints, and column by column and index by
   index on everything that is sent.
   */
  lemma CreateTableBodiesEqualIff(t: Table, u: Table)
    requires SendableBody(t) && SendableBody(u)
    ensures TableBody(t) == TableBody(u) <==> SameTable(t, u)
  {
    hide TableBody, ObjectText, Select, TableParts, CreateNames, SameTable, AllWritable, Distinct, SendableBody;
    TableIsBuilt(t);
    TableIsBuilt(u);
    TableIsWritable(t);
    TableIsWritable(u);
    CreateNamesAreDistinct();
    TablePartsEqualIff(t, u);
    if TableBody(t) == TableBody(u) { BuiltInjective(CreateNames(), TableParts(t), TableParts(u)); }
  }
}
