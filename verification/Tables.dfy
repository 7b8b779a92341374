/** The create_table body: columns, indexes with their tuning blocks, and constraints. */
module Tables {
  import opened Bytes
  import opened StringLaws
  import opened Numbers
  import opened Build
  import opened Writers
  import opened Requests

  // ---- Columns ----

  datatype Column = Column(
    id: int64,
    name: string,
    ty: string,
    primaryKey: bool,
    nullable: bool,
    enumVariants: seq<string>,
    defaultValue: Option<string>,
    defaultValueJson: Option<string>,
    defaultExpr: Option<string>,
    embeddingSourceJson: Option<string>)

  function QuotedTexts(xs: seq<string>): seq<string> {
    seq(|xs|, k requires 0 <= k < |xs| => Quoted(xs[k]))
  }

  function BoolText(b: bool): string { if b then "true" else "false" }

  /** The three ways to give a default, in order of precedence. */
  function WithDefault(b: string, col: Column): string {
    if col.defaultExpr.Some? then b + "," + Key("default_expr") + Quoted(col.defaultExpr.value)
    else if col.defaultValueJson.Some? then b + "," + Key("default_value") + col.defaultValueJson.value
    else if col.defaultValue.Some? then b + "," + Key("default_value") + Quoted(col.defaultValue.value)
    else b
  }

  /** The fields that are always written. */
  function ColumnHead(col: Column): string {
    var b := "{" + Key("id") + IntText(col.id);
    var b := b + "," + Key("name") + Quoted(col.name);
    var b := b + "," + Key("ty") + Quoted(col.ty);
    var b := b + "," + Key("primary_key") + BoolText(col.primaryKey);
    b + "," + Key("nullable") + BoolText(col.nullable)
  }

  function ColumnText(col: Column): string {
    var b := ColumnHead(col);
    var b := if col.enumVariants != []
             then b + "," + Key("enum_variants") + ("[" + Commas(QuotedTexts(col.enumVariants)) + "]") else b;
    var b := WithDefault(b, col);
    var b := if col.embeddingSourceJson.Some?
             then b + "," + Key("embedding_source") + col.embeddingSourceJson.value else b;
    b + "}"
  }

  method WriteStrings(out: string, xs: seq<string>) returns (body: string)
    ensures body == out + ("[" + Commas(QuotedTexts(xs)) + "]")
  {
    hide Quoted;
    body := out + "[";
    ghost var done := "";
    var k := 0;
    while k < |xs|
      invariant 0 <= k <= |xs| && done == Commas(QuotedTexts(xs[..k]))
      invariant body == out + "[" + done
      invariant k == 0 ==> done == ""
    {
      assert QuotedTexts(xs[..k + 1]) == QuotedTexts(xs[..k]) + [Quoted(xs[k])];
      CommasAppend(QuotedTexts(xs[..k]), Quoted(xs[k]));
      if k > 0 {
        body := body + ",";
      }
      body := JsonEscape(body, xs[k]);
      done := Commas(QuotedTexts(xs[..k + 1]));
      k := k + 1;
    }
    assert xs[..|xs|] == xs;
    body := body + "]";
    assert out + "[" + done + "]" == out + ("[" + done + "]");
  }

  method SerializeColumn(col: Column) returns (s: string)
    ensures s == ColumnText(col)
  {
    hide Key, Quoted, IntText, Commas;
    s := "{" + Key("id") + IntText(col.id);
    s := s + "," + Key("name");
    s := JsonEscape(s, col.name);
    s := s + "," + Key("ty");
    s := JsonEscape(s, col.ty);
    s := s + "," + Key("primary_key");
    s := s + BoolText(col.primaryKey);
    s := s + "," + Key("nullable");
    s := s + BoolText(col.nullable);
    if col.enumVariants != [] {
      s := s + "," + Key("enum_variants");
      s := WriteStrings(s, col.enumVariants);
    }
    if col.defaultExpr.Some? {
      s := s + "," + Key("default_expr");
      s := JsonEscape(s, col.defaultExpr.value);
    } else if col.defaultValueJson.Some? {
      s := s + "," + Key("default_value");
      s := s + col.defaultValueJson.value;
    } else if col.defaultValue.Some? {
      s := s + "," + Key("default_value");
      s := JsonEscape(s, col.defaultValue.value);
    }
    if col.embeddingSourceJson.Some? {
      s := s + "," + Key("embedding_source");
      s := s + col.embeddingSourceJson.value;
    }
    s := s + "}";
  }

  // ---- Indexes ----

  datatype IndexKind = Bitmap | Fm | Ann | LearnedRange | MinHash | Sparse
  datatype Quantization = BinarySign | Dense | Product
  datatype Algorithm = Hnsw | Diskann | Ivf

  /** pqNumSubvectors and pqBits are never sent. */
  datatype Index = Index(
    name: string,
    columnId: int64,
    kind: IndexKind,
    predicate_: Option<string>,
    annM: uint64,
    annEfConstruction: uint64,
    annEfSearch: uint64,
    quantization: Quantization,
    algorithm: Algorithm,
    diskannR: uint64,
    diskannL: uint64,
    diskannBeamWidth: uint64,
    diskannAlpha: uint32,
    ivfNlist: uint64,
    ivfNprobe: uint64,
    pqNumSubvectors: uint16,
    pqBits: uint8,
    pqTrainingSamples: uint64,
    pqSeed: uint64,
    pqRerankFactor: uint64,
    minhashPermutations: uint64,
    minhashBands: uint64,
    learnedRangeEpsilon: uint64)

  function KindName(kind: IndexKind): string {
    match kind
    case Bitmap => "bitmap"
    case Fm => "fm_index"
    case Ann => "ann"
    case LearnedRange => "learned_range"
    case MinHash => "minhash"
    case Sparse => "sparse"
  }

  function QuantizationName(q: Quantization): (name: string)
    ensures IsName(name)
  {
    match q
    case BinarySign => "binary_sign"
    case Dense => "dense"
    case Product => "product"
  }

  function AlgorithmName(a: Algorithm): (name: string)
    ensures IsName(name)
  {
    match a
    case Hnsw => "hnsw"
    case Diskann => "diskann"
    case Ivf => "ivf"
  }

  function OrDefault(n: nat, default: nat): nat { if n != 0 then n else default }

  function DiskannText(ix: Index): string {
    "{" + Key("r") + NatText(OrDefault(ix.diskannR, 64)) + "," + Key("l") + NatText(OrDefault(ix.diskannL, 128))
    + "," + Key("beam_width") + NatText(OrDefault(ix.diskannBeamWidth, 8))
    + "," + Key("alpha") + NatText(OrDefault(ix.diskannAlpha, 120)) + "}"
  }

  function IvfText(ix: Index): string {
    "{" + Key("nlist") + NatText(OrDefault(ix.ivfNlist, 256))
    + "," + Key("nprobe") + NatText(OrDefault(ix.ivfNprobe, 8)) + "}"
  }

  function ProductText(ix: Index): string {
    "{" + Key("training_samples") + NatText(OrDefault(ix.pqTrainingSamples, 256000))
    + "," + Key("seed") + NatText(OrDefault(ix.pqSeed, 0x9E3779B97F4A7C15))
    + "," + Key("rerank_factor") + NatText(OrDefault(ix.pqRerankFactor, 5)) + "}"
  }

  /** A tuning block goes through a fixed buffer, which cuts off what does not fit. */
  function WithBlock(b: string, size: nat, name: string, x: string): string
    requires size > 0
  {
    b + Snprintf(size, "," + Key(name) + x)
  }

  function AnnText(ix: Index): string {
    var b := "{" + Key("m") + NatText(ix.annM);
    var b := b + "," + Key("ef_construction") + NatText(ix.annEfConstruction);
    var b := b + "," + Key("ef_search") + NatText(ix.annEfSearch);
    var b := b + "," + Key("quantization") + ("\"" + QuantizationName(ix.quantization) + "\"");
    var b := if ix.algorithm != Hnsw
             then b + "," + Key("algorithm") + ("\"" + AlgorithmName(ix.algorithm) + "\"") else b;
    var b := if ix.algorithm == Diskann then WithBlock(b, 96, "diskann", DiskannText(ix)) else b;
    var b := if ix.algorithm == Ivf then WithBlock(b, 64, "ivf", IvfText(ix)) else b;
    var b := if ix.quantization == Product then WithBlock(b, 96, "product", ProductText(ix)) else b;
    b + "}"
  }

  function MinHashText(ix: Index): string {
    "{" + Key("permutations") + NatText(ix.minhashPermutations) + "," + Key("bands") + NatText(ix.minhashBands) + "}"
  }

  function LearnedRangeText(ix: Index): string {
    "{" + Key("epsilon") + NatText(ix.learnedRangeEpsilon) + "}"
  }

  function WithOptions(b: string, name: string, x: string): string {
    b + "," + Key("options") + ("{" + Key(name) + x + "}")
  }

  function IndexText(ix: Index): string {
    var b := "{" + Key("name") + Quoted(ix.name);
    var b := b + "," + Key("column_id") + IntText(ix.columnId);
    var b := b + "," + Key("kind") + Quoted(KindName(ix.kind));
    var b := if ix.predicate_.Some? then b + "," + Key("predicate") + Quoted(ix.predicate_.value) else b;
    var b := match ix.kind
      case Ann => WithOptions(b, "ann", AnnText(ix))
      case MinHash => WithOptions(b, "minhash", MinHashText(ix))
      case LearnedRange => WithOptions(b, "learned_range", LearnedRangeText(ix))
      case _ => b;
    b + "}"
  }

  /** The options.ann object, appended piece by piece. */
  method WriteAnn(out: string, ix: Index) returns (s: string)
    ensures s == out + AnnText(ix)
  {
    hide Key, NatText, Snprintf, QuantizationName, AlgorithmName, DiskannText, IvfText, ProductText;
    s := "{" + Key("m") + NatText(ix.annM);
    s := s + "," + Key("ef_construction") + NatText(ix.annEfConstruction);
    s := s + "," + Key("ef_search") + NatText(ix.annEfSearch);
    s := s + "," + Key("quantization") + ("\"" + QuantizationName(ix.quantization) + "\"");
    if ix.algorithm != Hnsw {
      s := s + "," + Key("algorithm") + ("\"" + AlgorithmName(ix.algorithm) + "\"");
      if ix.algorithm == Diskann {
        var buf := Snprintf(96, "," + Key("diskann") + DiskannText(ix));
        s := s + buf;
      } else if ix.algorithm == Ivf {
        var buf := Snprintf(64, "," + Key("ivf") + IvfText(ix));
        s := s + buf;
      }
    }
    if ix.quantization == Product {
      var buf := Snprintf(96, "," + Key("product") + ProductText(ix));
      s := s + buf;
    }
    s := s + "}";
    s := out + s;
  }

  method SerializeIndex(ix: Index) returns (s: string)
    ensures s == IndexText(ix)
  {
    hide Key, Quoted, IntText, KindName, AnnText, MinHashText, LearnedRangeText;
    s := "{" + Key("name");
    s := JsonEscape(s, ix.name);
    s := s + "," + Key("column_id") + IntText(ix.columnId);
    s := s + "," + Key("kind");
    s := JsonEscape(s, KindName(ix.kind));
    if ix.predicate_.Some? {
      s := s + "," + Key("predicate");
      s := JsonEscape(s, ix.predicate_.value);
    }
    ghost var b := s;
    if ix.kind == Ann {
      s := s + "," + Key("options") + "{" + Key("ann");
      s := WriteAnn(s, ix);
      s := s + "}";
      assert s == WithOptions(b, "ann", AnnText(ix));
    } else if ix.kind == MinHash {
      s := s + "," + Key("options") + "{" + Key("minhash") + MinHashText(ix) + "}";
      assert s == WithOptions(b, "minhash", MinHashText(ix));
    } else if ix.kind == LearnedRange {
      s := s + "," + Key("options") + "{" + Key("learned_range") + LearnedRangeText(ix) + "}";
      assert s == WithOptions(b, "learned_range", LearnedRangeText(ix));
    }
    s := s + "}";
  }

  // ---- create_table ----

  function ColumnTexts(cols: seq<Column>): seq<string> {
    seq(|cols|, k requires 0 <= k < |cols| => ColumnText(cols[k]))
  }

  function IndexTexts(ixs: seq<Index>): seq<string> {
    seq(|ixs|, k requires 0 <= k < |ixs| => IndexText(ixs[k]))
  }

  function CreateTableBody(name: string, cols: seq<Column>, constraintsJson: string, ixs: seq<Index>): string {
    var b := "{" + Key("name") + Quoted(name);
    var b := b + "," + Key("columns") + ("[" + Commas(ColumnTexts(cols)) + "]");
    var b := if constraintsJson != "" then b + "," + Key("constraints") + constraintsJson else b;
    var b := if ixs != [] then b + "," + Key("indexes") + ("[" + Commas(IndexTexts(ixs)) + "]") else b;
    b + "}"
  }

  method WriteColumns(out: string, cols: seq<Column>) returns (body: string)
    ensures body == out + ("[" + Commas(ColumnTexts(cols)) + "]")
  {
    hide ColumnText;
    body := out + "[";
    ghost var done := "";
    var k := 0;
    while k < |cols|
      invariant 0 <= k <= |cols| && done == Commas(ColumnTexts(cols[..k]))
      invariant body == out + "[" + done
      invariant k == 0 ==> done == ""
    {
      assert ColumnTexts(cols[..k + 1]) == ColumnTexts(cols[..k]) + [ColumnText(cols[k])];
      CommasAppend(ColumnTexts(cols[..k]), ColumnText(cols[k]));
      if k > 0 {
        body := body + ",";
      }
      var s := SerializeColumn(cols[k]);
      body := body + s;
      done := Commas(ColumnTexts(cols[..k + 1]));
      k := k + 1;
    }
    assert cols[..|cols|] == cols;
    body := body + "]";
    assert out + "[" + done + "]" == out + ("[" + done + "]");
  }

  method WriteIndexes(out: string, ixs: seq<Index>) returns (body: string)
    ensures body == out + ("[" + Commas(IndexTexts(ixs)) + "]")
  {
    hide IndexText;
    body := out + "[";
    ghost var done := "";
    var k := 0;
    while k < |ixs|
      invariant 0 <= k <= |ixs| && done == Commas(IndexTexts(ixs[..k]))
      invariant body == out + "[" + done
      invariant k == 0 ==> done == ""
    {
      assert IndexTexts(ixs[..k + 1]) == IndexTexts(ixs[..k]) + [IndexText(ixs[k])];
      CommasAppend(IndexTexts(ixs[..k]), IndexText(ixs[k]));
      if k > 0 {
        body := body + ",";
      }
      var s := SerializeIndex(ixs[k]);
      body := body + s;
      done := Commas(IndexTexts(ixs[..k + 1]));
      k := k + 1;
    }
    assert ixs[..|ixs|] == ixs;
    body := body + "]";
    assert out + "[" + done + "]" == out + ("[" + done + "]");
  }

  method SerializeCreateTable(name: string, cols: seq<Column>, constraintsJson: string, ixs: seq<Index>)
    returns (body: string)
    ensures body == CreateTableBody(name, cols, constraintsJson, ixs)
  {
    hide Key, Quoted, Commas;
    body := "{" + Key("name");
    body := JsonEscape(body, name);
    body := body + "," + Key("columns");
    body := WriteColumns(body, cols);
    if constraintsJson != "" {
      body := body + "," + Key("constraints");
      body := body + constraintsJson;
    }
    if ixs != [] {
      body := body + "," + Key("indexes");
      body := WriteIndexes(body, ixs);
    }
    body := body + "}";
  }

  // ---- Which tuning blocks fit ----

  function Digits(n: nat): nat { |NatText(n)| }

  function DiskannDigits(ix: Index): nat {
    Digits(OrDefault(ix.diskannR, 64)) + Digits(OrDefault(ix.diskannL, 128))
    + Digits(OrDefault(ix.diskannBeamWidth, 8)) + Digits(OrDefault(ix.diskannAlpha, 120))
  }

  function IvfDigits(ix: Index): nat {
    Digits(OrDefault(ix.ivfNlist, 256)) + Digits(OrDefault(ix.ivfNprobe, 8))
  }

  function ProductDigits(ix: Index): nat {
    Digits(OrDefault(ix.pqTrainingSamples, 256000)) + Digits(OrDefault(ix.pqSeed, 0x9E3779B97F4A7C15))
    + Digits(OrDefault(ix.pqRerankFactor, 5))
  }

  /** Every tuning block that is emitted has few enough digits for its buffer. */
  predicate TuningFits(ix: Index) {
    && (ix.algorithm == Diskann ==> DiskannDigits(ix) <= 50)
    && (ix.algorithm == Ivf ==> IvfDigits(ix) <= 36)
    && (ix.quantization == Product ==> ProductDigits(ix) <= 38)
  }

  lemma KeyLength(name: string)
    ensures |Key(name)| == |name| + 3
  {}

  /**
   A block is emitted whole exactly when its digits total at most 50, 36 and 38; otherwise
   only its first 95, 63 and 95 bytes are.
   */
  lemma BlocksWholeIffFew(ix: Index)
    ensures var x := "," + Key("diskann") + DiskannText(ix); Snprintf(96, x) == x <==> DiskannDigits(ix) <= 50
    ensures var x := "," + Key("ivf") + IvfText(ix); Snprintf(64, x) == x <==> IvfDigits(ix) <= 36
    ensures var x := "," + Key("product") + ProductText(ix); Snprintf(96, x) == x <==> ProductDigits(ix) <= 38
    ensures var x := Snprintf(96, "," + Key("diskann") + DiskannText(ix));
            x <= "," + Key("diskann") + DiskannText(ix) && (DiskannDigits(ix) > 50 ==> |x| == 95)
    ensures var x := Snprintf(64, "," + Key("ivf") + IvfText(ix));
            x <= "," + Key("ivf") + IvfText(ix) && (IvfDigits(ix) > 36 ==> |x| == 63)
    ensures var x := Snprintf(96, "," + Key("product") + ProductText(ix));
            x <= "," + Key("product") + ProductText(ix) && (ProductDigits(ix) > 38 ==> |x| == 95)
  {
    DiskannLength(ix);
    IvfLength(ix);
    ProductLength(ix);
  }

  lemma DiskannLength(ix: Index)
    ensures |"," + Key("diskann") + DiskannText(ix)| == 45 + DiskannDigits(ix)
  {
    hide NatText;
    assert |Key("diskann")| == 10 && |Key("r")| == 4 && |Key("l")| == 4 && |Key("beam_width")| == 13;
    assert |Key("alpha")| == 8;
  }

  lemma IvfLength(ix: Index)
    ensures |"," + Key("ivf") + IvfText(ix)| == 27 + IvfDigits(ix)
  {
    hide NatText;
    assert |Key("ivf")| == 6 && |Key("nlist")| == 8 && |Key("nprobe")| == 9;
  }

  lemma ProductLength(ix: Index)
    ensures |"," + Key("product") + ProductText(ix)| == 57 + ProductDigits(ix)
  {
    hide NatText;
    assert |Key("product")| == 10 && |Key("training_samples")| == 19 && |Key("seed")| == 7;
    assert |Key("rerank_factor")| == 16;
  }
}
