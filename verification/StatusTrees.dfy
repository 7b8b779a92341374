/** Every field of a decoded status, in terms of the document it was decoded from. */
module StatusTrees {
  import opened Bytes
  import opened Strings
  import opened Grammar
  import opened GrammarLaws
  import opened Lookup
  import opened Fields
  import opened Status
  import opened StatusLaws
  import opened StringLaws
  import opened Build
  import RowsLaws
  import Fragments

  // ---- Reading a status document ----

  /** The clock in an object, if its micros are digits; its other parts are 0 when absent. */
  function HlcIn(h: Tree, cast: Cast): Option<CommitHlc>
    requires h.Obj?
  {
    if h.members == [] then None
    else
      match UintIn(h, "physical_micros")
      case None => None
      case Some(micros) =>
        Some(CommitHlc(micros, ToUint32(IntIn(h, "logical", cast)),
                       ToUint32(IntIn(h, "node_tiebreaker", cast))))
  }

  function MemberHlcIn(t: Tree, cast: Cast): Option<CommitHlc> {
    match Find(t, "last_commit_hlc", AnObject)
    case None => None
    case Some(h) => HlcIn(h, cast)
  }

  /**
   The shared fields of a non-empty object. Absent numbers are 0 and absent flags false, all
   of them set; the text is the last string present among those read before it and it.
   */
  function ProgressIn(t: Tree, before: seq<string>, cast: Cast): Progress {
    Progress(
      Some(BoolIn(t, "committed", false)),
      Some(IntIn(t, "committed_statements", cast)),
      UintIn(t, "last_commit_epoch"),
      Some(LastPresent(t, before + ["last_commit_epoch_text"])),
      MemberHlcIn(t, cast),
      Some(IntIn(t, "first_commit_statement_index", cast)),
      Some(IntIn(t, "last_commit_statement_index", cast)),
      Some(IntIn(t, "completed_statements", cast)),
      Some(IntIn(t, "statement_index", cast)))
  }

  /** An outcome object: three more strings, each the last present of a growing list. */
  function DurableIn(t: Tree, cast: Cast): DurableOutcome
    requires t.Obj?
  {
    if t.members == [] then NO_OUTCOME
    else
      var text := ["last_commit_epoch_text"];
      DurableOutcome(
        ProgressIn(t, [], cast),
        LastPresent(t, text + ["serialization"]),
        Some(LastPresent(t, text + ["serialization"] + ["serialization_state"])),
        Some(LastPresent(t, text + ["serialization"] + ["serialization_state"] + ["terminal_state"])))
  }

  function OutcomeIn(t: Tree, cast: Cast): DurableOutcome {
    match Find(t, "outcome", AnObject)
    case Some(o) => DurableIn(o, cast)
    case None => NO_OUTCOME
  }

  /** An absent durable is a second copy of the outcome. */
  function NestedIn(t: Tree, cast: Cast): DurableOutcome {
    match Find(t, "durable", AnObject)
    case Some(d) => DurableIn(d, cast)
    case None => OutcomeIn(t, cast)
  }

  function LabelKeys(): seq<string> { ["query_id", "status", "state", "server_state", "terminal_state"] }

  function LabelsIn(t: Tree): Labels {
    Labels(
      LastPresent(t, ["query_id"]),
      LastPresent(t, ["query_id", "status"]),
      LastPresent(t, ["query_id", "status", "state"]),
      LastPresent(t, ["query_id", "status", "state", "server_state"]),
      Some(LastPresent(t, LabelKeys())))
  }

  /** What a status body decodes to: nothing but defaults if its object is empty. */
  function StatusIn(t: Tree, json: string, cast: Cast): QueryStatus {
    if !t.Obj? || t.members == [] then
      QueryStatus(Labels("", "", "", "", None), NO_PROGRESS, None, "", false, NO_OUTCOME, None, json)
    else
      var texts := LabelKeys() + ["last_commit_epoch_text"];
      QueryStatus(
        LabelsIn(t),
        ProgressIn(t, LabelKeys(), cast),
        Some(LastPresent(t, texts + ["cancel_outcome"])),
        LastPresent(t, texts + ["cancel_outcome"] + ["cancellation_reason"]),
        BoolIn(t, "retryable", BoolIn(t, "committed", false)),
        OutcomeIn(t, cast),
        Some(NestedIn(t, cast)),
        json)
  }

  // ---- The parsers compute it ----

  /** A body that is an object of RFC 8259. */
  ghost predicate IsStatus(json: string) {
    IsObject(json) && Strict(Parse(json).value)
  }

  lemma FoundIsStrict(t: Tree, key: string, kind: Kind)
    requires t.Obj? && Strict(t)
    ensures Find(t, key, kind).Some? ==> Strict(Find(t, key, kind).value)
  {
    hide First, StrictMember;
    RowsLaws.FirstIsStrict(t.members, key, kind);
  }

  lemma StrictBool(json: string, key: string, out: bool)
    requires IsStatus(json)
    ensures var t := Parse(json).value; BoolField(json, key, out) == (t.members != [], BoolIn(t, key, out))
  {
    hide Find, Parse, Strict, BoolField, BoolIn;
    var t := Parse(json).value;
    FoundIsStrict(t, key, ABool);
    if Find(t, key, ABool).Some? { RowsLaws.StrictHasKeywords(Find(t, key, ABool).value); }
    BoolFieldIsFind(json, key, out);
  }

  lemma HlcIsIn(json: string, cast: Cast)
    requires IsObject(json)
    ensures HlcFrom(json, cast) == HlcIn(Parse(json).value, cast)
  {
    hide Find, Name, Parse, IntField, UintField, UintIn, IntIn;
    NamesAre();
    var h := Parse(json).value;
    UintFieldIsFind(json, "physical_micros", 0);
    AbsentUint(h, "physical_micros");
    IntFieldIsFind(json, "logical", 0, cast);
    IntFieldIsFind(json, "node_tiebreaker", 0, cast);
  }

  lemma AbsentUint(t: Tree, key: string)
    ensures Find(t, key, AUnsigned).None? ==> UintIn(t, key) == Some(0)
  {}

  lemma MemberHlcIsIn(json: string, cast: Cast)
    requires IsObject(json)
    ensures HlcMember(json, cast) == MemberHlcIn(Parse(json).value, cast)
  {
    hide Find, Name, Parse, HlcFrom, Text, RawField, HlcIn;
    NamesAre();
    RawFieldIsFind(json, "last_commit_hlc", AnObject, "");
    EmptyHasNone(json, "last_commit_hlc", AnObject);
    match Find(Parse(json).value, "last_commit_hlc", AnObject) {
      case Some(h) => HlcIsIn(Text(h), cast);
      case None => NoBodyNoClock(cast);
    }
  }

  lemma UintWhen(json: string, key: string)
    requires IsObject(json) && Parse(json).value.members != []
    ensures When(UintField(json, key, 0)) == UintIn(Parse(json).value, key)
  {
    hide Find, Parse, UintField, UintIn;
    UintFieldIsFind(json, key, 0);
    AbsentUint(Parse(json).value, key);
  }

  /** The shared fields, the scratch text being the last string present before them. */
  lemma ProgressIsIn(json: string, before: seq<string>, cast: Cast)
    requires IsStatus(json) && Parse(json).value.members != []
    ensures var t := Parse(json).value; ProgressFrom(json, LastPresent(t, before), cast) == ProgressIn(t, before, cast)
  {
    hide Name, Parse, Find, StringField, BoolField, IntField, UintField, BoolIn, IntIn, UintIn, StringIn, LastPresent,
         HlcMember, MemberHlcIn, Strict;
    NamesAre();
    var t := Parse(json).value;
    StrictBool(json, "committed", false);
    IntFieldIsFind(json, "committed_statements", 0, cast);
    UintWhen(json, "last_commit_epoch");
    TextIsLast(json, before, "last_commit_epoch_text");
    MemberHlcIsIn(json, cast);
    IntFieldIsFind(json, "first_commit_statement_index", 0, cast);
    IntFieldIsFind(json, "last_commit_statement_index", 0, cast);
    IntFieldIsFind(json, "completed_statements", 0, cast);
    IntFieldIsFind(json, "statement_index", 0, cast);
  }

  /** A string field read into the scratch variable is the last string present up to it. */
  lemma TextIsLast(json: string, before: seq<string>, k: string)
    requires IsObject(json) && Parse(json).value.members != []
    ensures var t := Parse(json).value;
            StringField(json, k, LastPresent(t, before)) == (true, LastPresent(t, before + [k]))
  {
    hide Parse, StringField, StringIn, LastPresent;
    var t := Parse(json).value;
    StringFieldIsFind(json, k, LastPresent(t, before));
    LastPresentStep(t, before, k);
  }

  lemma EmptyFields(json: string, key: string, cast: Cast)
    requires IsObject(json) && Parse(json).value.members == []
    ensures forall out :: StringField(json, key, out) == (false, out)
    ensures !IntField(json, key, 0, cast).0 && !UintField(json, key, 0).0
    ensures forall out :: BoolField(json, key, out) == (false, out)
    ensures forall kind, out | kind == AnObject :: RawField(json, key, kind, out) == (false, out)
  {
    hide Parse, ScanObject;
    ScanIsFind(json, key, AString);
    ScanIsFind(json, key, ANumber);
    ScanIsFind(json, key, AUnsigned);
    ScanIsFind(json, key, ABool);
    ScanIsFind(json, key, AnObject);
  }

  lemma EmptyProgress(json: string, s: string, cast: Cast)
    requires IsObject(json) && Parse(json).value.members == []
    ensures ProgressFrom(json, s, cast) == NO_PROGRESS
  {
    hide Name, Parse, StringField, BoolField, IntField, UintField, RawField, HlcFrom;
    NamesAre();
    forall k: string
      ensures !StringField(json, k, s).0 && !IntField(json, k, 0, cast).0 && !UintField(json, k, 0).0
      ensures !BoolField(json, k, false).0 && !RawField(json, k, AnObject, "").0
    {
      EmptyFields(json, k, cast);
    }
  }

  lemma NotEmptyText(json: string)
    requires IsObject(json)
    ensures json != ""
  {}

  lemma DurableIsIn(json: string, cast: Cast)
    requires IsStatus(json)
    ensures DurableFrom(json, cast) == DurableIn(Parse(json).value, cast)
  {
    hide Name, Parse, StringField, StringIn, LastPresent, ProgressFrom, ProgressIn, Strict;
    NamesAre();
    var t := Parse(json).value;
    NotEmptyText(json);
    if t.members == [] {
      EmptyProgress(json, "", cast);
      EmptyFields(json, "serialization", cast);
      EmptyFields(json, "serialization_state", cast);
      EmptyFields(json, "terminal_state", cast);
    } else {
      LastPresentStart(t);
      ProgressIsIn(json, [], cast);
      TextIsLast(json, [], "last_commit_epoch_text");
      assert [] + ["last_commit_epoch_text"] == ["last_commit_epoch_text"];
      TextIsLast(json, ["last_commit_epoch_text"], "serialization");
      TextIsLast(json, ["last_commit_epoch_text"] + ["serialization"], "serialization_state");
      TextIsLast(json, ["last_commit_epoch_text"] + ["serialization"] + ["serialization_state"], "terminal_state");
    }
  }

  lemma NestedStatus(json: string, key: string)
    requires IsStatus(json) && Find(Parse(json).value, key, AnObject).Some?
    ensures var o := Find(Parse(json).value, key, AnObject).value; IsStatus(Text(o)) && Parse(Text(o)) == Some(o)
  {
    hide Find, Parse, Strict, Text, RawField;
    RawFieldIsFind(json, key, AnObject, "");
    FoundIsStrict(Parse(json).value, key, AnObject);
  }

  lemma OutcomeIsIn(json: string, cast: Cast)
    requires IsStatus(json)
    ensures OutcomeFrom(json, cast) == OutcomeIn(Parse(json).value, cast)
  {
    hide Find, Name, Parse, Text, Strict, RawField, DurableIn, ProgressFrom, StringField;
    NamesAre();
    var t := Parse(json).value;
    RawFieldIsFind(json, "outcome", AnObject, "");
    EmptyHasNone(json, "outcome", AnObject);
    if Find(t, "outcome", AnObject).Some? {
      NestedStatus(json, "outcome");
      DurableIsIn(Text(Find(t, "outcome", AnObject).value), cast);
    }
  }

  lemma NestedIsIn(json: string, cast: Cast)
    requires IsStatus(json)
    ensures var t := Parse(json).value;
            NestedFrom(json, cast) == if t.members == [] then None else Some(NestedIn(t, cast))
  {
    hide Find, Name, Parse, Text, Strict, RawField, DurableIn, ProgressFrom, StringField;
    NamesAre();
    var t := Parse(json).value;
    var o := RawField(json, "outcome", AnObject, "");
    RawFieldIsFind(json, "outcome", AnObject, "");
    RawFieldIsFind(json, "durable", AnObject, o.1);
    if Find(t, "durable", AnObject).Some? {
      NestedStatus(json, "durable");
      DurableIsIn(Text(Find(t, "durable", AnObject).value), cast);
    } else if t.members != [] {
      OutcomeIsIn(json, cast);
    }
  }

  lemma LabelsAreIn(json: string)
    requires IsObject(json) && Parse(json).value.members != []
    ensures var t := Parse(json).value;
            LabelsFrom(json) == LabelsIn(t) && LastLabel(json) == (true, LastPresent(t, LabelKeys()))
  {
    hide Parse, LastPresent, StringField, Name;
    NamesAre();
    LabelsAreLastPresent(json);
    LastLabelIsTerminal(json);
  }

  lemma LastLabelIsTerminal(json: string)
    requires IsObject(json) && Parse(json).value.members != []
    ensures LastLabel(json).0 && LabelsFrom(json).terminalState == Some(LastLabel(json).1)
  {
    hide Parse, StringField, Name, StringIn;
    NamesAre();
    var id := StringField(json, "query_id", "");
    var status := StringField(json, "status", id.1);
    var state := StringField(json, "state", status.1);
    var server := StringField(json, "server_state", state.1);
    StringFieldIsFind(json, "terminal_state", server.1);
  }

  /** An empty object decodes to nothing but defaults. */
  lemma EmptyStatus(json: string, cast: Cast)
    requires IsStatus(json) && Parse(json).value.members == []
    ensures StatusFrom(json, cast) == StatusIn(Parse(json).value, json, cast)
  {
    hide Name, Parse, StringField, BoolField, IntField, UintField, RawField, HlcFrom, ProgressFrom, DurableFrom, Strict;
    NamesAre();
    EmptyProgress(json, LastLabel(json).1, cast);
    AllEmpty(json, cast);
  }

  lemma AllEmpty(json: string, cast: Cast)
    requires IsObject(json) && Parse(json).value.members == []
    ensures forall key: string, out: string :: StringField(json, key, out) == (false, out)
    ensures forall key: string, out: bool :: BoolField(json, key, out) == (false, out)
    ensures forall key: string, out: string :: RawField(json, key, AnObject, out) == (false, out)
  {
    hide Parse, StringField, BoolField, RawField;
    forall key: string, out: string ensures StringField(json, key, out) == (false, out) {
      EmptyFields(json, key, cast);
    }
    forall key: string, out: bool ensures BoolField(json, key, out) == (false, out) {
      EmptyFields(json, key, cast);
    }
    forall key: string, out: string ensures RawField(json, key, AnObject, out) == (false, out) {
      EmptyFields(json, key, cast);
    }
  }

  /**
   The whole status is a function of the document: for every RFC 8259 status object, in any
   layout and member order, each field of the decoded status is read from the tree, the
   effect of the shared scratch variables included.
   */
  lemma StatusIsDocument(json: string, cast: Cast)
    requires IsStatus(json)
    ensures StatusFrom(json, cast) == StatusIn(Parse(json).value, json, cast)
  {
    hide Name, Parse, StringField, BoolField, BoolIn, LabelsFrom, LastLabel, ProgressFrom, ProgressIn, OutcomeFrom,
         NestedFrom, OutcomeIn, NestedIn, LabelsIn, LastPresent, LabelKeys, Strict;
    NamesAre();
    var t := Parse(json).value;
    if t.members == [] {
      EmptyStatus(json, cast);
    } else {
      LabelsAreIn(json);
      ProgressIsIn(json, LabelKeys(), cast);
      TextIsLast(json, LabelKeys(), "last_commit_epoch_text");
      TextIsLast(json, LabelKeys() + ["last_commit_epoch_text"], "cancel_outcome");
      TextIsLast(json, LabelKeys() + ["last_commit_epoch_text"] + ["cancel_outcome"], "cancellation_reason");
      StrictBool(json, "committed", false);
      StrictBool(json, "retryable", BoolIn(t, "committed", false));
      OutcomeIsIn(json, cast);
      NestedIsIn(json, cast);
    }
  }

  // ---- When a text is the document's own ----

  /** A text field is the document's exactly when it is there, or nothing before it left a text behind. */
  lemma LastPresentIsOwn(t: Tree, before: seq<string>, k: string)
    ensures LastPresent(t, before + [k]) == StringIn(t, k, "")
            <==> Find(t, k, AString).Some? || LastPresent(t, before) == ""
  {
    hide Find, LastPresent;
    LastPresentStep(t, before, k);
  }

  /** The text of a member, if it is there. */
  function TextIn(t: Tree, k: string): Option<string> {
    match Find(t, k, AString)
    case Some(v) => Some(Meaning(v.ps))
    case None => None
  }

  /** An optional text is always set, so it is the document's exactly when it is there. */
  lemma SetTextIsOwn(t: Tree, before: seq<string>, k: string)
    ensures Some(LastPresent(t, before + [k])) == TextIn(t, k) <==> Find(t, k, AString).Some?
  {
    hide Find, LastPresent;
    LastPresentStep(t, before, k);
  }

  predicate Has(t: Tree, k: string) { Find(t, k, AString).Some? }

  /** For every text field of a status, exactly when it is the document's. */
  lemma StatusTextsAreOwnIff(json: string, cast: Cast)
    requires IsStatus(json) && Parse(json).value.members != []
    ensures var t, st := Parse(json).value, StatusFrom(json, cast);
            var texts := LabelKeys() + ["last_commit_epoch_text"];
            && st.labels.queryId == StringIn(t, "query_id", "")
            && (st.labels.status == StringIn(t, "status", "")
                <==> Has(t, "status") || LastPresent(t, ["query_id"]) == "")
            && (st.labels.state == StringIn(t, "state", "")
                <==> Has(t, "state") || LastPresent(t, ["query_id", "status"]) == "")
            && (st.labels.serverState == StringIn(t, "server_state", "")
                <==> Has(t, "server_state") || LastPresent(t, ["query_id", "status", "state"]) == "")
            && (st.labels.terminalState == TextIn(t, "terminal_state") <==> Has(t, "terminal_state"))
            && (st.progress.lastCommitEpochText == TextIn(t, "last_commit_epoch_text")
                <==> Has(t, "last_commit_epoch_text"))
            && (st.cancelOutcome == TextIn(t, "cancel_outcome") <==> Has(t, "cancel_outcome"))
            && (st.cancellationReason == StringIn(t, "cancellation_reason", "")
                <==> Has(t, "cancellation_reason") || LastPresent(t, texts + ["cancel_outcome"]) == "")
  {
    hide Name, Parse, Find, StatusFrom, LastPresent, StringIn, TextIn, Strict, OutcomeIn, NestedIn, Has, IsStatus,
         BoolIn, IntIn, UintIn, MemberHlcIn;
    NamesAre();
    IsAnObject(json);
    var t := Parse(json).value;
    StatusIsDocument(json, cast);
    LabelTextsAreOwn(t);
    SetTextIsOwn(t, LabelKeys(), "last_commit_epoch_text");
    SetTextIsOwn(t, LabelKeys() + ["last_commit_epoch_text"], "cancel_outcome");
    LastPresentIsOwn(t, LabelKeys() + ["last_commit_epoch_text"] + ["cancel_outcome"], "cancellation_reason");
    HasIsFound(t);
  }

  lemma IsAnObject(json: string)
    requires IsStatus(json)
    ensures Parse(json).Some? && Parse(json).value.Obj?
  {}

  lemma HasIsFound(t: Tree)
    ensures forall k :: Has(t, k) <==> Find(t, k, AString).Some?
  {}

  lemma LabelTextsAreOwn(t: Tree)
    ensures var l := LabelsIn(t);
            && l.queryId == StringIn(t, "query_id", "")
            && (l.status == StringIn(t, "status", "") <==> Has(t, "status") || LastPresent(t, ["query_id"]) == "")
            && (l.state == StringIn(t, "state", "")
                <==> Has(t, "state") || LastPresent(t, ["query_id", "status"]) == "")
            && (l.serverState == StringIn(t, "server_state", "")
                <==> Has(t, "server_state") || LastPresent(t, ["query_id", "status", "state"]) == "")
            && (l.terminalState == TextIn(t, "terminal_state") <==> Has(t, "terminal_state"))
  {
    hide Find, LastPresent, StringIn, TextIn;
    LastPresentStart(t);
    LastPresentStep(t, [], "query_id");
    LastPresentIsOwn(t, ["query_id"], "status");
    LastPresentIsOwn(t, ["query_id", "status"], "state");
    LastPresentIsOwn(t, ["query_id", "status", "state"], "server_state");
    SetTextIsOwn(t, ["query_id", "status", "state", "server_state"], "terminal_state");
    assert [] + ["query_id"] == ["query_id"];
    assert ["query_id"] + ["status"] == ["query_id", "status"];
    assert ["query_id", "status"] + ["state"] == ["query_id", "status", "state"];
    assert ["query_id", "status", "state"] + ["server_state"] == ["query_id", "status", "state", "server_state"];
    assert ["query_id", "status", "state", "server_state"] + ["terminal_state"] == LabelKeys();
  }

  /** The same for the text fields of an outcome. */
  lemma OutcomeTextsAreOwnIff(json: string, cast: Cast)
    requires IsStatus(json) && Parse(json).value.members != []
    ensures var t, o := Parse(json).value, DurableFrom(json, cast);
            && (o.progress.lastCommitEpochText == TextIn(t, "last_commit_epoch_text")
                <==> Has(t, "last_commit_epoch_text"))
            && (o.serialization == StringIn(t, "serialization", "")
                <==> Has(t, "serialization") || LastPresent(t, ["last_commit_epoch_text"]) == "")
            && (o.serializationState == TextIn(t, "serialization_state") <==> Has(t, "serialization_state"))
            && (o.terminalState == TextIn(t, "terminal_state") <==> Has(t, "terminal_state"))
  {
    hide Name, Parse, Find, DurableFrom, LastPresent, StringIn, TextIn, Strict, Has, BoolIn, IntIn, UintIn, MemberHlcIn;
    NamesAre();
    var t := Parse(json).value;
    var text := ["last_commit_epoch_text"];
    DurableIsIn(json, cast);
    SetTextIsOwn(t, [], "last_commit_epoch_text");
    LastPresentIsOwn(t, text, "serialization");
    SetTextIsOwn(t, text + ["serialization"], "serialization_state");
    SetTextIsOwn(t, text + ["serialization"] + ["serialization_state"], "terminal_state");
    HasIsFound(t);
  }

  // ---- Two bodies on which a field is not the document's ----

  /** A body with one member. */
  lemma OneMember(json: string, k: string, v: Tree)
    requires IsName(k) && Strict(v) && json == "{" + Key(k) + Text(v) + "}"
    ensures IsStatus(json) && Parse(json) == Some(ObjTree([Field(k, v)]))
  {
    hide Text, Strict, Holds, Parse, Key;
    var t := ObjTree([Field(k, v)]);
    Start("{", k, v);
    assert "" + "{" == "{";
    Finish("{" + Key(k) + Text(v), "", [Field(k, v)]);
    assert json == Text(t);
    StrictBody(t);
  }

  lemma OnlyMember(k: string, v: Tree, key: string, kind: Kind)
    requires key != k || IsKind(kind, v)
    ensures Find(ObjTree([Field(k, v)]), key, kind) == if key == k then Some(v) else None
  {
    hide RawPieces, Meaning, IsKind;
    Fragments.NameMeaning(k);
    var ms := [Field(k, v)];
    assert ms[0] == Field(k, v) && ms[1..] == [];
    assert First(ms[1..], key, kind) == None;
  }

  lemma ShownNamesDiffer()
    ensures "retryable" != "committed" && "status" != "query_id"
    ensures IsName("committed") && IsName("query_id")
  {
    assert "retryable"[0] == 'r' && "committed"[0] == 'c';
    assert "status"[0] == 's' && "query_id"[0] == 'q';
  }

  lemma CommittedShows(json: string, cast: Cast)
    requires IsStatus(json) && Parse(json) == Some(ObjTree([Field("committed", Word("true"))]))
    ensures Find(Parse(json).value, "retryable", ABool).None? && StatusFrom(json, cast).retryable
  {
    hide Name, Strict, Parse, StatusFrom, LabelsIn, ProgressIn, OutcomeIn, NestedIn, LastPresent, Find, LabelKeys;
    NamesAre();
    var v := Word("true");
    ShownNamesDiffer();
    OnlyMember("committed", v, "retryable", ABool);
    OnlyMember("committed", v, "committed", ABool);
    StatusIsDocument(json, cast);
  }

  /** An absent retryable takes the flag of a committed query. */
  lemma CommittedShowsAsRetryable(json: string, cast: Cast)
    requires json == "{\"committed\":true}"
    ensures IsStatus(json) && Find(Parse(json).value, "retryable", ABool).None?
    ensures StatusFrom(json, cast).retryable
  {
    hide Parse, StatusFrom, Find, IsStatus, IsName;
    ShownNamesDiffer();
    TrueText();
    CommittedBody(json);
    OneMember(json, "committed", Word("true"));
    CommittedShows(json, cast);
  }

  lemma CommittedBody(json: string)
    requires json == "{\"committed\":true}"
    ensures json == "{" + Key("committed") + "true" + "}"
  {}

  lemma TrueText()
    ensures Text(Word("true")) == "true" && Strict(Word("true"))
  {}

  lemma QueryIdShows(json: string, v: Tree, cast: Cast)
    requires IsStatus(json) && Parse(json) == Some(ObjTree([Field("query_id", v)])) && v.Str?
    ensures Find(Parse(json).value, "status", AString).None?
    ensures StatusFrom(json, cast).labels.status == Meaning(v.ps)
  {
    hide Name, Strict, Parse, StatusFrom, ProgressIn, OutcomeIn, NestedIn, LastPresent, Find, Meaning, LabelKeys;
    NamesAre();
    var t := ObjTree([Field("query_id", v)]);
    ShownNamesDiffer();
    OnlyMember("query_id", v, "status", AString);
    OnlyMember("query_id", v, "query_id", AString);
    LastPresentStart(t);
    LastPresentStep(t, [], "query_id");
    LastPresentStep(t, ["query_id"], "status");
    assert [] + ["query_id"] == ["query_id"] && ["query_id"] + ["status"] == ["query_id", "status"];
    StatusIsDocument(json, cast);
  }

  /** An absent status takes the text of the query id. */
  lemma QueryIdShowsAsStatus(json: string, cast: Cast)
    requires json == "{\"query_id\":\"a\"}"
    ensures IsStatus(json) && Find(Parse(json).value, "status", AString).None?
    ensures StatusFrom(json, cast).labels.status == "a"
  {
    hide Parse, StatusFrom, Find, IsStatus, IsName, Text, Strict, StrTree, EscapeAll;
    ShownNamesDiffer();
    StrTreeText("a");
    QueryIdBody(json);
    MeaningA();
    OneMember(json, "query_id", StrTree("a"));
    QueryIdShows(json, StrTree("a"), cast);
  }

  lemma QueryIdBody(json: string)
    requires json == "{\"query_id\":\"a\"}"
    ensures json == "{" + Key("query_id") + Quoted("a") + "}"
  {
    assert EscapeAll("a") == EscapeChar('a') + EscapeAll("");
    assert Quoted("a") == "\"a\"";
  }

  lemma MeaningA()
    ensures StrTree("a").Str? && Meaning(StrTree("a").ps) == "a"
  {
    EscapeFaithful("a");
  }
}
