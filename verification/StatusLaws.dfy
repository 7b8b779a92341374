/** What decoded statuses say about the document they were decoded from. */
module StatusLaws {
  import opened Bytes
  import opened Numbers
  import opened Grammar
  import opened Values
  import opened Lookup
  import opened Fields
  import opened Status

  // ---- The names on the wire ----

  lemma NamesAre()
    ensures Name(KCommitted) == "committed"
    ensures Name(KCommittedStatements) == "committed_statements"
    ensures Name(KLastCommitEpoch) == "last_commit_epoch"
    ensures Name(KLastCommitEpochText) == "last_commit_epoch_text"
    ensures Name(KLastCommitHlc) == "last_commit_hlc"
    ensures Name(KFirstCommitStatementIndex) == "first_commit_statement_index"
    ensures Name(KLastCommitStatementIndex) == "last_commit_statement_index"
    ensures Name(KCompletedStatements) == "completed_statements"
    ensures Name(KStatementIndex) == "statement_index"
    ensures Name(KSerialization) == "serialization"
    ensures Name(KSerializationState) == "serialization_state"
    ensures Name(KTerminalState) == "terminal_state"
    ensures Name(KQueryId) == "query_id"
    ensures Name(KStatus) == "status"
    ensures Name(KState) == "state"
    ensures Name(KServerState) == "server_state"
    ensures Name(KCancelOutcome) == "cancel_outcome"
    ensures Name(KCancellationReason) == "cancellation_reason"
    ensures Name(KRetryable) == "retryable"
    ensures Name(KOutcome) == "outcome"
    ensures Name(KDurable) == "durable"
    ensures Name(KPhysicalMicros) == "physical_micros"
    ensures Name(KLogical) == "logical"
    ensures Name(KNodeTiebreaker) == "node_tiebreaker"
  {}

  // ---- The clock of a document ----

  function HlcAt(t: Tree): Option<Tree> { Find(t, "last_commit_hlc", AnObject) }

  /** A clock object with its micros as plain digits in uint64, and uint32 values if any. */
  predicate IsClock(h: Tree) {
    var phys := Find(h, "physical_micros", AUnsigned);
    && phys.Some? && AllIn(phys.value.x, Digit) && NatValue(phys.value.x) < TWO64
    && IsClockPart(h, "logical") && IsClockPart(h, "node_tiebreaker")
  }

  predicate IsClockPart(h: Tree, k: string) {
    var v := Find(h, k, ANumber);
    v.Some? ==> IsPlain(v.value.x) && 0 <= PlainValue(v.value.x) < 0x1_0000_0000
  }

  function ClockPart(h: Tree, k: string): uint32
    requires IsClockPart(h, k)
  {
    match Find(h, k, ANumber)
    case Some(v) => PlainValue(v.x)
    case None => 0
  }

  /** The clock a clock object denotes. */
  function ClockOf(h: Tree): CommitHlc
    requires IsClock(h)
  {
    CommitHlc(NatValue(Find(h, "physical_micros", AUnsigned).value.x), ClockPart(h, "logical"),
              ClockPart(h, "node_tiebreaker"))
  }

  predicate ClockOk(h: Option<Tree>) { h.Some? ==> IsClock(h.value) }

  function Clock(h: Option<Tree>): Option<CommitHlc>
    requires ClockOk(h)
  {
    match h
    case Some(v) => Some(ClockOf(v))
    case None => None
  }

  /** The path durable.last_commit_hlc or outcome.last_commit_hlc. */
  function NestedHlc(t: Tree, k: string): Option<Tree> {
    match Find(t, k, AnObject)
    case Some(v) => HlcAt(v)
    case None => None
  }

  /** durable.last_commit_hlc, else outcome.last_commit_hlc, else last_commit_hlc, else none. */
  function PathHlc(t: Tree): Option<Tree> {
    if NestedHlc(t, "durable").Some? then NestedHlc(t, "durable")
    else if NestedHlc(t, "outcome").Some? then NestedHlc(t, "outcome")
    else HlcAt(t)
  }

  // ---- The parsers find it ----

  lemma PartField(json: string, k: string, cast: Cast)
    requires IsObject(json) && Parse(json).value.members != []
    requires IsClockPart(Parse(json).value, k)
    ensures var f := IntField(json, k, 0, cast);
            f.0 && ToUint32(f.1) == ClockPart(Parse(json).value, k)
  {
    hide Find, Parse, IntField, ToInt, IsPlain, PlainValue;
    IntFieldIsFind(json, k, 0, cast);
    match Find(Parse(json).value, k, ANumber) {
      case Some(v) => SmallIsExact(v.x, cast);
      case None =>
    }
  }

  /** A uint32 passes unchanged through strtod and the casts. */
  lemma SmallIsExact(x: string, cast: Cast)
    requires IsPlain(x) && 0 <= PlainValue(x) < 0x1_0000_0000
    ensures ToInt(x, cast) == PlainValue(x) && ToUint32(PlainValue(x)) == PlainValue(x)
  {
    hide Binary64, IsPlain, PlainValue;
    Binary64Exact(PlainValue(x));
  }

  lemma HlcFromClock(json: string, cast: Cast)
    requires IsObject(json) && IsClock(Parse(json).value)
    ensures HlcFrom(json, cast) == Some(ClockOf(Parse(json).value))
  {
    hide Find, Name, Parse, IntField, UintField, NatValue, IsClockPart, ClockPart;
    NamesAre();
    var h := Parse(json).value;
    EmptyHasNone(json, "physical_micros", AUnsigned);
    UintFieldIsFind(json, "physical_micros", 0);
    PartField(json, "logical", cast);
    PartField(json, "node_tiebreaker", cast);
  }

  /** parse_commit_hlc on an absent member: the scratch text is empty, so there is no clock. */
  lemma NoBodyNoClock(cast: Cast)
    ensures HlcFrom("", cast) == None
  {
    hide IntField, Name;
    NamesAre();
  }

  lemma MemberClock(json: string, cast: Cast)
    requires IsObject(json) && ClockOk(HlcAt(Parse(json).value))
    ensures HlcMember(json, cast) == Clock(HlcAt(Parse(json).value))
  {
    hide Find, Name, Parse, HlcFrom, IsClock, ClockOf, Text, RawField;
    NamesAre();
    RawFieldIsFind(json, "last_commit_hlc", AnObject, "");
    EmptyHasNone(json, "last_commit_hlc", AnObject);
    match HlcAt(Parse(json).value) {
      case Some(h) => HlcFromClock(Text(h), cast);
      case None => NoBodyNoClock(cast);
    }
  }

  lemma DurableClock(json: string, cast: Cast)
    requires IsObject(json) && ClockOk(HlcAt(Parse(json).value))
    ensures DurableFrom(json, cast).progress.lastCommitHlc == Clock(HlcAt(Parse(json).value))
  {
    hide Name, HlcMember, StringField, BoolField, IntField, UintField, Find, ClockOk, Clock;
    NamesAre();
    assert json != "";
    MemberClock(json, cast);
  }

  /** The outcome's clock, read from its own text or, when it is absent, from none. */
  lemma OutcomeClock(json: string, cast: Cast)
    requires IsObject(json) && ClockOk(NestedHlc(Parse(json).value, "outcome"))
    ensures OutcomeFrom(json, cast).progress.lastCommitHlc == Clock(NestedHlc(Parse(json).value, "outcome"))
  {
    hide Name, Find, Parse, Text, RawField, IsClock, ClockOf, ProgressFrom, StringField;
    NamesAre();
    var key := "outcome";
    RawFieldIsFind(json, key, AnObject, "");
    EmptyHasNone(json, key, AnObject);
    match Find(Parse(json).value, key, AnObject) {
      case Some(v) => DurableClock(Text(v), cast);
      case None =>
    }
  }

  /** An absent durable is decoded from the outcome's text, so it carries the outcome's clock. */
  lemma DurableOrOutcomeClock(json: string, cast: Cast)
    requires IsObject(json)
    requires ClockOk(NestedHlc(Parse(json).value, "outcome")) && ClockOk(NestedHlc(Parse(json).value, "durable"))
    ensures var t, d := Parse(json).value, NestedFrom(json, cast);
            && d.Some? == (t.members != [])
            && (d.Some? ==> d.value.progress.lastCommitHlc ==
                            (if Find(t, "durable", AnObject).Some? then Clock(NestedHlc(t, "durable"))
                             else Clock(NestedHlc(t, "outcome"))))
  {
    hide Name, Find, Parse, Text, RawField, IsClock, ClockOf, ProgressFrom, StringField, HlcAt;
    NamesAre();
    var t := Parse(json).value;
    var o := RawField(json, "outcome", AnObject, "");
    RawFieldIsFind(json, "outcome", AnObject, "");
    RawFieldIsFind(json, "durable", AnObject, o.1);
    EmptyHasNone(json, "durable", AnObject);
    if Find(t, "durable", AnObject).Some? {
      DurableClock(Text(Find(t, "durable", AnObject).value), cast);
    } else if Find(t, "outcome", AnObject).Some? {
      DurableClock(Text(Find(t, "outcome", AnObject).value), cast);
    }
  }

  /**
   commit_hlc() is a path lookup. For every status body that starts with an object, whatever
   its layout, member order and other members, whose clock objects are well formed, the
   decoded status reports the clock at durable.last_commit_hlc, else at
   outcome.last_commit_hlc, else at last_commit_hlc, else none; although every getter
   returns true on absent members and the scratch text is reused.
   */
  lemma CommitHlcIsPathLookup(json: string, cast: Cast)
    requires IsObject(json)
    requires var t := Parse(json).value;
             ClockOk(HlcAt(t)) && ClockOk(NestedHlc(t, "outcome")) && ClockOk(NestedHlc(t, "durable"))
    ensures StatusFrom(json, cast).AuthoritativeHlc() == Clock(PathHlc(Parse(json).value))
  {
    hide Name, Find, Parse, RawField, HlcMember, HlcAt, IsClock, ClockOf, StringField, BoolField, IntField, UintField,
         OutcomeFrom, NestedFrom, LabelsFrom, LastLabel;
    NamesAre();
    MemberClock(json, cast);
    OutcomeClock(json, cast);
    DurableOrOutcomeClock(json, cast);
    assert StatusFrom(json, cast).progress.lastCommitHlc == HlcMember(json, cast);
    EmptyHasNone(json, "durable", AnObject);
    EmptyHasNone(json, "outcome", AnObject);
  }

  // ---- Fields that share a scratch variable ----

  /** The last of the given members, in that order, that is present as a string; "" if none is. */
  function LastPresent(t: Tree, keys: seq<string>): string {
    if keys == [] then "" else StringIn(t, keys[|keys| - 1], LastPresent(t, keys[..|keys| - 1]))
  }

  lemma LastPresentStep(t: Tree, keys: seq<string>, k: string)
    ensures LastPresent(t, keys + [k]) == StringIn(t, k, LastPresent(t, keys))
  {
    hide StringIn;
    assert (keys + [k])[..|keys|] == keys;
  }

  /**
   String fields are right only when present. On a non-empty status object the labels are
   not looked up one by one: each is the last member present among those read so far, so
   an absent one takes the text of an earlier field, and optional ones are always set.
   */
  lemma LabelsAreLastPresent(json: string)
    requires IsObject(json) && Parse(json).value.members != []
    ensures var t, l := Parse(json).value, LabelsFrom(json);
            && l.queryId == LastPresent(t, ["query_id"])
            && l.status == LastPresent(t, ["query_id", "status"])
            && l.state == LastPresent(t, ["query_id", "status", "state"])
            && l.serverState == LastPresent(t, ["query_id", "status", "state", "server_state"])
            && l.terminalState
               == Some(LastPresent(t, ["query_id", "status", "state", "server_state", "terminal_state"]))
  {
    hide StringIn, Name, Parse, StringField, LastPresent;
    NamesAre();
    var t := Parse(json).value;
    LastPresentStart(t);
    LastPresentStep(t, [], "query_id");
    LastPresentStep(t, ["query_id"], "status");
    LastPresentStep(t, ["query_id", "status"], "state");
    LastPresentStep(t, ["query_id", "status", "state"], "server_state");
    LastPresentStep(t, ["query_id", "status", "state", "server_state"], "terminal_state");
    var s0 := LastPresent(t, []);
    var s1 := StringIn(t, "query_id", s0);
    var s2 := StringIn(t, "status", s1);
    var s3 := StringIn(t, "state", s2);
    StringFieldIsFind(json, "query_id", s0);
    StringFieldIsFind(json, "status", s1);
    StringFieldIsFind(json, "state", s2);
    StringFieldIsFind(json, "server_state", s3);
    StringFieldIsFind(json, "terminal_state", StringIn(t, "server_state", s3));
    assert [] + ["query_id"] == ["query_id"];
    assert ["query_id"] + ["status"] == ["query_id", "status"];
    assert ["query_id", "status"] + ["state"] == ["query_id", "status", "state"];
    assert ["query_id", "status", "state"] + ["server_state"] == ["query_id", "status", "state", "server_state"];
    assert ["query_id", "status", "state", "server_state"] + ["terminal_state"]
           == ["query_id", "status", "state", "server_state", "terminal_state"];
  }

  lemma LastPresentStart(t: Tree)
    ensures LastPresent(t, []) == ""
  {}

  /**
   retryable is wrong exactly when it is absent from a body whose committed is true: the
   scratch flag of committed shows through.
   */
  lemma RetryableIsRightUnlessAbsent(json: string, cast: Cast)
    requires IsObject(json) && Parse(json).value.members != []
    requires var c := Find(Parse(json).value, "committed", ABool); c.Some? ==> IsKeyword(c.value)
    requires var r := Find(Parse(json).value, "retryable", ABool); r.Some? ==> IsKeyword(r.value)
    ensures var t := Parse(json).value;
            StatusFrom(json, cast).retryable == BoolIn(t, "retryable", false) <==>
            !(Find(t, "retryable", ABool).None? && BoolIn(t, "committed", false))
  {
    hide Name, Find, Parse, StringField, IntField, UintField, RawField, OutcomeFrom, NestedFrom, LabelsFrom,
         LastLabel, ProgressFrom, BoolField;
    NamesAre();
    var t := Parse(json).value;
    BoolFieldIsFind(json, "committed", false);
    BoolFieldIsFind(json, "retryable", BoolIn(t, "committed", false));
  }

  // ---- Any bytes ----

  /** What get_string leaves in the shared scratch variable after the keys have been asked for in order. */
  function Scratch(json: string, keys: seq<string>): string {
    if keys == [] then ""
    else StringField(json, keys[|keys| - 1], Scratch(json, keys[..|keys| - 1])).1
  }

  /** The text of the last key, if get_string succeeds on it. */
  function Asked(json: string, keys: seq<string>): Option<string>
    requires keys != []
  {
    var f := StringField(json, keys[|keys| - 1], Scratch(json, keys[..|keys| - 1]));
    if f.0 then Some(f.1) else None
  }

  function OrElse(x: Option<string>, other: string): string {
    match x
    case Some(v) => v
    case None => other
  }

  lemma ScratchStep(json: string, keys: seq<string>, k: string)
    ensures Scratch(json, keys + [k]) == StringField(json, k, Scratch(json, keys)).1
    ensures Asked(json, keys + [k]) == When(StringField(json, k, Scratch(json, keys)))
  {
    hide StringField;
    assert (keys + [k])[..|keys|] == keys;
  }

  lemma ScratchStart(json: string)
    ensures Scratch(json, []) == ""
  {}

  /** The labels of any body: one scratch variable, and nothing from a getter that fails. */
  lemma LabelsOnAnyBytes(json: string)
    ensures var l := LabelsFrom(json);
            && l.queryId == OrElse(Asked(json, ["query_id"]), "")
            && l.status == OrElse(Asked(json, ["query_id", "status"]), "")
            && l.state == OrElse(Asked(json, ["query_id", "status", "state"]), "")
            && l.serverState == OrElse(Asked(json, ["query_id", "status", "state", "server_state"]), l.state)
            && l.terminalState == Asked(json, ["query_id", "status", "state", "server_state", "terminal_state"])
    ensures LastLabel(json).1
            == Scratch(json, ["query_id", "status", "state", "server_state", "terminal_state"])
  {
    hide Name, StringField, Scratch, Asked;
    NamesAre();
    ScratchStart(json);
    ScratchStep(json, [], "query_id");
    ScratchStep(json, ["query_id"], "status");
    ScratchStep(json, ["query_id", "status"], "state");
    ScratchStep(json, ["query_id", "status", "state"], "server_state");
    ScratchStep(json, ["query_id", "status", "state", "server_state"], "terminal_state");
    assert [] + ["query_id"] == ["query_id"];
    assert ["query_id"] + ["status"] == ["query_id", "status"];
    assert ["query_id", "status"] + ["state"] == ["query_id", "status", "state"];
    assert ["query_id", "status", "state"] + ["server_state"] == ["query_id", "status", "state", "server_state"];
    assert ["query_id", "status", "state", "server_state"] + ["terminal_state"]
           == ["query_id", "status", "state", "server_state", "terminal_state"];
  }

  /** The texts of an outcome of any bytes. */
  lemma OutcomeOnAnyBytes(json: string, cast: Cast)
    ensures var o := DurableFrom(json, cast);
            if json == "" then o == NO_OUTCOME
            else
              && o.progress == ProgressFrom(json, "", cast)
              && o.serialization == OrElse(Asked(json, ["last_commit_epoch_text", "serialization"]), "")
              && o.serializationState
                 == Asked(json, ["last_commit_epoch_text", "serialization", "serialization_state"])
              && o.terminalState
                 == Asked(json, ["last_commit_epoch_text", "serialization", "serialization_state", "terminal_state"])
  {
    hide Name, StringField, Scratch, Asked, ProgressFrom;
    NamesAre();
    ScratchStart(json);
    ScratchStep(json, [], "last_commit_epoch_text");
    ScratchStep(json, ["last_commit_epoch_text"], "serialization");
    ScratchStep(json, ["last_commit_epoch_text", "serialization"], "serialization_state");
    ScratchStep(json, ["last_commit_epoch_text", "serialization", "serialization_state"], "terminal_state");
    assert [] + ["last_commit_epoch_text"] == ["last_commit_epoch_text"];
    assert ["last_commit_epoch_text"] + ["serialization"] == ["last_commit_epoch_text", "serialization"];
    assert ["last_commit_epoch_text", "serialization"] + ["serialization_state"]
           == ["last_commit_epoch_text", "serialization", "serialization_state"];
    assert ["last_commit_epoch_text", "serialization", "serialization_state"] + ["terminal_state"]
           == ["last_commit_epoch_text", "serialization", "serialization_state", "terminal_state"];
  }

  /** A number or flag is set exactly if its getter succeeds, to what it writes. */
  lemma ProgressOnAnyBytes(json: string, scratch: string, cast: Cast)
    ensures var p := ProgressFrom(json, scratch, cast);
            && IsWritten(p.committed, BoolField(json, "committed", false))
            && IsWritten(p.committedStatements, IntField(json, "committed_statements", 0, cast))
            && IsWritten(p.lastCommitEpoch, UintField(json, "last_commit_epoch", 0))
            && IsWritten(p.lastCommitEpochText, StringField(json, "last_commit_epoch_text", scratch))
            && IsWritten(p.firstCommitStatementIndex, IntField(json, "first_commit_statement_index", 0, cast))
            && IsWritten(p.lastCommitStatementIndex, IntField(json, "last_commit_statement_index", 0, cast))
            && IsWritten(p.completedStatements, IntField(json, "completed_statements", 0, cast))
            && IsWritten(p.statementIndex, IntField(json, "statement_index", 0, cast))
            && (p.lastCommitHlc.Some? <==>
                  var h := RawField(json, "last_commit_hlc", AnObject, "");
                  h.0 && UintField(h.1, "physical_micros", 0).0)
            && (p.lastCommitHlc.Some? ==>
                  var h := RawField(json, "last_commit_hlc", AnObject, "").1;
                  && p.lastCommitHlc.value.physicalMicros == UintField(h, "physical_micros", 0).1
                  && IsPart(p.lastCommitHlc.value.logical, IntField(h, "logical", 0, cast))
                  && IsPart(p.lastCommitHlc.value.nodeTiebreaker, IntField(h, "node_tiebreaker", 0, cast)))
  {
    hide Name, StringField, BoolField, IntField, UintField, RawField;
    NamesAre();
  }

  /** The rest of a status of any bytes; retryable and durable reuse what committed and outcome left behind. */
  lemma StatusOnAnyBytes(json: string, cast: Cast)
    ensures var st := StatusFrom(json, cast);
            var texts := ["query_id", "status", "state", "server_state", "terminal_state"];
            var retryable := BoolField(json, "retryable", BoolField(json, "committed", false).1);
            var outcome := RawField(json, "outcome", AnObject, "");
            var durable := RawField(json, "durable", AnObject, outcome.1);
            && st.labels == LabelsFrom(json)
            && st.progress == ProgressFrom(json, Scratch(json, texts), cast)
            && st.cancelOutcome == Asked(json, texts + ["last_commit_epoch_text"] + ["cancel_outcome"])
            && st.cancellationReason
               == OrElse(
                    Asked(json, texts + ["last_commit_epoch_text"] + ["cancel_outcome"] + ["cancellation_reason"]), "")
            && (st.retryable <==> retryable == (true, true))
            && (outcome.0 ==> st.outcome == DurableFrom(outcome.1, cast))
            && (!outcome.0 ==> st.outcome == NO_OUTCOME)
            && (durable.0 ==> st.durable == Some(DurableFrom(durable.1, cast)))
            && (!durable.0 ==> st.durable == None)
            && st.rawJson == json
  {
    hide Name, StringField, BoolField, RawField, LabelsFrom, LastLabel, ProgressFrom, DurableFrom, Scratch, Asked;
    NamesAre();
    var texts := ["query_id", "status", "state", "server_state", "terminal_state"];
    LabelsOnAnyBytes(json);
    ScratchStep(json, texts, "last_commit_epoch_text");
    ScratchStep(json, texts + ["last_commit_epoch_text"], "cancel_outcome");
    ScratchStep(json, texts + ["last_commit_epoch_text"] + ["cancel_outcome"], "cancellation_reason");
  }

  predicate IsWritten<T(==)>(v: Option<T>, field: (bool, T)) {
    (v.Some? <==> field.0) && (field.0 ==> v == Some(field.1))
  }

  /** The cast to uint32 keeps the lowest 32 bits; a getter that fails leaves 0. */
  predicate IsPart(n: uint32, field: (bool, int64)) {
    if field.0 then (field.1 - n) % 0x1_0000_0000 == 0 else n == 0
  }
}
