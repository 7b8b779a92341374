/**
 Decoding of query status bodies (durable recovery). The parsers compose getters over
 extracted substrings and reuse their scratch variables; `cast` is the C library's
 conversion of number lexemes that are not plain integers (see Lookup.ToInt).
 */
module Status {
  import opened Bytes
  import opened Numbers
  import opened Lookup

  /** The member names the parsers look for. */
  datatype StatusKey =
    | KCommitted
    | KCommittedStatements
    | KLastCommitEpoch
    | KLastCommitEpochText
    | KLastCommitHlc
    | KFirstCommitStatementIndex
    | KLastCommitStatementIndex
    | KCompletedStatements
    | KStatementIndex
    | KSerialization
    | KSerializationState
    | KTerminalState
    | KQueryId
    | KStatus
    | KState
    | KServerState
    | KCancelOutcome
    | KCancellationReason
    | KRetryable
    | KOutcome
    | KDurable
    | KPhysicalMicros
    | KLogical
    | KNodeTiebreaker

  function Name(k: StatusKey): string {
    match k
    case KCommitted => "committed"
    case KCommittedStatements => "committed_statements"
    case KLastCommitEpoch => "last_commit_epoch"
    case KLastCommitEpochText => "last_commit_epoch_text"
    case KLastCommitHlc => "last_commit_hlc"
    case KFirstCommitStatementIndex => "first_commit_statement_index"
    case KLastCommitStatementIndex => "last_commit_statement_index"
    case KCompletedStatements => "completed_statements"
    case KStatementIndex => "statement_index"
    case KSerialization => "serialization"
    case KSerializationState => "serialization_state"
    case KTerminalState => "terminal_state"
    case KQueryId => "query_id"
    case KStatus => "status"
    case KState => "state"
    case KServerState => "server_state"
    case KCancelOutcome => "cancel_outcome"
    case KCancellationReason => "cancellation_reason"
    case KRetryable => "retryable"
    case KOutcome => "outcome"
    case KDurable => "durable"
    case KPhysicalMicros => "physical_micros"
    case KLogical => "logical"
    case KNodeTiebreaker => "node_tiebreaker"
  }

  datatype CommitHlc = CommitHlc(physicalMicros: uint64, logical: uint32, nodeTiebreaker: uint32)

  /** The nine fields that DurableOutcome and QueryStatus share, parsed by the same code. */
  datatype Progress = Progress(
    committed: Option<bool>,
    committedStatements: Option<int64>,
    lastCommitEpoch: Option<uint64>,
    lastCommitEpochText: Option<string>,
    lastCommitHlc: Option<CommitHlc>,
    firstCommitStatementIndex: Option<int64>,
    lastCommitStatementIndex: Option<int64>,
    completedStatements: Option<int64>,
    statementIndex: Option<int64>)

  datatype DurableOutcome = DurableOutcome(
    progress: Progress,
    serialization: string,
    serializationState: Option<string>,
    terminalState: Option<string>)

  /** The first five fields of QueryStatus. */
  datatype Labels = Labels(
    queryId: string,
    status: string,
    state: string,
    serverState: string,
    terminalState: Option<string>)

  datatype QueryStatus = QueryStatus(
    labels: Labels,
    progress: Progress,
    cancelOutcome: Option<string>,
    cancellationReason: string,
    retryable: bool,
    outcome: DurableOutcome,
    durable: Option<DurableOutcome>,
    rawJson: string)
  {
    /** The authoritative clock: nested durable, then outcome, then top level. */
    function AuthoritativeHlc(): Option<CommitHlc> {
      if durable.Some? && durable.value.progress.lastCommitHlc.Some? then durable.value.progress.lastCommitHlc
      else if outcome.progress.lastCommitHlc.Some? then outcome.progress.lastCommitHlc
      else progress.lastCommitHlc
    }
  }

  const NO_PROGRESS: Progress := Progress(None, None, None, None, None, None, None, None, None)
  const NO_OUTCOME: DurableOutcome := DurableOutcome(NO_PROGRESS, "", None, None)

  type Cast = string -> int64

  function ToUint32(n: int64): uint32 { n % 0x1_0000_0000 }

  function When<T>(field: (bool, T)): Option<T> {
    if field.0 then Some(field.1) else None
  }

  /** An optional field after "if the getter returned true, assign it". */
  function Set<T>(found: bool, v: T): Option<T> {
    if found then Some(v) else None
  }

  // ---- The parsers, as functions of the body ----

  function HlcFrom(json: string, cast: Cast): Option<CommitHlc> {
    var phys := UintField(json, Name(KPhysicalMicros), 0);
    if !phys.0 then None
    else
      var logical := IntField(json, Name(KLogical), 0, cast);
      var tie := IntField(json, Name(KNodeTiebreaker), 0, cast);
      Some(CommitHlc(
             phys.1,
             if logical.0 then ToUint32(logical.1) else 0,
             if tie.0 then ToUint32(tie.1) else 0))
  }

  function HlcMember(json: string, cast: Cast): Option<CommitHlc> {
    var raw := RawField(json, Name(KLastCommitHlc), AnObject, "");
    if raw.0 then HlcFrom(raw.1, cast) else None
  }

  /** The shared fields; s is the string scratch variable as the code before left it. */
  function ProgressFrom(json: string, s: string, cast: Cast): Progress {
    Progress(
      When(BoolField(json, Name(KCommitted), false)),
      When(IntField(json, Name(KCommittedStatements), 0, cast)),
      When(UintField(json, Name(KLastCommitEpoch), 0)),
      When(StringField(json, Name(KLastCommitEpochText), s)),
      HlcMember(json, cast),
      When(IntField(json, Name(KFirstCommitStatementIndex), 0, cast)),
      When(IntField(json, Name(KLastCommitStatementIndex), 0, cast)),
      When(IntField(json, Name(KCompletedStatements), 0, cast)),
      When(IntField(json, Name(KStatementIndex), 0, cast)))
  }

  function DurableFrom(json: string, cast: Cast): DurableOutcome {
    if json == "" then NO_OUTCOME
    else
      var text := StringField(json, Name(KLastCommitEpochText), "");
      var serialization := StringField(json, Name(KSerialization), text.1);
      var state := StringField(json, Name(KSerializationState), serialization.1);
      var terminal := StringField(json, Name(KTerminalState), state.1);
      DurableOutcome(ProgressFrom(json, "", cast), StringOr(serialization, ""), When(state), When(terminal))
  }

  function StringOr(field: (bool, string), other: string): string {
    if field.0 then field.1 else other
  }

  function LabelsFrom(json: string): Labels {
    var id := StringField(json, Name(KQueryId), "");
    var status := StringField(json, Name(KStatus), id.1);
    var state := StringField(json, Name(KState), status.1);
    var server := StringField(json, Name(KServerState), state.1);
    Labels(StringOr(id, ""), StringOr(status, ""), StringOr(state, ""),
           StringOr(server, StringOr(state, "")), When(LastLabel(json)))
  }

  /** The last of the five get_string calls, which share one scratch variable. */
  function LastLabel(json: string): (bool, string) {
    var id := StringField(json, Name(KQueryId), "");
    var status := StringField(json, Name(KStatus), id.1);
    var state := StringField(json, Name(KState), status.1);
    var server := StringField(json, Name(KServerState), state.1);
    StringField(json, Name(KTerminalState), server.1)
  }

  function StatusFrom(json: string, cast: Cast): QueryStatus {
    var text := StringField(json, Name(KLastCommitEpochText), LastLabel(json).1);
    var cancel := StringField(json, Name(KCancelOutcome), text.1);
    var reason := StringField(json, Name(KCancellationReason), cancel.1);
    var retryable := BoolField(json, Name(KRetryable), BoolField(json, Name(KCommitted), false).1);
    QueryStatus(
      LabelsFrom(json),
      ProgressFrom(json, LastLabel(json).1, cast),
      When(cancel),
      StringOr(reason, ""),
      retryable.0 && retryable.1,
      OutcomeFrom(json, cast),
      NestedFrom(json, cast),
      json)
  }

  function OutcomeFrom(json: string, cast: Cast): DurableOutcome {
    var outcome := RawField(json, Name(KOutcome), AnObject, "");
    if outcome.0 then DurableFrom(outcome.1, cast) else NO_OUTCOME
  }

  function NestedFrom(json: string, cast: Cast): Option<DurableOutcome> {
    var outcome := RawField(json, Name(KOutcome), AnObject, "");
    var durable := RawField(json, Name(KDurable), AnObject, outcome.1);
    if durable.0 then Some(DurableFrom(durable.1, cast)) else None
  }

  // ---- The parsers ----

  method ParseCommitHlc(json: string, cast: Cast) returns (hlc: Option<CommitHlc>)
    ensures hlc == HlcFrom(json, cast)
  {
    var found, phys := GetUint64(json, Name(KPhysicalMicros), 0);
    if !found {
      return None;
    }
    var clock := CommitHlc(phys, 0, 0);
    var logical, tie: int64 := 0, 0;
    found, logical := GetInt(json, Name(KLogical), logical, cast);
    if found {
      clock := clock.(logical := ToUint32(logical));
    }
    found, tie := GetInt(json, Name(KNodeTiebreaker), tie, cast);
    if found {
      clock := clock.(nodeTiebreaker := ToUint32(tie));
    }
    return Some(clock);
  }

  /** An int64 scratch variable never matters: every get_int that succeeds overwrites it. */
  lemma IntScratch(json: string, key: string, a: int64, b: int64, cast: Cast)
    ensures When(IntField(json, key, a, cast)) == When(IntField(json, key, b, cast))
  {}

  /** The shared part of both parsers, with the scratch variables it reuses. */
  method ParseProgress(json: string, scratch: string, cast: Cast) returns (p: Progress, s: string, b: bool)
    ensures p == ProgressFrom(json, scratch, cast)
    ensures s == StringField(json, Name(KLastCommitEpochText), scratch).1
    ensures b == BoolField(json, Name(KCommitted), false).1
  {
    hide Name, StringField, BoolField, IntField, UintField, RawField, HlcFrom;
    s := scratch;
    var found, hlcRaw, hlc := false, "", None;
    var n: int64, u: uint64 := 0, 0;
    found, b := GetBool(json, Name(KCommitted), false);
    var committed := Set(found, b);
    found, n := GetInt(json, Name(KCommittedStatements), n, cast);
    var committedStatements := Set(found, n);
    found, u := GetUint64(json, Name(KLastCommitEpoch), u);
    var lastCommitEpoch := Set(found, u);
    found, s := GetString(json, Name(KLastCommitEpochText), s);
    var lastCommitEpochText := Set(found, s);
    found, hlcRaw := GetRaw(json, Name(KLastCommitHlc), AnObject, hlcRaw);
    if found {
      hlc := ParseCommitHlc(hlcRaw, cast);
    }
    IntScratch(json, Name(KFirstCommitStatementIndex), n, 0, cast);
    found, n := GetInt(json, Name(KFirstCommitStatementIndex), n, cast);
    var firstIndex := Set(found, n);
    IntScratch(json, Name(KLastCommitStatementIndex), n, 0, cast);
    found, n := GetInt(json, Name(KLastCommitStatementIndex), n, cast);
    var lastIndex := Set(found, n);
    IntScratch(json, Name(KCompletedStatements), n, 0, cast);
    found, n := GetInt(json, Name(KCompletedStatements), n, cast);
    var completed := Set(found, n);
    IntScratch(json, Name(KStatementIndex), n, 0, cast);
    found, n := GetInt(json, Name(KStatementIndex), n, cast);
    p := Progress(committed, committedStatements, lastCommitEpoch, lastCommitEpochText, hlc,
                  firstIndex, lastIndex, completed, Set(found, n));
  }

  method ParseDurableOutcome(json: string, cast: Cast) returns (out: DurableOutcome)
    ensures out == DurableFrom(json, cast)
  {
    hide Name, StringField, ProgressFrom;
    out := NO_OUTCOME;
    if json == "" {
      return out;
    }
    var found;
    var p, s, b := ParseProgress(json, "", cast);
    out := out.(progress := p);
    found, s := GetString(json, Name(KSerialization), s);
    if found {
      out := out.(serialization := s);
    }
    found, s := GetString(json, Name(KSerializationState), s);
    out := out.(serializationState := Set(found, s));
    found, s := GetString(json, Name(KTerminalState), s);
    out := out.(terminalState := Set(found, s));
  }

  /** The nested outcomes, read through one scratch variable: an absent durable gets the outcome's text. */
  method ParseOutcomes(json: string, cast: Cast) returns (outcome: DurableOutcome, durable: Option<DurableOutcome>)
    ensures outcome == OutcomeFrom(json, cast) && durable == NestedFrom(json, cast)
  {
    hide Name, RawField, DurableFrom;
    outcome, durable := NO_OUTCOME, None;
    var found, obj := false, "";
    found, obj := GetRaw(json, Name(KOutcome), AnObject, obj);
    if found {
      outcome := ParseDurableOutcome(obj, cast);
    }
    found, obj := GetRaw(json, Name(KDurable), AnObject, obj);
    if found {
      var d := ParseDurableOutcome(obj, cast);
      durable := Some(d);
    }
  }

  /** The five labels read first, and the string scratch variable after them. */
  method ParseLabels(json: string) returns (labels: Labels, s: string)
    ensures labels == LabelsFrom(json) && s == LastLabel(json).1
  {
    hide Name, StringField;
    var found;
    s := "";
    found, s := GetString(json, Name(KQueryId), s);
    var queryId := if found then s else "";
    found, s := GetString(json, Name(KStatus), s);
    var status := if found then s else "";
    found, s := GetString(json, Name(KState), s);
    var state := if found then s else "";
    found, s := GetString(json, Name(KServerState), s);
    var serverState := if found then s else state;
    found, s := GetString(json, Name(KTerminalState), s);
    labels := Labels(queryId, status, state, serverState, Set(found, s));
  }

  method ParseQueryStatus(json: string, cast: Cast) returns (st: QueryStatus)
    ensures st == StatusFrom(json, cast)
  {
    hide Name, StringField, BoolField, RawField, ProgressFrom, OutcomeFrom, NestedFrom, LabelsFrom, LastLabel;
    var found, p, b;
    var labels, s := ParseLabels(json);
    p, s, b := ParseProgress(json, s, cast);
    found, s := GetString(json, Name(KCancelOutcome), s);
    var cancelOutcome := Set(found, s);
    found, s := GetString(json, Name(KCancellationReason), s);
    var cancellationReason := if found then s else "";
    found, b := GetBool(json, Name(KRetryable), b);
    var outcome, durable := ParseOutcomes(json, cast);
    st := QueryStatus(labels, p, cancelOutcome, cancellationReason, found && b, outcome, durable, json);
  }
}
