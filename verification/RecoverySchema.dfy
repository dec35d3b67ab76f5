/**
 The thirty data types the recovery codec admits, field by field, in the order their
 classes declare them: a well-formed schema with four roots.
 */
module RecoverySchema {
  import opened Wrappers
  import opened RecoveryCodec
  import opened CodecProperties

  function Optional(t: Type): Type {
    TUnion([t, TNone])
  }

  /** A union of data types. */
  function OneOf(names: seq<string>): Type {
    TUnion(seq(|names|, i requires 0 <= i < |names| => TData(names[i])))
  }

  const BACKEND_KIND := TEnum("BackendKind", {
    "self_managed", "mediated"})
  const OWNER_EVIDENCE_KIND := TEnum("OwnerEvidenceKind", {
    "verified_signer", "authenticated_mediator"})
  const CREATE_OUTCOME_KIND := TEnum("CreateOutcomeKind", {
    "rejected_before_send", "fallback_safe", "committed", "unknown"})
  const OUTCOME_REASON_CODE := TEnum("OutcomeReasonCode", {
    "intent_rejected", "signing_rejected", "mediator_rejected", "submission_proven_absent",
    "deployment_proven_absent", "transaction_event_bound", "exact_chain_read_bound", "broad_exception",
    "started_process_timeout", "http_read_timeout", "http_write_timeout", "transport_error", "response_lost",
    "backend_rotation", "provider_rotation", "reconciliation_incomplete"})
  const JOURNAL_STATE := TEnum("JournalState", {
    "prepared", "submitted", "rejected_before_send", "fallback_safe", "create_outcome_unknown", "created",
    "handoff_failed", "creator_rollback_requested", "execution_closed", "settlement"})
  const SETTLEMENT_STATE := TEnum("SettlementState", {
    "unmeasured", "unsettled", "settled"})
  const EXECUTION_CLOSURE_PROOF_MODE := TEnum("ExecutionClosureProofMode", {
    "exact_finalized_height"})
  const CENSUS_STATUS := TEnum("CensusStatus", {
    "verified", "incomplete", "unavailable"})
  const RESERVATION_STATE := TEnum("ReservationState", {
    "reserved", "submitting", "create_outcome_unknown", "non_commit_proven", "committed", "execution_closed",
    "settled"})

  const DEPLOYMENT_KEY: seq<FieldType> := [
    FieldType("owner", TString), FieldType("dseq", TString)]

  const BACKEND_IDENTITY: seq<FieldType> := [
    FieldType("kind", BACKEND_KIND), FieldType("identifier", TString), FieldType("schema_version", TInt)]

  const PRODUCER_PROVENANCE: seq<FieldType> := [
    FieldType("repository", TString), FieldType("repository_id", TString),
    FieldType("repository_owner_id", TString), FieldType("issuer", TString), FieldType("audience", TString),
    FieldType("subject", TString), FieldType("workflow_ref", TString), FieldType("workflow_sha", TString),
    FieldType("ref", TString), FieldType("jti", TString), FieldType("authentication_evidence_digest", TString),
    FieldType("schema_version", TInt)]

  const LIFECYCLE_IDENTITY: seq<FieldType> := [
    FieldType("repository", TString), FieldType("workload_class", TString), FieldType("run", Optional(TInt)),
    FieldType("run_attempt", Optional(TInt)), FieldType("release", Optional(TString)),
    FieldType("expires", Optional(TInt)), FieldType("schema_version", TInt)]

  const OWNER_CANDIDATE: seq<FieldType> := [
    FieldType("backend", TData("BackendIdentity")), FieldType("owner", TString),
    FieldType("evidence_kind", OWNER_EVIDENCE_KIND), FieldType("evidence_source", TString),
    FieldType("evidence_digest", TString), FieldType("schema_version", TInt)]

  const PREPARED_GROUP: seq<FieldType> := [
    FieldType("gseq", TInt), FieldType("group_name", TString)]

  const PREPARED_CREATE: seq<FieldType> := [
    FieldType("operation_id", TString), FieldType("operation_ordinal", TInt),
    FieldType("producer", TData("ProducerProvenance")), FieldType("lifecycle", TData("LifecycleIdentity")),
    FieldType("owner_candidate", TData("OwnerCandidate")), FieldType("request_digest", TString),
    FieldType("sdl_digest", TString), FieldType("groups", TTuple(TData("PreparedGroup"))),
    FieldType("group_population_digest", TString), FieldType("source_revision", TString),
    FieldType("prepared_at", TInt), FieldType("schema_version", TInt)]

  const SUBMISSION_EVIDENCE: seq<FieldType> := [
    FieldType("operation_id", TString), FieldType("backend", TData("BackendIdentity")),
    FieldType("submitted_request_digest", TString), FieldType("submitted_at", TInt),
    FieldType("evidence_source", TString), FieldType("evidence_digest", TString),
    FieldType("transaction_hash", Optional(TString)), FieldType("account_sequence", Optional(TInt)),
    FieldType("signed_bytes", Optional(TBytes)), FieldType("submission_token", Optional(TString)),
    FieldType("schema_version", TInt)]

  const REJECTION_EVIDENCE: seq<FieldType> := [
    FieldType("operation_id", TString), FieldType("backend", TData("BackendIdentity")),
    FieldType("before_send", TBool), FieldType("source", TString), FieldType("evidence_digest", TString),
    FieldType("observed_at", TInt)]

  const NON_COMMIT_EVIDENCE: seq<FieldType> := [
    FieldType("operation_id", TString), FieldType("backend", TData("BackendIdentity")),
    FieldType("submission_token", Optional(TString)), FieldType("transaction_hash", Optional(TString)),
    FieldType("exact_owner", TString), FieldType("group_population_digest", TString),
    FieldType("source_a", TString), FieldType("source_b", TString), FieldType("evidence_digest", TString),
    FieldType("observed_at", TInt)]

  const UNCERTAINTY_EVIDENCE: seq<FieldType> := [
    FieldType("operation_id", TString), FieldType("source", TString), FieldType("evidence_digest", TString),
    FieldType("observed_at", TInt), FieldType("response_dseq", Optional(TString))]

  const TRANSACTION_EVENT_EVIDENCE: seq<FieldType> := [
    FieldType("operation_id", TString), FieldType("subject", TData("DeploymentKey")),
    FieldType("transaction_hash", TString), FieldType("event_index", TInt), FieldType("block_height", TInt),
    FieldType("chain_id", TString), FieldType("group_population_digest", TString), FieldType("source", TString),
    FieldType("evidence_digest", TString)]

  const EXACT_CHAIN_READ_EVIDENCE: seq<FieldType> := [
    FieldType("operation_id", TString), FieldType("subject", TData("DeploymentKey")),
    FieldType("chain_id", TString), FieldType("block_height", TInt),
    FieldType("groups", TTuple(TData("PreparedGroup"))), FieldType("group_population_digest", TString),
    FieldType("source", TString), FieldType("evidence_digest", TString), FieldType("observed_at", TInt)]

  const BOUND_DEPLOYMENT: seq<FieldType> := [
    FieldType("operation_id", TString), FieldType("subject", TData("DeploymentKey")),
    FieldType("groups", TTuple(TData("PreparedGroup"))), FieldType("group_population_digest", TString),
    FieldType("binding_evidence", OneOf(["TransactionEventEvidence", "ExactChainReadEvidence"])),
    FieldType("schema_version", TInt)]

  const CREATE_OUTCOME: seq<FieldType> := [
    FieldType("operation_id", TString), FieldType("kind", CREATE_OUTCOME_KIND),
    FieldType("reason_code", OUTCOME_REASON_CODE), FieldType("rejection", Optional(TData("RejectionEvidence"))),
    FieldType("non_commit", Optional(TData("NonCommitEvidence"))),
    FieldType("uncertainty", Optional(TData("UncertaintyEvidence"))),
    FieldType("deployment", Optional(TData("BoundDeployment"))), FieldType("schema_version", TInt)]

  const HANDOFF_FAILURE: seq<FieldType> := [
    FieldType("operation_id", TString), FieldType("subject", TData("DeploymentKey")),
    FieldType("source", TString), FieldType("evidence_digest", TString), FieldType("observed_at", TInt)]

  const CREATOR_ROLLBACK_REQUEST: seq<FieldType> := [
    FieldType("operation_id", TString), FieldType("subject", TData("DeploymentKey")),
    FieldType("request_id", TString), FieldType("source", TString), FieldType("evidence_digest", TString),
    FieldType("requested_at", TInt)]

  const EXECUTION_CLOSURE: seq<FieldType> := [
    FieldType("operation_id", TString), FieldType("subject", TData("DeploymentKey")),
    FieldType("chain_id", TString), FieldType("proof_mode", EXECUTION_CLOSURE_PROOF_MODE),
    FieldType("source_a", TString), FieldType("source_b", TString), FieldType("operator_identity_a", TString),
    FieldType("operator_identity_b", TString), FieldType("trust_path_a", TString),
    FieldType("trust_path_b", TString), FieldType("operator_independence_verified", TBool),
    FieldType("source_a_height", TInt), FieldType("source_b_height", TInt),
    FieldType("common_finality_height", TInt), FieldType("close_transaction_height", TInt),
    FieldType("group_population_digest", TString), FieldType("lease_population_digest", TString),
    FieldType("evidence_digest", TString), FieldType("observed_at", TInt)]

  const SETTLEMENT_EVIDENCE: seq<FieldType> := [
    FieldType("operation_id", TString), FieldType("subject", TData("DeploymentKey")),
    FieldType("state", SETTLEMENT_STATE), FieldType("source_a", TString), FieldType("source_b", TString),
    FieldType("evidence_digest", TString), FieldType("observed_at", TInt)]

  const PAYLOADS := [
    "PreparedCreate", "SubmissionEvidence", "CreateOutcome", "HandoffFailure", "CreatorRollbackRequest",
    "ExecutionClosure", "SettlementEvidence"]

  const JOURNAL_ENTRY: seq<FieldType> := [
    FieldType("revision", TInt), FieldType("operation_id", TString), FieldType("state", JOURNAL_STATE),
    FieldType("payload", OneOf(PAYLOADS)),
    FieldType("recorded_at", TInt), FieldType("previous_entry_digest", Optional(TString)),
    FieldType("entry_digest", TString), FieldType("schema_version", TInt)]

  const CREATE_JOURNAL: seq<FieldType> := [
    FieldType("entries", TTuple(TData("JournalEntry"))), FieldType("schema_version", TInt)]

  const ADMISSION_SCOPE: seq<FieldType> := [
    FieldType("chain_id", TString), FieldType("owner", TString), FieldType("producer_issuer", TString),
    FieldType("repository_owner_id", TString), FieldType("repository_id", TString),
    FieldType("repository", TString), FieldType("workload_class", TString), FieldType("schema_version", TInt)]

  const OWNER_BUDGET_SCOPE: seq<FieldType> := [
    FieldType("chain_id", TString), FieldType("owner", TString), FieldType("schema_version", TInt)]

  const CONTAINMENT_LIMITS: seq<FieldType> := [
    FieldType("max_active_deployments", TInt), FieldType("max_unresolved_create_outcomes", TInt),
    FieldType("max_financial_exposure_uact", TInt), FieldType("exposure_policy_revision", TString),
    FieldType("admission_policy_revision", TString), FieldType("policy_reference", TString),
    FieldType("valid_until", TInt), FieldType("schema_version", TInt)]

  const CONTAINMENT_CENSUS: seq<FieldType> := [
    FieldType("active_deployments", TInt), FieldType("unresolved_create_outcomes", TInt),
    FieldType("financial_exposure_uact", TInt), FieldType("excluded_reservation_count", TInt),
    FieldType("excluded_reservation_population_digest", TString), FieldType("journal_status", CENSUS_STATUS),
    FieldType("recovery_reader_status", CENSUS_STATUS), FieldType("chain_status", CENSUS_STATUS),
    FieldType("accounting_status", CENSUS_STATUS), FieldType("observed_at", TInt),
    FieldType("valid_until", TInt), FieldType("evidence_digest", TString), FieldType("schema_version", TInt)]

  const SCOPE_BUDGET: seq<FieldType> := [
    FieldType("scope", OneOf(["OwnerBudgetScope", "AdmissionScope"])),
    FieldType("limits", TData("ContainmentLimits")), FieldType("census", TData("ContainmentCensus")),
    FieldType("schema_version", TInt)]

  const CREATE_EXPOSURE_EVIDENCE: seq<FieldType> := [
    FieldType("chain_id", TString), FieldType("operation_id", TString),
    FieldType("prepared_operation_digest", TString), FieldType("request_digest", TString),
    FieldType("sdl_digest", TString), FieldType("backend", TData("BackendIdentity")),
    FieldType("backend_policy_revision", TString), FieldType("amount_uact", TInt), FieldType("source", TString),
    FieldType("evidence_digest", TString), FieldType("observed_at", TInt), FieldType("valid_until", TInt),
    FieldType("schema_version", TInt)]

  const ADMISSION_REQUEST: seq<FieldType> := [
    FieldType("prepared", TData("PreparedCreate")), FieldType("scope", TData("AdmissionScope")),
    FieldType("exposure", TData("CreateExposureEvidence")), FieldType("requested_at", TInt),
    FieldType("schema_version", TInt)]

  const CAPACITY_RESERVATION: seq<FieldType> := [
    FieldType("request", TData("AdmissionRequest")), FieldType("state", RESERVATION_STATE),
    FieldType("state_evidence_digest", TString),
    FieldType("bound_deployment", Optional(TData("BoundDeployment"))), FieldType("schema_version", TInt)]

  const ADMISSION_STATE: seq<FieldType> := [
    FieldType("budgets", TTuple(TData("ScopeBudget"))),
    FieldType("reservations", TTuple(TData("CapacityReservation"))), FieldType("revision", TInt),
    FieldType("schema_version", TInt)]

  const RECOVERABLE: set<string> := {
    "DeploymentKey", "BackendIdentity", "ProducerProvenance", "LifecycleIdentity", "OwnerCandidate",
    "PreparedGroup", "PreparedCreate", "SubmissionEvidence", "RejectionEvidence", "NonCommitEvidence",
    "UncertaintyEvidence", "TransactionEventEvidence", "ExactChainReadEvidence", "BoundDeployment",
    "CreateOutcome", "HandoffFailure", "CreatorRollbackRequest", "ExecutionClosure", "SettlementEvidence",
    "JournalEntry", "CreateJournal", "AdmissionScope", "OwnerBudgetScope", "ContainmentLimits",
    "ContainmentCensus", "ScopeBudget", "CreateExposureEvidence", "AdmissionRequest", "CapacityReservation",
    "AdmissionState"}

  const ROOTS: set<string> := {"CreateJournal", "AdmissionState", "PreparedCreate", "AdmissionRequest"}

  function Table(name: string): seq<FieldType> {
    match name
    case "DeploymentKey" => DEPLOYMENT_KEY
    case "BackendIdentity" => BACKEND_IDENTITY
    case "ProducerProvenance" => PRODUCER_PROVENANCE
    case "LifecycleIdentity" => LIFECYCLE_IDENTITY
    case "OwnerCandidate" => OWNER_CANDIDATE
    case "PreparedGroup" => PREPARED_GROUP
    case "PreparedCreate" => PREPARED_CREATE
    case "SubmissionEvidence" => SUBMISSION_EVIDENCE
    case "RejectionEvidence" => REJECTION_EVIDENCE
    case "NonCommitEvidence" => NON_COMMIT_EVIDENCE
    case "UncertaintyEvidence" => UNCERTAINTY_EVIDENCE
    case "TransactionEventEvidence" => TRANSACTION_EVENT_EVIDENCE
    case "ExactChainReadEvidence" => EXACT_CHAIN_READ_EVIDENCE
    case "BoundDeployment" => BOUND_DEPLOYMENT
    case "CreateOutcome" => CREATE_OUTCOME
    case "HandoffFailure" => HANDOFF_FAILURE
    case "CreatorRollbackRequest" => CREATOR_ROLLBACK_REQUEST
    case "ExecutionClosure" => EXECUTION_CLOSURE
    case "SettlementEvidence" => SETTLEMENT_EVIDENCE
    case "JournalEntry" => JOURNAL_ENTRY
    case "CreateJournal" => CREATE_JOURNAL
    case "AdmissionScope" => ADMISSION_SCOPE
    case "OwnerBudgetScope" => OWNER_BUDGET_SCOPE
    case "ContainmentLimits" => CONTAINMENT_LIMITS
    case "ContainmentCensus" => CONTAINMENT_CENSUS
    case "ScopeBudget" => SCOPE_BUDGET
    case "CreateExposureEvidence" => CREATE_EXPOSURE_EVIDENCE
    case "AdmissionRequest" => ADMISSION_REQUEST
    case "CapacityReservation" => CAPACITY_RESERVATION
    case "AdmissionState" => ADMISSION_STATE
    case _ => []
  }

  /** What the constructors accept, base64 and the size of a text are parameters. */
  function Recoverable(
    accepts: string -> seq<Field> -> bool, encode: seq<Byte> -> string, decode: string -> Option<seq<Byte>>,
    size: Json -> nat)
    : Schema
  {
    Schema(map name | name in RECOVERABLE :: DataType(Table(name), accepts(name)), encode, decode, size)
  }

  // ---- no table repeats a name, and every union is discriminated ----

  lemma ProducerProvenanceFields()
    ensures FieldsOk(PRODUCER_PROVENANCE)
  {
    var fields := PRODUCER_PROVENANCE;
    forall i, j | 0 <= i < j < |fields|
      ensures fields[i].name != fields[j].name
    {
      var a, b := fields[i].name, fields[j].name;
      assert |a| != |b| || a[|a| - 1] != b[|b| - 1];
    }
  }

  lemma PreparedCreateFields()
    ensures FieldsOk(PREPARED_CREATE)
  {
    var fields := PREPARED_CREATE;
    forall i, j | 0 <= i < j < |fields|
      ensures fields[i].name != fields[j].name
    {
      var a, b := fields[i].name, fields[j].name;
      assert |a| != |b| || a[0] != b[0];
    }
  }

  lemma SubmissionEvidenceFields()
    ensures FieldsOk(SUBMISSION_EVIDENCE)
  {
    OptionalIsDiscriminated(TString);
    OptionalIsDiscriminated(TInt);
    OptionalIsDiscriminated(TBytes);
    var fields := SUBMISSION_EVIDENCE;
    forall i, j | 0 <= i < j < |fields|
      ensures fields[i].name != fields[j].name
    {
      var a, b := fields[i].name, fields[j].name;
      assert |a| != |b| || a[|a| - 1] != b[|b| - 1];
    }
  }

  lemma ExecutionClosureFields()
    ensures FieldsOk(EXECUTION_CLOSURE)
  {
    var fields := EXECUTION_CLOSURE;
    forall i, j | 0 <= i < j < |fields|
      ensures fields[i].name != fields[j].name
    {
      var a, b := fields[i].name, fields[j].name;
      assert |a| != |b| || a[0] != b[0] || a[|a| - 1] != b[|b| - 1] || (7 < |a| && a[7] != b[7]);
    }
  }

  lemma TransactionEventEvidenceFields()
    ensures FieldsOk(TRANSACTION_EVENT_EVIDENCE)
  {
    var fields := TRANSACTION_EVENT_EVIDENCE;
    forall i, j | 0 <= i < j < |fields|
      ensures fields[i].name != fields[j].name
    {
      var a, b := fields[i].name, fields[j].name;
      assert |a| != |b| || a[0] != b[0];
    }
  }

  lemma ExactChainReadEvidenceFields()
    ensures FieldsOk(EXACT_CHAIN_READ_EVIDENCE)
  {
    var fields := EXACT_CHAIN_READ_EVIDENCE;
    forall i, j | 0 <= i < j < |fields|
      ensures fields[i].name != fields[j].name
    {
      var a, b := fields[i].name, fields[j].name;
      assert |a| != |b| || a[0] != b[0];
    }
  }

  lemma CreateExposureEvidenceFields()
    ensures FieldsOk(CREATE_EXPOSURE_EVIDENCE)
  {
    var fields := CREATE_EXPOSURE_EVIDENCE;
    forall i, j | 0 <= i < j < |fields|
      ensures fields[i].name != fields[j].name
    {
      var a, b := fields[i].name, fields[j].name;
      assert |a| != |b| || a[0] != b[0];
    }
  }

  lemma ContainmentCensusFields()
    ensures FieldsOk(CONTAINMENT_CENSUS)
  {
    var fields := CONTAINMENT_CENSUS;
    forall i, j | 0 <= i < j < |fields|
      ensures fields[i].name != fields[j].name
    {
      var a, b := fields[i].name, fields[j].name;
      assert |a| != |b| || a[0] != b[0];
    }
  }

  lemma CreatorRollbackRequestFields()
    ensures FieldsOk(CREATOR_ROLLBACK_REQUEST)
  {
    var fields := CREATOR_ROLLBACK_REQUEST;
    forall i, j | 0 <= i < j < |fields|
      ensures fields[i].name != fields[j].name
    {
      var a, b := fields[i].name, fields[j].name;
      assert |a| != |b| || a[0] != b[0];
    }
  }

  lemma ContainmentLimitsFields()
    ensures FieldsOk(CONTAINMENT_LIMITS)
  {
    var fields := CONTAINMENT_LIMITS;
    forall i, j | 0 <= i < j < |fields|
      ensures fields[i].name != fields[j].name
    {
      var a, b := fields[i].name, fields[j].name;
      assert |a| != |b|;
    }
  }

  lemma AdmissionScopeFields()
    ensures FieldsOk(ADMISSION_SCOPE)
  {
    var fields := ADMISSION_SCOPE;
    forall i, j | 0 <= i < j < |fields|
      ensures fields[i].name != fields[j].name
    {
      var a, b := fields[i].name, fields[j].name;
      assert |a| != |b| || a[0] != b[0];
    }
  }

  lemma KeyFields()
    ensures FieldsOk(DEPLOYMENT_KEY) && FieldsOk(BACKEND_IDENTITY)
    ensures FieldsOk(PREPARED_GROUP) && FieldsOk(OWNER_BUDGET_SCOPE)
  {
  }

  lemma OwnerFields()
    ensures FieldsOk(OWNER_CANDIDATE)
  {
  }

  lemma LifecycleFields()
    ensures FieldsOk(LIFECYCLE_IDENTITY)
  {
    OptionalIsDiscriminated(TInt);
    OptionalIsDiscriminated(TString);
  }

  lemma RejectionFields()
    ensures FieldsOk(REJECTION_EVIDENCE)
  {
  }

  lemma UncertaintyFields()
    ensures FieldsOk(UNCERTAINTY_EVIDENCE)
  {
    OptionalIsDiscriminated(TString);
  }

  lemma NonCommitFields()
    ensures FieldsOk(NON_COMMIT_EVIDENCE)
  {
    OptionalIsDiscriminated(TString);
  }

  lemma OutcomeFields()
    ensures FieldsOk(CREATE_OUTCOME)
  {
    OptionalIsDiscriminated(TData("RejectionEvidence"));
    OptionalIsDiscriminated(TData("NonCommitEvidence"));
    OptionalIsDiscriminated(TData("UncertaintyEvidence"));
    OptionalIsDiscriminated(TData("BoundDeployment"));
  }

  lemma BoundFields()
    ensures FieldsOk(BOUND_DEPLOYMENT)
  {
    TaggedUnionIsDiscriminated(["TransactionEventEvidence", "ExactChainReadEvidence"]);
  }

  lemma ClosingFields()
    ensures FieldsOk(HANDOFF_FAILURE) && FieldsOk(SETTLEMENT_EVIDENCE)
  {
  }

  lemma EntryFields()
    ensures FieldsOk(JOURNAL_ENTRY)
  {
    TaggedUnionIsDiscriminated(PAYLOADS);
    OptionalIsDiscriminated(TString);
  }

  lemma JournalFields()
    ensures FieldsOk(CREATE_JOURNAL)
  {
  }

  lemma BudgetFields()
    ensures FieldsOk(SCOPE_BUDGET)
  {
    TaggedUnionIsDiscriminated(["OwnerBudgetScope", "AdmissionScope"]);
  }

  lemma StateFields()
    ensures FieldsOk(ADMISSION_STATE)
  {
  }

  lemma RequestFields()
    ensures FieldsOk(ADMISSION_REQUEST)
  {
  }

  lemma ReservationFields()
    ensures FieldsOk(CAPACITY_RESERVATION)
  {
    OptionalIsDiscriminated(TData("BoundDeployment"));
  }

  lemma TablesAreSound(name: string)
    ensures FieldsOk(Table(name))
  {
    hide FieldsOk;
    ProducerProvenanceFields();
    PreparedCreateFields();
    SubmissionEvidenceFields();
    ExecutionClosureFields();
    TransactionEventEvidenceFields();
    ExactChainReadEvidenceFields();
    CreateExposureEvidenceFields();
    ContainmentCensusFields();
    CreatorRollbackRequestFields();
    ContainmentLimitsFields();
    AdmissionScopeFields();
    KeyFields();
    OwnerFields();
    LifecycleFields();
    RejectionFields();
    UncertaintyFields();
    NonCommitFields();
    OutcomeFields();
    BoundFields();
    ClosingFields();
    EntryFields();
    JournalFields();
    BudgetFields();
    StateFields();
    RequestFields();
    ReservationFields();
    NoFields();
  }

  lemma NoFields()
    ensures FieldsOk([])
  {
  }

  /** The admitted types form a well-formed schema, so the codec's properties hold of its four roots. */
  lemma RecoverableIsWellFormed(
    accepts: string -> seq<Field> -> bool, encode: seq<Byte> -> string, decode: string -> Option<seq<Byte>>,
    size: Json -> nat)
    requires forall b :: decode(encode(b)) == Some(b)
    ensures WellFormed(Recoverable(accepts, encode, decode, size))
  {
    hide FieldsOk, Table;
    var schema := Recoverable(accepts, encode, decode, size);
    forall n | n in schema.types
      ensures FieldsOk(schema.types[n].fields)
    {
      TablesAreSound(n);
    }
  }

  ghost predicate Recovers(schema: Schema, root: string, tree: Json, v: Value) {
    Decode(schema, tree, TData(root)) == Some(v)
    <==> HasType(schema, v, TData(root)) && tree == Canonical(schema, v) && Bounded(schema, tree)
  }

  /** A stored value of a root is recovered from its canonical tree within the bounds, and from no other. */
  lemma RootsAreRecovered(
    accepts: string -> seq<Field> -> bool, encode: seq<Byte> -> string, decode: string -> Option<seq<Byte>>,
    size: Json -> nat, root: string, tree: Json, v: Value)
    requires root in ROOTS && forall b :: decode(encode(b)) == Some(b)
    ensures Recovers(Recoverable(accepts, encode, decode, size), root, tree, v)
  {
    RecoverableIsWellFormed(accepts, encode, decode, size);
    DecodeIsExact(Recoverable(accepts, encode, decode, size), tree, TData(root), v);
  }
}
