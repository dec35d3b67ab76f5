/**
 The append-only create journal: every entry extends the digest chain and is one
 allowed step of the operation it belongs to.

 The digest of an entry is modelled as the entry itself.
 */
module Journal {
  import opened Wrappers
  import opened Evidence
  import opened AppendOnly

  datatype Stage =
    | Prepared
    | Submitted
    | RejectedBeforeSendStage
    | FallbackSafeStage
    | OutcomeUnknown
    | Created
    | HandoffFailed
    | RollbackRequested
    | ExecutionClosed
    | Settlement

  datatype Payload =
    | PreparedPayload(prepared: PreparedCreate)
    | SubmissionPayload(submission: SubmissionEvidence)
    | OutcomePayload(outcome: CreateOutcome)
    | HandoffPayload(failure: HandoffFailure)
    | RollbackPayload(rollback: CreatorRollback)
    | ClosurePayload(closure: ExecutionClosure)
    | SettlementPayload(settlement: SettlementEvidence)
  {
    function OperationId(): string {
      match this
      case PreparedPayload(p) => p.operationId
      case SubmissionPayload(s) => s.operationId
      case OutcomePayload(o) => o.OperationId()
      case HandoffPayload(h) => h.operationId
      case RollbackPayload(r) => r.operationId
      case ClosurePayload(c) => c.operationId
      case SettlementPayload(s) => s.operationId
    }

    /** A committed deployment known from a transaction event carries no observation time. */
    function ObservedAt(): nat {
      match this
      case PreparedPayload(p) => p.preparedAt
      case SubmissionPayload(s) => s.submittedAt
      case OutcomePayload(RejectedBeforeSend(e)) => e.observedAt
      case OutcomePayload(FallbackSafe(e)) => e.observedAt
      case OutcomePayload(Unknown(e)) => e.observedAt
      case OutcomePayload(Committed(d)) => if d.binding.ExactChainRead? then d.binding.observedAt else 0
      case HandoffPayload(h) => h.observedAt
      case RollbackPayload(r) => r.requestedAt
      case ClosurePayload(c) => c.observedAt
      case SettlementPayload(s) => s.observedAt
    }

    /** The deployment that evidence about an existing deployment names. */
    function Subject(): Option<DeploymentKey> {
      match this
      case HandoffPayload(h) => Some(h.subject)
      case RollbackPayload(r) => Some(r.subject)
      case ClosurePayload(c) => Some(c.subject)
      case SettlementPayload(s) => Some(s.subject)
      case _ => None
    }
  }

  datatype Entry = Entry(
    revision: nat, operationId: string, stage: Stage, payload: Payload, recordedAt: nat, previous: Option<Entry>)

  datatype TransitionError =
    | RevisionNotNext
    | ChainBroken
    | PayloadMismatch
    | OperationMismatch
    | PredatesEvidence
    | AppendTimeBackwards
    | FirstMustBePrepared
    | DuplicateOperation
    | DuplicateOrdinal
    | InvalidTransition
    | TransitionTimeBackwards
    | SubmissionDisagrees
    | OutcomeKindDisagrees
    | RejectionDisagrees
    | NonCommitDisagrees
    | NonCommitOfOtherSubmission
    | DeploymentDisagrees
    | EventNotSubmitted
    | DeploymentBoundTwice
    | IdentityChanged
    | ClosureChangedGroups
    | SettlementNotMonotone

  predicate Carries(stage: Stage, payload: Payload) {
    match stage
    case Prepared => payload.PreparedPayload?
    case Submitted => payload.SubmissionPayload?
    case HandoffFailed => payload.HandoffPayload?
    case RollbackRequested => payload.RollbackPayload?
    case ExecutionClosed => payload.ClosurePayload?
    case Settlement => payload.SettlementPayload?
    case _ => payload.OutcomePayload?
  }

  predicate Next(from: Stage, to: Stage) {
    match from
    case Prepared => to in {Submitted, RejectedBeforeSendStage, OutcomeUnknown}
    case Submitted => to in {OutcomeUnknown, Created, FallbackSafeStage}
    case RejectedBeforeSendStage => to == FallbackSafeStage
    case OutcomeUnknown => to in {Created, FallbackSafeStage}
    case Created => to in {HandoffFailed, ExecutionClosed}
    case HandoffFailed => to == RollbackRequested
    case RollbackRequested => to == ExecutionClosed
    case ExecutionClosed => to == Settlement
    case Settlement => to == Settlement
    case FallbackSafeStage => false
  }

  predicate OutcomeMatches(stage: Stage, outcome: CreateOutcome) {
    match stage
    case RejectedBeforeSendStage => outcome.RejectedBeforeSend?
    case FallbackSafeStage => outcome.FallbackSafe?
    case OutcomeUnknown => outcome.Unknown?
    case _ => outcome.Committed?
  }

  function Level(state: SettlementState): nat {
    match state
    case Unmeasured => 0
    case Unsettled => 1
    case Settled => 2
  }

  // ---- what the earlier entries say about an operation ----

  function Own(entries: seq<Entry>, operationId: string): (own: seq<Entry>)
    ensures forall e | e in own :: e in entries && e.operationId == operationId
  {
    if entries == [] then []
    else
      var n := |entries| - 1;
      Own(entries[..n], operationId) + (if entries[n].operationId == operationId then [entries[n]] else [])
  }

  /** The deployment of the first entry that reports the creation. */
  function Bound(entries: seq<Entry>, operationId: string): Option<BoundDeployment> {
    if entries == [] then None
    else
      var n := |entries| - 1;
      var earlier := Bound(entries[..n], operationId);
      if earlier.Some? then earlier
      else if entries[n].operationId == operationId && entries[n].stage == Created then Deployment(entries[n].payload)
      else None
  }

  function Deployment(payload: Payload): Option<BoundDeployment> {
    match payload
    case OutcomePayload(Committed(d)) => Some(d)
    case _ => None
  }

  /** The last submission of the operation. */
  function LastSubmission(own: seq<Entry>): Option<SubmissionEvidence> {
    if own == [] then None
    else
      var n := |own| - 1;
      if own[n].stage == Submitted && own[n].payload.SubmissionPayload? then Some(own[n].payload.submission)
      else LastSubmission(own[..n])
  }

  datatype AllocationKey = AllocationKey(
    owner: string, repositoryId: string, repositoryOwnerId: string, subject: string, lifecycle: Lifecycle, ordinal: nat)

  function Allocation(p: PreparedCreate): AllocationKey {
    AllocationKey(p.owner, p.producer.repositoryId, p.producer.repositoryOwnerId, p.producer.subject,
                  p.lifecycle, p.ordinal)
  }

  function Head(entries: seq<Entry>): Option<Entry> {
    if entries == [] then None else Some(entries[|entries| - 1])
  }

  // ---- one entry against the entries before it ----

  function CheckEnvelope(entries: seq<Entry>, entry: Entry): Option<TransitionError> {
    if entry.revision != |entries| + 1 then Some(RevisionNotNext)
    else if entry.previous != Head(entries) then Some(ChainBroken)
    else if !Carries(entry.stage, entry.payload) then Some(PayloadMismatch)
    else if entry.payload.OperationId() != entry.operationId then Some(OperationMismatch)
    else if entry.recordedAt < entry.payload.ObservedAt() then Some(PredatesEvidence)
    else if entries != [] && entry.recordedAt < entries[|entries| - 1].recordedAt then Some(AppendTimeBackwards)
    else None
  }

  /** The scan over the prepared entries when an operation appears for the first time. */
  function CheckFirst(entries: seq<Entry>, prepared: PreparedCreate): Option<TransitionError> {
    if entries == [] then None
    else if !entries[0].stage.Prepared? || !entries[0].payload.PreparedPayload? then CheckFirst(entries[1..], prepared)
    else if entries[0].payload.prepared.operationId == prepared.operationId then Some(DuplicateOperation)
    else if Allocation(entries[0].payload.prepared) == Allocation(prepared) then Some(DuplicateOrdinal)
    else CheckFirst(entries[1..], prepared)
  }

  function CheckOutcome(
    entries: seq<Entry>, own: seq<Entry>, prepared: PreparedCreate, stage: Stage, outcome: CreateOutcome)
    : Option<TransitionError>
  {
    var submission := LastSubmission(own);
    if !OutcomeMatches(stage, outcome) then Some(OutcomeKindDisagrees)
    else
      match outcome
      case RejectedBeforeSend(e) =>
        if e.backend != prepared.backend then Some(RejectionDisagrees) else None
      case FallbackSafe(proof) =>
        if proof.backend != prepared.backend || proof.owner != prepared.owner
           || proof.groups != GroupsDigest(prepared.groups) then
          Some(NonCommitDisagrees)
        else if submission.Some? && (proof.transactionHash != submission.value.transactionHash
                                     || proof.submissionToken != submission.value.submissionToken) then
          Some(NonCommitOfOtherSubmission)
        else None
      case Committed(d) =>
        if d.subject.owner != prepared.owner || d.groups != prepared.groups then Some(DeploymentDisagrees)
        else if d.binding.TransactionEvent?
                && (submission.None? || submission.value.transactionHash != Some(d.binding.transactionHash)) then
          Some(EventNotSubmitted)
        else if exists i | 0 <= i < |entries| :: BoundTo(entries, entries[i].operationId, d.subject) then
          Some(DeploymentBoundTwice)
        else None
      case Unknown(_) => None
  }

  predicate BoundTo(entries: seq<Entry>, operationId: string, subject: DeploymentKey) {
    Bound(entries, operationId).Some? && Bound(entries, operationId).value.subject == subject
  }

  function CheckEvidence(entries: seq<Entry>, own: seq<Entry>, prepared: PreparedCreate, entry: Entry)
    : Option<TransitionError>
  {
    match entry.payload
    case SubmissionPayload(s) =>
      if s.backend != prepared.backend || s.requestDigest != prepared.requestDigest
         || s.submittedAt < prepared.preparedAt then
        Some(SubmissionDisagrees)
      else None
    case OutcomePayload(o) => CheckOutcome(entries, own, prepared, entry.stage, o)
    case _ => None
  }

  /** What evidence about a created deployment must agree with. */
  function CheckSubject(entries: seq<Entry>, previous: Entry, prepared: PreparedCreate, entry: Entry)
    : Option<TransitionError>
  {
    var subject := entry.payload.Subject();
    if subject.Some? && !BoundTo(entries, entry.operationId, subject.value) then Some(IdentityChanged)
    else if entry.payload.ClosurePayload? && entry.payload.closure.groups != GroupsDigest(prepared.groups) then
      Some(ClosureChangedGroups)
    else if entry.payload.SettlementPayload? && previous.payload.SettlementPayload?
            && Level(entry.payload.settlement.state) <= Level(previous.payload.settlement.state) then
      Some(SettlementNotMonotone)
    else None
  }

  /** A step of an operation that has entries; in a journal the first of them was prepared. */
  function CheckLater(entries: seq<Entry>, own: seq<Entry>, entry: Entry): Option<TransitionError>
    requires own != []
  {
    var previous := own[|own| - 1];
    if entry.stage.Prepared? then Some(DuplicateOperation)
    else if !Next(previous.stage, entry.stage) then Some(InvalidTransition)
    else if !own[0].payload.PreparedPayload? then Some(PayloadMismatch)
    else
      var prepared := own[0].payload.prepared;
      if entry.recordedAt < previous.recordedAt || entry.recordedAt < prepared.preparedAt then
        Some(TransitionTimeBackwards)
      else
        var fault := CheckEvidence(entries, own, prepared, entry);
        if fault.Some? then fault else CheckSubject(entries, previous, prepared, entry)
  }

  function Validate(entries: seq<Entry>, entry: Entry): Option<TransitionError> {
    var fault := CheckEnvelope(entries, entry);
    var own := Own(entries, entry.operationId);
    if fault.Some? then fault
    else if own != [] then CheckLater(entries, own, entry)
    else if !entry.stage.Prepared? then Some(FirstMustBePrepared)
    else CheckFirst(entries, entry.payload.prepared)
  }

  // ---- journals ----

  ghost predicate IsJournal(entries: seq<Entry>) {
    IsLog(Validate, entries)
  }

  /** The journal constructor replays the entries into a growing tuple. */
  method CheckJournal(entries: seq<Entry>) returns (fault: Option<TransitionError>)
    ensures fault.None? <==> IsJournal(entries)
    ensures fault.Some? ==> exists i: nat :: FirstFault(Validate, entries, i, fault.value)
  {
    fault := Replay(Validate, entries);
  }

  /** `append`: only the next entry can be added, and the whole journal is checked again. */
  method Append(entries: seq<Entry>, stage: Stage, payload: Payload, recordedAt: nat)
    returns (r: Result<seq<Entry>, TransitionError>)
    requires IsJournal(entries)
    ensures var entry := Entry(|entries| + 1, payload.OperationId(), stage, payload, recordedAt, Head(entries));
            && (r.Success? ==> r.value == entries + [entry] && IsJournal(r.value))
            && (r.Failure? ==> Validate(entries, entry) == Some(r.error))
  {
    var entry := Entry(|entries| + 1, payload.OperationId(), stage, payload, recordedAt, Head(entries));
    if !Carries(stage, payload) {
      return Failure(PayloadMismatch);
    }
    var fault := ReplayWith(Validate, entries, entry);
    if fault.Some? {
      return Failure(fault.value);
    }
    return Success(entries + [entry]);
  }
}
