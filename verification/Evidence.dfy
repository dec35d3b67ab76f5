/**
 The typed lifecycle evidence shared by the create journal and the admission state.

 A digest of canonical bytes is modelled as the value it digests: equal digests mean
 equal values. `detail` stands for the fields of a record that no rule reads.
 */
module Evidence {
  import opened Wrappers

  datatype BackendKind = SelfManaged | Mediated

  datatype Backend = Backend(kind: BackendKind, identifier: string)

  datatype DeploymentKey = DeploymentKey(owner: string, dseq: string)

  datatype Group = Group(gseq: nat, name: string)

  /** The digest of an ordered group population. */
  datatype GroupsDigest = GroupsDigest(groups: seq<Group>)

  datatype Producer = Producer(
    repository: string, repositoryId: string, repositoryOwnerId: string, issuer: string, subject: string,
    detail: string)

  datatype Lifecycle = Lifecycle(
    repository: string, workloadClass: string, run: Option<nat>, attempt: Option<nat>,
    release: Option<string>, expires: Option<nat>)

  datatype PreparedCreate = PreparedCreate(
    operationId: string, ordinal: nat, producer: Producer, lifecycle: Lifecycle,
    backend: Backend, owner: string, requestDigest: string, sdlDigest: string,
    groups: seq<Group>, preparedAt: nat, detail: string)

  datatype SubmissionEvidence = SubmissionEvidence(
    operationId: string, backend: Backend, requestDigest: string, submittedAt: nat,
    transactionHash: Option<string>, submissionToken: Option<string>, detail: string)

  datatype RejectionEvidence = RejectionEvidence(
    operationId: string, backend: Backend, observedAt: nat, detail: string)

  datatype NonCommitEvidence = NonCommitEvidence(
    operationId: string, backend: Backend, submissionToken: Option<string>, transactionHash: Option<string>,
    owner: string, groups: GroupsDigest, observedAt: nat, detail: string)

  datatype UncertaintyEvidence = UncertaintyEvidence(operationId: string, observedAt: nat, detail: string)

  datatype BindingEvidence =
    | TransactionEvent(transactionHash: string, chainId: string, detail: string)
    | ExactChainRead(chainId: string, observedAt: nat, detail: string)

  /** Its binding evidence names the same operation, subject and groups by construction. */
  datatype BoundDeployment = BoundDeployment(
    operationId: string, subject: DeploymentKey, groups: seq<Group>, binding: BindingEvidence)

  /** An outcome carries exactly the one evidence variant its kind names. */
  datatype CreateOutcome =
    | RejectedBeforeSend(rejection: RejectionEvidence)
    | FallbackSafe(nonCommit: NonCommitEvidence)
    | Committed(deployment: BoundDeployment)
    | Unknown(uncertainty: UncertaintyEvidence)
  {
    function OperationId(): string {
      match this
      case RejectedBeforeSend(e) => e.operationId
      case FallbackSafe(e) => e.operationId
      case Committed(d) => d.operationId
      case Unknown(e) => e.operationId
    }
  }

  datatype HandoffFailure = HandoffFailure(
    operationId: string, subject: DeploymentKey, observedAt: nat, detail: string)

  datatype CreatorRollback = CreatorRollback(
    operationId: string, subject: DeploymentKey, requestedAt: nat, detail: string)

  datatype ExecutionClosure = ExecutionClosure(
    operationId: string, subject: DeploymentKey, chainId: string, groups: GroupsDigest, observedAt: nat,
    detail: string)

  datatype SettlementState = Unmeasured | Unsettled | Settled

  datatype SettlementEvidence = SettlementEvidence(
    operationId: string, subject: DeploymentKey, state: SettlementState, observedAt: nat, detail: string)
}
