/**
 Creation admission: a request occupies one active slot, one unresolved slot and its
 exposure in every budget that applies to it, from the reservation until typed
 evidence releases each of them.
 */
module Admission {
  import opened Wrappers
  import opened Sorting
  import opened Evidence

  datatype Scope =
    | OwnerScope(chainId: string, owner: string)
    | LeafScope(chainId: string, owner: string, issuer: string, repositoryOwnerId: string,
                repositoryId: string, repository: string, workloadClass: string)

  datatype CensusStatus = Verified | Incomplete | Unavailable

  datatype Limits = Limits(
    maxActive: nat, maxUnresolved: nat, maxExposure: nat,
    exposurePolicy: string, admissionPolicy: string, validUntil: nat)

  datatype Census = Census(
    active: nat, unresolved: nat, exposure: nat,
    excludedCount: nat, excludedPopulation: Digest,
    journal: CensusStatus, recoveryReader: CensusStatus, chain: CensusStatus, accounting: CensusStatus,
    observedAt: nat, validUntil: nat)

  datatype Budget = Budget(scope: Scope, limits: Limits, census: Census)

  datatype Exposure = Exposure(
    amount: nat, backendPolicy: string, observedAt: nat, validUntil: nat, detail: string)

  /** The exposure evidence names the same chain, operation, digests and backend by construction. */
  datatype Request = Request(prepared: PreparedCreate, scope: Scope, exposure: Exposure, requestedAt: nat) {
    function OperationId(): string {
      prepared.operationId
    }

    ghost predicate Valid() {
      && scope.LeafScope?
      && scope == LeafScope(scope.chainId, prepared.owner, prepared.producer.issuer,
                            prepared.producer.repositoryOwnerId, prepared.producer.repositoryId,
                            prepared.producer.repository, prepared.lifecycle.workloadClass)
      && exposure.amount > 0
      && exposure.observedAt <= exposure.validUntil
      && requestedAt >= prepared.preparedAt && requestedAt >= exposure.observedAt
    }
  }

  datatype Stage =
    | Reserved
    | Submitting
    | OutcomeUnknown
    | NonCommitProven
    | CommittedStage
    | ExecutionClosed
    | SettledStage

  datatype Reservation = Reservation(
    request: Request, stage: Stage, evidence: Digest, bound: Option<BoundDeployment>)
  {
    ghost predicate Valid() {
      && request.Valid()
      && (stage in {CommittedStage, ExecutionClosed, SettledStage} ==> bound.Some?)
      && (bound.Some? ==>
            && bound.value.operationId == request.OperationId()
            && bound.value.subject.owner == request.scope.owner
            && bound.value.groups == request.prepared.groups)
    }

    function ActiveSlots(): nat {
      if stage in {Reserved, Submitting, OutcomeUnknown, CommittedStage} then 1 else 0
    }

    function UnresolvedSlots(): nat {
      if stage in {Reserved, Submitting, OutcomeUnknown} then 1 else 0
    }

    function HeldExposure(): nat {
      if stage in {NonCommitProven, SettledStage} then 0 else request.exposure.amount
    }
  }

  datatype State = State(budgets: seq<Budget>, reservations: seq<Reservation>, revision: nat) {
    ghost predicate Valid() {
      && budgets != []
      && (forall i, j | 0 <= i < j < |budgets| :: budgets[i].scope != budgets[j].scope)
      && (forall i, j | 0 <= i < j < |reservations| ::
            reservations[i].request.OperationId() != reservations[j].request.OperationId())
      && (forall i | 0 <= i < |reservations| :: reservations[i].Valid())
    }
  }

  datatype PolicyBinding = PolicyBinding(scope: Scope, policy: string)

  datatype Permit = Permit(
    operationId: string, preparedDigest: Digest, stateRevision: nat, stateDigest: Digest,
    broker: string, presenter: string, audience: string, bindings: seq<PolicyBinding>,
    validUntil: nat, persistenceEvidence: string, issuedAt: nat)

  datatype Presentation = Presentation(
    permitDigest: Digest, presenter: string, audience: string, bindings: seq<PolicyBinding>,
    revoked: bool, presentedAt: nat, detail: string)

  /** The digest of a value is the value: equal digests, equal values. */
  datatype Digest =
    | OfPopulation(ids: seq<string>)
    | OfPrepared(prepared: PreparedCreate)
    | OfState(state: State)
    | OfPermit(permit: Permit)
    | OfPresentation(presentation: Presentation)
    | OfOutcome(outcome: CreateOutcome)
    | OfClosure(closure: ExecutionClosure)
    | OfSettlement(settlement: SettlementEvidence)

  const AUDIENCE := "akash-create-submission"

  // ---- budgets and usage ----

  /** A leaf budget applies to its own leaf, an owner budget to every leaf of the account. */
  predicate Applies(scope: Scope, leaf: Scope) {
    scope == leaf || (scope.OwnerScope? && scope.chainId == leaf.chainId && scope.owner == leaf.owner)
  }

  function Applicable(budgets: seq<Budget>, leaf: Scope): seq<Budget> {
    if budgets == [] then []
    else (if Applies(budgets[0].scope, leaf) then [budgets[0]] else []) + Applicable(budgets[1..], leaf)
  }

  predicate HasRequired(budgets: seq<Budget>, leaf: Scope) {
    (set i | 0 <= i < |budgets| :: budgets[i].scope) == {OwnerScope(leaf.chainId, leaf.owner), leaf}
  }

  function Bindings(budgets: seq<Budget>): seq<PolicyBinding> {
    seq(|budgets|, i requires 0 <= i < |budgets| =>
      PolicyBinding(budgets[i].scope, budgets[i].limits.admissionPolicy))
  }

  datatype Usage = Usage(active: nat, unresolved: nat, exposure: nat) {
    predicate Within(limits: Limits) {
      active <= limits.maxActive && unresolved <= limits.maxUnresolved && exposure <= limits.maxExposure
    }

    predicate AtMost(other: Usage) {
      active <= other.active && unresolved <= other.unresolved && exposure <= other.exposure
    }

    function Plus(other: Usage): Usage {
      Usage(active + other.active, unresolved + other.unresolved, exposure + other.exposure)
    }
  }

  function Occupied(r: Reservation): Usage {
    Usage(r.ActiveSlots(), r.UnresolvedSlots(), r.HeldExposure())
  }

  function Share(r: Reservation, scope: Scope): Usage {
    if Applies(scope, r.request.scope) then Occupied(r) else Usage(0, 0, 0)
  }

  /** What the reservations under one scope occupy together. */
  function Held(reservations: seq<Reservation>, scope: Scope): Usage {
    if reservations == [] then Usage(0, 0, 0)
    else Share(reservations[0], scope).Plus(Held(reservations[1..], scope))
  }

  function UsageOf(reservations: seq<Reservation>, budget: Budget): Usage {
    Usage(budget.census.active, budget.census.unresolved, budget.census.exposure)
    .Plus(Held(reservations, budget.scope))
  }

  function IdsUnder(reservations: seq<Reservation>, scope: Scope): seq<string> {
    if reservations == [] then []
    else
      (if Applies(scope, reservations[0].request.scope) then [reservations[0].request.OperationId()] else [])
      + IdsUnder(reservations[1..], scope)
  }

  /** The sorted population of operations that a census of this scope leaves out. */
  function Population(reservations: seq<Reservation>, scope: Scope): seq<string> {
    Sort((a: string, b: string) => LexLe(CharLess, a, b), IdsUnder(reservations, scope))
  }

  predicate CensusMatches(reservations: seq<Reservation>, budget: Budget) {
    && budget.census.excludedCount == |Population(reservations, budget.scope)|
    && budget.census.excludedPopulation == OfPopulation(Population(reservations, budget.scope))
  }

  function Rebind(reservations: seq<Reservation>, budget: Budget): Budget {
    var population := Population(reservations, budget.scope);
    budget.(census := budget.census.(excludedCount := |population|, excludedPopulation := OfPopulation(population)))
  }

  function Find(reservations: seq<Reservation>, operationId: string): (r: Option<nat>)
    ensures r.Some? ==> r.value < |reservations| && reservations[r.value].request.OperationId() == operationId
    ensures r.None? ==> forall i | 0 <= i < |reservations| :: reservations[i].request.OperationId() != operationId
  {
    if reservations == [] then None
    else if reservations[0].request.OperationId() == operationId then Some(0)
    else
      match Find(reservations[1..], operationId)
      case None => None
      case Some(i) => Some(i + 1)
  }

  // ---- reserving ----

  datatype HoldReason =
    | MissingRequiredBudget
    | ReservationCensusMismatch
    | ExposurePolicyMismatch
    | OperationConflict
    | StaleRevision
    | ExposureEvidenceNotCurrent
    | JournalUnhealthy
    | RecoveryReaderUnhealthy
    | ChainCensusUnhealthy
    | AccountingCensusUnhealthy
    | CensusNotCurrent
    | ActiveDeploymentLimit
    | UnresolvedOutcomeLimit
    | FinancialExposureLimit

  datatype Projection = Projection(scope: Scope, usageAfter: Usage)

  datatype Proposal = Proposal(
    operationId: string, expectedRevision: nat, expectedDigest: Digest,
    proposedRevision: nat, proposedDigest: Digest, proposed: State)

  datatype Decision =
    | Hold(reason: HoldReason, scope: Option<Scope>)
    | Reconcile
    | Proposed(projections: seq<Projection>, proposal: Proposal)

  datatype HoldAt = HoldAt(reason: HoldReason, scope: Scope)

  /** The first budget whose census or exposure policy does not match the request. */
  function BindingFault(state: State, request: Request, budgets: seq<Budget>): Option<HoldAt> {
    if budgets == [] then None
    else if !CensusMatches(state.reservations, budgets[0]) then
      Some(HoldAt(ReservationCensusMismatch, budgets[0].scope))
    else if budgets[0].limits.exposurePolicy != request.exposure.backendPolicy then
      Some(HoldAt(ExposurePolicyMismatch, budgets[0].scope))
    else BindingFault(state, request, budgets[1..])
  }

  function Unhealthy(census: Census): Option<HoldReason> {
    if !census.journal.Verified? then Some(JournalUnhealthy)
    else if !census.recoveryReader.Verified? then Some(RecoveryReaderUnhealthy)
    else if !census.chain.Verified? then Some(ChainCensusUnhealthy)
    else if !census.accounting.Verified? then Some(AccountingCensusUnhealthy)
    else None
  }

  function Projected(state: State, request: Request, budget: Budget): Usage {
    UsageOf(state.reservations, budget).Plus(Usage(1, 1, request.exposure.amount))
  }

  /** Why one budget does not admit the request, if it does not. */
  function Refusal(state: State, request: Request, now: nat, budget: Budget): Option<HoldReason> {
    var after := Projected(state, request, budget);
    if Unhealthy(budget.census).Some? then Unhealthy(budget.census)
    else if request.requestedAt > now || now < budget.census.observedAt || budget.census.validUntil < now
            || now > budget.limits.validUntil then
      Some(CensusNotCurrent)
    else if after.active > budget.limits.maxActive then Some(ActiveDeploymentLimit)
    else if after.unresolved > budget.limits.maxUnresolved then Some(UnresolvedOutcomeLimit)
    else if after.exposure > budget.limits.maxExposure then Some(FinancialExposureLimit)
    else None
  }

  function Admit(state: State, request: Request, now: nat, budgets: seq<Budget>): Result<seq<Projection>, HoldAt> {
    if budgets == [] then Success([])
    else
      match Refusal(state, request, now, budgets[0])
      case Some(reason) => Failure(HoldAt(reason, budgets[0].scope))
      case None =>
        var rest :- Admit(state, request, now, budgets[1..]);
        Success([Projection(budgets[0].scope, Projected(state, request, budgets[0]))] + rest)
  }

  function RebindApplicable(reservations: seq<Reservation>, budgets: seq<Budget>, leaf: Scope): seq<Budget> {
    seq(|budgets|, i requires 0 <= i < |budgets| =>
      if Applies(budgets[i].scope, leaf) then Rebind(reservations, budgets[i]) else budgets[i])
  }

  function WithReservation(state: State, request: Request): State {
    var reservations := state.reservations + [Reservation(request, Reserved, OfPrepared(request.prepared), None)];
    State(RebindApplicable(reservations, state.budgets, request.scope), reservations, state.revision + 1)
  }

  function ProposalFor(state: State, request: Request): Proposal {
    var next := WithReservation(state, request);
    Proposal(request.OperationId(), state.revision, OfState(state), next.revision, OfState(next), next)
  }

  function Reserve(state: State, request: Request, expectedRevision: nat, now: nat): Decision {
    var budgets := Applicable(state.budgets, request.scope);
    if !HasRequired(budgets, request.scope) then Hold(MissingRequiredBudget, None)
    else
      match BindingFault(state, request, budgets)
      case Some(fault) => Hold(fault.reason, Some(fault.scope))
      case None =>
        match Find(state.reservations, request.OperationId())
        case Some(i) =>
          if state.reservations[i].request == request then Reconcile
          else Hold(OperationConflict, None)
        case None =>
          if expectedRevision != state.revision then Hold(StaleRevision, None)
          else if now < request.exposure.observedAt || request.exposure.validUntil < now then
            Hold(ExposureEvidenceNotCurrent, None)
          else
            match Admit(state, request, now, budgets)
            case Failure(fault) => Hold(fault.reason, Some(fault.scope))
            case Success(projections) => Proposed(projections, ProposalFor(state, request))
  }

  method FirstBindingFault(state: State, request: Request, budgets: seq<Budget>) returns (fault: Option<HoldAt>)
    ensures fault == BindingFault(state, request, budgets)
  {
    assert budgets[0..] == budgets;
    for i := 0 to |budgets|
      invariant BindingFault(state, request, budgets) == BindingFault(state, request, budgets[i..])
    {
      assert budgets[i..][1..] == budgets[i + 1..];
      if !CensusMatches(state.reservations, budgets[i]) {
        return Some(HoldAt(ReservationCensusMismatch, budgets[i].scope));
      }
      if budgets[i].limits.exposurePolicy != request.exposure.backendPolicy {
        return Some(HoldAt(ExposurePolicyMismatch, budgets[i].scope));
      }
    }
    return None;
  }

  method UpdateBudgets(reservations: seq<Reservation>, budgets: seq<Budget>, leaf: Scope)
    returns (updated: seq<Budget>)
    ensures updated == RebindApplicable(reservations, budgets, leaf)
  {
    updated := [];
    for i := 0 to |budgets|
      invariant updated == RebindApplicable(reservations, budgets, leaf)[..i]
    {
      var budget := budgets[i];
      if Applies(budget.scope, leaf) {
        budget := Rebind(reservations, budget);
      }
      updated := updated + [budget];
    }
  }

  /** `reserve_capacity`, with its budget loops and their early returns. */
  method ReserveCapacity(state: State, request: Request, expectedRevision: nat, now: nat)
    returns (decision: Decision)
    ensures decision == Reserve(state, request, expectedRevision, now)
  {
    var budgets := Applicable(state.budgets, request.scope);
    if !HasRequired(budgets, request.scope) {
      return Hold(MissingRequiredBudget, None);
    }
    var fault := FirstBindingFault(state, request, budgets);
    if fault.Some? {
      return Hold(fault.value.reason, Some(fault.value.scope));
    }
    var existing := Find(state.reservations, request.OperationId());
    if existing.Some? {
      if state.reservations[existing.value].request == request {
        return Reconcile;
      }
      return Hold(OperationConflict, None);
    }
    if expectedRevision != state.revision {
      return Hold(StaleRevision, None);
    }
    if now < request.exposure.observedAt || request.exposure.validUntil < now {
      return Hold(ExposureEvidenceNotCurrent, None);
    }
    var admitted := AdmitAll(state, request, now, budgets);
    if admitted.Failure? {
      return Hold(admitted.error.reason, Some(admitted.error.scope));
    }
    var reservations := state.reservations + [Reservation(request, Reserved, OfPrepared(request.prepared), None)];
    var updated := UpdateBudgets(reservations, state.budgets, request.scope);
    var next := State(updated, reservations, state.revision + 1);
    return Proposed(admitted.value,
                    Proposal(request.OperationId(), state.revision, OfState(state),
                             next.revision, OfState(next), next));
  }

  method AdmitAll(state: State, request: Request, now: nat, budgets: seq<Budget>)
    returns (r: Result<seq<Projection>, HoldAt>)
    ensures r == Admit(state, request, now, budgets)
  {
    var projections: seq<Projection> := [];
    assert budgets[0..] == budgets;
    assert forall rest: seq<Projection> :: projections + rest == rest;
    for i := 0 to |budgets|
      invariant match Admit(state, request, now, budgets[i..])
                case Failure(hold) => Admit(state, request, now, budgets) == Failure(hold)
                case Success(rest) => Admit(state, request, now, budgets) == Success(projections + rest)
    {
      assert budgets[i..][1..] == budgets[i + 1..];
      match Refusal(state, request, now, budgets[i])
      case Some(reason) => return Failure(HoldAt(reason, budgets[i].scope));
      case None =>
        var projection := Projection(budgets[i].scope, Projected(state, request, budgets[i]));
        assert forall rest: seq<Projection> ::
            projections + ([projection] + rest) == (projections + [projection]) + rest;
        projections := projections + [projection];
    }
    assert projections + [] == projections;
    return Success(projections);
  }

  // ---- redeeming a permit ----

  datatype RedeemError =
    | NotCurrentRevision
    | NotReservedOperation
    | AlreadyRedeemed
    | WrongPresentation
    | PermitRevoked
    | PresentationNotCurrent
    | PolicyChanged

  datatype Redemption = Redemption(
    operationId: string, permitDigest: Digest, presentationDigest: Digest, permitIssuedAt: nat,
    expectedRevision: nat, expectedDigest: Digest, proposedRevision: nat, proposedDigest: Digest,
    proposed: State)

  function Replaced(state: State, i: nat, r: Reservation): State
    requires i < |state.reservations|
  {
    state.(reservations := state.reservations[i := r], revision := state.revision + 1)
  }

  function Redeem(state: State, permit: Permit, presentation: Presentation, expectedRevision: nat)
    : Result<Redemption, RedeemError>
  {
    if expectedRevision != state.revision || permit.stateRevision > state.revision then
      Failure(NotCurrentRevision)
    else
      match Find(state.reservations, permit.operationId)
      case None => Failure(NotReservedOperation)
      case Some(i) =>
        var r := state.reservations[i];
        if OfPrepared(r.request.prepared) != permit.preparedDigest then Failure(NotReservedOperation)
        else if !r.stage.Reserved? then Failure(AlreadyRedeemed)
        else if presentation.permitDigest != OfPermit(permit)
                || presentation.presenter != permit.presenter || presentation.audience != permit.audience then
          Failure(WrongPresentation)
        else if presentation.revoked then Failure(PermitRevoked)
        else if presentation.presentedAt < permit.issuedAt || permit.validUntil < presentation.presentedAt then
          Failure(PresentationNotCurrent)
        else if presentation.bindings != permit.bindings
                || Bindings(Applicable(state.budgets, r.request.scope)) != permit.bindings then
          Failure(PolicyChanged)
        else
          var next := Replaced(state, i, r.(stage := Submitting, evidence := OfPresentation(presentation)));
          Success(Redemption(permit.operationId, OfPermit(permit), OfPresentation(presentation), permit.issuedAt,
                             state.revision, OfState(state), next.revision, OfState(next), next))
  }

  // ---- lifecycle transitions ----

  datatype LifecycleEvidence =
    | OutcomeEvidence(outcome: CreateOutcome)
    | ClosureEvidence(closure: ExecutionClosure)
    | SettlementProof(settlement: SettlementEvidence)
  {
    function OperationId(): string {
      match this
      case OutcomeEvidence(o) => o.OperationId()
      case ClosureEvidence(c) => c.operationId
      case SettlementProof(s) => s.operationId
    }

    function Digested(): Digest {
      match this
      case OutcomeEvidence(o) => OfOutcome(o)
      case ClosureEvidence(c) => OfClosure(c)
      case SettlementProof(s) => OfSettlement(s)
    }
  }

  datatype TransitionError =
    | UnknownReservation
    | EvidenceDisagrees
    | SettlementNotMeasured
    | EvidenceRewritten
    | StaleStateRevision
    | InvalidTransition

  predicate Allowed(from: Stage, to: Stage) {
    match from
    case Submitting => to in {OutcomeUnknown, NonCommitProven, CommittedStage}
    case OutcomeUnknown => to in {NonCommitProven, CommittedStage}
    case CommittedStage => to == ExecutionClosed
    case ExecutionClosed => to == SettledStage
    case _ => false
  }

  datatype Target = Target(stage: Stage, bound: Option<BoundDeployment>)

  function TargetOf(r: Reservation, evidence: LifecycleEvidence): Result<Target, TransitionError> {
    var prepared := r.request.prepared;
    match evidence
    case OutcomeEvidence(RejectedBeforeSend(e)) =>
      if e.backend != prepared.backend then Failure(EvidenceDisagrees) else Success(Target(NonCommitProven, None))
    case OutcomeEvidence(FallbackSafe(e)) =>
      if e.backend != prepared.backend || e.owner != prepared.owner || e.groups != GroupsDigest(prepared.groups)
      then Failure(EvidenceDisagrees)
      else Success(Target(NonCommitProven, None))
    case OutcomeEvidence(Unknown(_)) => Success(Target(OutcomeUnknown, None))
    case OutcomeEvidence(Committed(d)) =>
      if d.subject.owner != prepared.owner || d.groups != prepared.groups then Failure(EvidenceDisagrees)
      else Success(Target(CommittedStage, Some(d)))
    case ClosureEvidence(c) =>
      if r.bound.None? || c.subject != r.bound.value.subject
         || c.groups != GroupsDigest(r.bound.value.groups) || c.chainId != r.bound.value.binding.chainId
      then Failure(EvidenceDisagrees)
      else Success(Target(ExecutionClosed, r.bound))
    case SettlementProof(s) =>
      if !s.state.Settled? then Failure(SettlementNotMeasured)
      else if r.bound.None? || s.subject != r.bound.value.subject then Failure(EvidenceDisagrees)
      else Success(Target(SettledStage, r.bound))
  }

  function Transition(state: State, evidence: LifecycleEvidence, expectedRevision: nat)
    : Result<State, TransitionError>
  {
    match Find(state.reservations, evidence.OperationId())
    case None => Failure(UnknownReservation)
    case Some(i) =>
      var r := state.reservations[i];
      var target :- TargetOf(r, evidence);
      if r.stage == target.stage then
        if r.evidence == evidence.Digested() then Success(state) else Failure(EvidenceRewritten)
      else if expectedRevision != state.revision then Failure(StaleStateRevision)
      else if !Allowed(r.stage, target.stage) then Failure(InvalidTransition)
      else
        Success(Replaced(state, i, r.(stage := target.stage, evidence := evidence.Digested(), bound := target.bound)))
  }

  // ---- confirmations after a persisted compare-and-swap ----

  datatype Broker = Broker(identity: string, verifiedAt: nat, validUntil: nat)

  datatype Confirmation = Confirmation(
    operationId: string, persistedRevision: nat, persistedDigest: Digest, broker: Broker,
    evidence: string, persistedAt: nat)

  datatype ConfirmError =
    | ProposalNotDerived
    | ConfirmationDisagrees
    | MissingReservation
    | BudgetBindingIncomplete
    | ConfirmationTooEarly
    | BrokerNotCurrent
    | PermitExpired
    | ValidityPredatesIssuance

  predicate AllMatch(reservations: seq<Reservation>, budgets: seq<Budget>) {
    forall i | 0 <= i < |budgets| :: CensusMatches(reservations, budgets[i])
  }

  function Min(a: nat, b: nat): nat {
    if a < b then a else b
  }

  function EarliestEnd(bound: nat, budgets: seq<Budget>): nat {
    if budgets == [] then bound
    else Min(Min(budgets[0].limits.validUntil, budgets[0].census.validUntil), EarliestEnd(bound, budgets[1..]))
  }

  predicate Agrees(c: Confirmation, operationId: string, revision: nat, proposed: State, persisted: State) {
    && c.operationId == operationId && c.persistedRevision == revision
    && c.persistedDigest == OfState(proposed) && persisted == proposed
  }

  function ConfirmReservation(
    proposal: Proposal, original: State, request: Request, persisted: State, c: Confirmation)
    : Result<Permit, ConfirmError>
  {
    match Reserve(original, request, proposal.expectedRevision, c.persistedAt)
    case Proposed(_, derived) =>
      if derived != proposal then Failure(ProposalNotDerived)
      else if !Agrees(c, proposal.operationId, proposal.proposedRevision, proposal.proposed, persisted) then
        Failure(ConfirmationDisagrees)
      else
        (match Find(persisted.reservations, proposal.operationId)
         case None => Failure(MissingReservation)
         case Some(i) =>
           if !persisted.reservations[i].stage.Reserved? then
             Failure(MissingReservation)
           else
             var r := persisted.reservations[i];
             var budgets := Applicable(persisted.budgets, r.request.scope);
             if !HasRequired(budgets, r.request.scope) || !AllMatch(persisted.reservations, budgets) then
               Failure(BudgetBindingIncomplete)
             else if c.persistedAt < r.request.requestedAt then Failure(ConfirmationTooEarly)
             else if c.persistedAt < c.broker.verifiedAt || c.broker.validUntil < c.persistedAt then
               Failure(BrokerNotCurrent)
             else
               var validUntil :=
                 EarliestEnd(Min(c.broker.validUntil, r.request.exposure.validUntil), budgets);
               if validUntil < c.persistedAt then Failure(ValidityPredatesIssuance)
               else
                 Success(Permit(proposal.operationId, OfPrepared(r.request.prepared),
                                proposal.proposedRevision, proposal.proposedDigest,
                                c.broker.identity, r.request.prepared.producer.subject, AUDIENCE,
                                Bindings(budgets), validUntil, c.evidence, c.persistedAt)))
    case _ => Failure(ProposalNotDerived)
  }

  datatype Authorization = Authorization(
    operationId: string, permitDigest: Digest, stateRevision: nat, stateDigest: Digest,
    broker: string, presenter: string, audience: string, bindings: seq<PolicyBinding>,
    validUntil: nat, redemptionEvidence: string, issuedAt: nat)

  function ConfirmRedemption(
    proposal: Redemption, permit: Permit, presentation: Presentation, before: State, persisted: State,
    c: Confirmation) : Result<Authorization, ConfirmError>
  {
    if Redeem(before, permit, presentation, proposal.expectedRevision) != Success(proposal) then
      Failure(ProposalNotDerived)
    else if !Agrees(c, proposal.operationId, proposal.proposedRevision, proposal.proposed, persisted) then
      Failure(ConfirmationDisagrees)
    else
      match Find(persisted.reservations, proposal.operationId)
      case None => Failure(MissingReservation)
      case Some(i) =>
        if !persisted.reservations[i].stage.Submitting?
           || persisted.reservations[i].evidence != proposal.presentationDigest then
          Failure(MissingReservation)
        else
          var r := persisted.reservations[i];
          var budgets := Applicable(persisted.budgets, r.request.scope);
          if !HasRequired(budgets, r.request.scope) || !AllMatch(persisted.reservations, budgets) then
            Failure(BudgetBindingIncomplete)
          else if c.broker.identity != permit.broker || c.persistedAt < presentation.presentedAt
                  || c.persistedAt < c.broker.verifiedAt || c.broker.validUntil < c.persistedAt then
            Failure(BrokerNotCurrent)
          else if c.persistedAt > permit.validUntil then Failure(PermitExpired)
          else
            Success(Authorization(proposal.operationId, proposal.permitDigest, proposal.proposedRevision,
                                  proposal.proposedDigest, c.broker.identity, permit.presenter, permit.audience,
                                  permit.bindings, permit.validUntil, c.evidence, c.persistedAt))
  }
}
