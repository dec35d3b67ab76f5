/**
 The lifetime-liability ledger of one operation: an append-only record of financial
 effects whose charged debits stay within one maximum.

 A digest of canonical bytes is modelled as the value it digests. A native vector,
 sorted by denomination without repetition in the source, is a map. `detail` stands
 for the fields of a record that no rule reads.
 */
module Liability {
  import opened Wrappers
  import opened Evidence
  import Admission

  type Vector = map<string, nat>

  function Amount(v: Vector, denomination: string): nat {
    if denomination in v then v[denomination] else 0
  }

  /** `other` names no denomination `v` lacks, not even with amount zero, and asks for no more. */
  predicate Covers(v: Vector, other: Vector) {
    forall d | d in other :: d in v && other[d] <= v[d]
  }

  function Plus(a: Vector, b: Vector): Vector {
    map d | d in a.Keys + b.Keys :: Amount(a, d) + Amount(b, d)
  }

  function Total(vectors: seq<Vector>): Vector {
    if vectors == [] then map[]
    else Plus(Total(vectors[..|vectors| - 1]), vectors[|vectors| - 1])
  }

  lemma TotalPrefix(vectors: seq<Vector>, i: nat)
    requires i <= |vectors|
    ensures i == 0 ==> Total(vectors[..i]) == map[]
    ensures i < |vectors| ==> Total(vectors[..i + 1]) == Plus(Total(vectors[..i]), vectors[i])
  {
    if i < |vectors| {
      assert vectors[..i + 1][..i] == vectors[..i];
    }
  }

  /** `add_native_liabilities`: one running dictionary over every quantity of every vector. */
  method AddLiabilities(vectors: seq<Vector>) returns (amounts: Vector)
    ensures amounts == Total(vectors)
  {
    hide Total;
    amounts := map[];
    TotalPrefix(vectors, 0);
    for i := 0 to |vectors|
      invariant amounts == Total(vectors[..i])
    {
      var vector := vectors[i];
      var pending := vector.Keys;
      ghost var before := amounts;
      while pending != {}
        invariant pending <= vector.Keys
        invariant amounts.Keys == before.Keys + (vector.Keys - pending)
        invariant forall d | d in amounts ::
                    amounts[d] == Amount(before, d) + (if d in vector && d !in pending then vector[d] else 0)
        decreases pending
      {
        var d :| d in pending;
        amounts := amounts[d := Amount(amounts, d) + vector[d]];
        pending := pending - {d};
      }
      assert amounts == Plus(before, vector);
      TotalPrefix(vectors, i);
    }
    assert vectors[..|vectors|] == vectors;
  }

  lemma {:induction false} TotalReplace(vectors: seq<Vector>, i: nat, v: Vector, d: string)
    requires i < |vectors|
    ensures Amount(Total(vectors[i := v]), d) + Amount(vectors[i], d)
         == Amount(Total(vectors), d) + Amount(v, d)
    ensures Covers(vectors[i], v) && d in Total(vectors[i := v]) ==> d in Total(vectors)
  {
    var n := |vectors| - 1;
    if i == n {
      assert vectors[i := v][..n] == vectors[..n];
    } else {
      assert vectors[i := v][..n] == vectors[..n][i := v];
      TotalReplace(vectors[..n], i, v, d);
    }
  }

  // ---- records ----

  datatype Principal = Principal(issuer: string, subject: string, audience: string, detail: string)

  datatype PrincipalObservation = PrincipalObservation(
    principal: Principal, revocationEpoch: nat, active: bool, observedAt: nat, validUntil: nat, detail: string)
  {
    predicate ActiveAt(now: nat) {
      active && observedAt <= now <= validUntil
    }
  }

  datatype Purpose = Create | Deposit | FeeRefill | TransactionFee | Grant | Mint | Amendment

  datatype Registration = Registration(
    chainId: string, owner: string, backend: Backend, principal: Principal, casDomain: string,
    policyRevision: string, writers: string, leaves: set<Admission.Scope>, wallets: set<string>,
    purposes: set<Purpose>, observedAt: nat, validUntil: nat, detail: string)

  datatype Basis = Basis(amount: nat, observedAt: nat, validUntil: nat, detail: string)

  /** A basis names the same native maximum and policy by construction. */
  datatype Maximum = Maximum(
    prepared: PreparedCreate, leaf: Admission.Scope, casDomain: string, policyRevision: string,
    writers: string, native: Vector, basis: Option<Basis>, observedAt: nat, validUntil: nat, detail: string)

  datatype Intent = Intent(
    operationId: string, effectId: string, attemptId: string, quote: Maximum, registration: Registration,
    principal: Principal, revocationEpoch: nat, subject: DeploymentKey, wallet: string, purpose: Purpose,
    signDocument: string, accountSequence: nat, maximumDebit: Vector, feeDebit: Vector, createdAt: nat,
    detail: string)
  {
    ghost predicate Valid() {
      && Covers(maximumDebit, feeDebit)
      && (purpose.TransactionFee? ==> maximumDebit == feeDebit)
    }
  }

  datatype Stage = SignReservedUnknown | Signed | BroadcastClaimedUnknown | Confirmed | Failed | ProvenNotSigned

  /** An observation carries exactly the fields its stage requires. */
  datatype Outcome =
    | SignedOutcome(transactionHash: string)
    | BroadcastOutcome(transactionHash: string, principal: PrincipalObservation)
    | ConfirmedOutcome(transactionHash: string, debit: Vector)
    | FailedOutcome(transactionHash: string, debit: Vector, code: nat)
    | NotSignedOutcome
  {
    function Stage(): Stage {
      match this
      case SignedOutcome(_) => Signed
      case BroadcastOutcome(_, _) => BroadcastClaimedUnknown
      case ConfirmedOutcome(_, _) => Confirmed
      case FailedOutcome(_, _, _) => Failed
      case NotSignedOutcome => ProvenNotSigned
    }

    function Hash(): Option<string> {
      if NotSignedOutcome? then None else Some(transactionHash)
    }
  }

  datatype Observation = Observation(intent: Intent, outcome: Outcome, observedAt: nat, detail: string)

  // ---- one effect and its observations ----

  predicate Next(prior: Stage, stage: Stage) {
    match prior
    case SignReservedUnknown => stage == Signed || stage == ProvenNotSigned
    case Signed => stage == BroadcastClaimedUnknown
    case BroadcastClaimedUnknown => stage == Confirmed || stage == Failed
    case _ => false
  }

  /** Whether an observation may follow what the loop has kept of the earlier ones. */
  predicate Follows(intent: Intent, prior: Stage, previousTime: nat, transaction: Option<string>, o: Observation) {
    && Next(prior, o.outcome.Stage())
    && previousTime <= o.observedAt
    && o.intent == intent
    && (transaction.Some? ==> o.outcome.Hash() == transaction)
    && (o.outcome.BroadcastOutcome? ==>
          && o.outcome.principal.principal == intent.principal
          && o.outcome.principal.revocationEpoch == intent.revocationEpoch
          && o.outcome.principal.ActiveAt(o.observedAt))
    && (o.outcome.ConfirmedOutcome? || o.outcome.FailedOutcome? ==>
          Covers(intent.maximumDebit, o.outcome.debit) && Covers(o.outcome.debit, intent.feeDebit))
  }

  function StageAfter(observations: seq<Observation>): Stage {
    if observations == [] then SignReservedUnknown else observations[|observations| - 1].outcome.Stage()
  }

  function TimeAfter(intent: Intent, observations: seq<Observation>): nat {
    if observations == [] then intent.createdAt else observations[|observations| - 1].observedAt
  }

  function TransactionAfter(observations: seq<Observation>): Option<string> {
    if observations == [] then None else observations[|observations| - 1].outcome.Hash()
  }

  datatype Effect = Effect(intent: Intent, observations: seq<Observation>) {
    function Stage(): Stage {
      StageAfter(observations)
    }

    function Charged(): Vector {
      if observations == [] then intent.maximumDebit
      else
        match observations[|observations| - 1].outcome
        case NotSignedOutcome => map[]
        case ConfirmedOutcome(_, debit) => debit
        case FailedOutcome(_, debit, _) => debit
        case _ => intent.maximumDebit
    }
  }

  predicate AcceptsNext(effect: Effect, o: Observation) {
    Follows(effect.intent, effect.Stage(), TimeAfter(effect.intent, effect.observations),
            TransactionAfter(effect.observations), o)
  }

  /** Every observation follows the ones before it. */
  predicate Recorded(effect: Effect) {
    forall i | 0 <= i < |effect.observations| ::
      AcceptsNext(Effect(effect.intent, effect.observations[..i]), effect.observations[i])
  }

  lemma NothingFollowsNoSignature(intent: Intent, time: nat, transaction: Option<string>, o: Observation)
    ensures !Follows(intent, ProvenNotSigned, time, transaction, o)
  {
  }

  /** The validation loop of an effect record, which keeps the last transaction hash that was given. */
  method CheckRecord(effect: Effect) returns (accepted: bool)
    ensures accepted == Recorded(effect)
  {
    hide Follows;
    var prior := SignReservedUnknown;
    var previousTime := effect.intent.createdAt;
    var transaction: Option<string> := None;
    for i := 0 to |effect.observations|
      invariant forall k | 0 <= k < i ::
                  AcceptsNext(Effect(effect.intent, effect.observations[..k]), effect.observations[k])
      invariant prior == StageAfter(effect.observations[..i])
      invariant previousTime == TimeAfter(effect.intent, effect.observations[..i])
      invariant prior == ProvenNotSigned || transaction == TransactionAfter(effect.observations[..i])
    {
      var o := effect.observations[i];
      if prior == ProvenNotSigned {
        NothingFollowsNoSignature(effect.intent, previousTime, transaction, o);
        NothingFollowsNoSignature(effect.intent, previousTime, TransactionAfter(effect.observations[..i]), o);
      }
      if !Follows(effect.intent, prior, previousTime, transaction, o) {
        assert !AcceptsNext(Effect(effect.intent, effect.observations[..i]), o);
        return false;
      }
      if o.outcome.Hash().Some? {
        transaction := o.outcome.Hash();
      }
      prior := o.outcome.Stage();
      previousTime := o.observedAt;
      assert effect.observations[..i + 1][|effect.observations[..i + 1]| - 1] == o;
    }
    return true;
  }

  lemma FourthIsRefused(effect: Effect)
    requires |effect.observations| > 3
    ensures !Recorded(effect)
  {
    var obs := effect.observations;
    assert obs[..1][0] == obs[0] && obs[..2][1] == obs[1] && obs[..3][2] == obs[2];
    if AcceptsNext(Effect(effect.intent, obs[..1]), obs[1]) && AcceptsNext(Effect(effect.intent, obs[..2]), obs[2]) {
      assert !AcceptsNext(Effect(effect.intent, obs[..3]), obs[3]);
    }
  }

  /** A recorded effect runs from signing to one settled outcome under one transaction, or was never signed. */
  lemma RecordShape(effect: Effect)
    requires Recorded(effect)
    ensures |effect.observations| <= 3
    ensures effect.Stage().ProvenNotSigned? <==>
              effect.observations != [] && effect.observations[0].outcome == NotSignedOutcome
    ensures effect.Stage().ProvenNotSigned? ==> |effect.observations| == 1
    ensures (effect.Stage().Confirmed? || effect.Stage().Failed?) <==> |effect.observations| == 3
    ensures !effect.Stage().ProvenNotSigned? ==>
              forall i, j | 0 <= i < j < |effect.observations| ::
                effect.observations[i].outcome.Hash() == effect.observations[j].outcome.Hash()
    ensures forall i, j | 0 <= i < j < |effect.observations| ::
              effect.intent.createdAt <= effect.observations[i].observedAt <= effect.observations[j].observedAt
  {
    var obs := effect.observations;
    if |obs| > 3 {
      FourthIsRefused(effect);
    }
    if |obs| > 0 {
      assert AcceptsNext(Effect(effect.intent, obs[..0]), obs[0]);
    }
    if |obs| > 1 {
      assert obs[..1][|obs[..1]| - 1] == obs[0];
      assert AcceptsNext(Effect(effect.intent, obs[..1]), obs[1]);
    }
    if |obs| > 2 {
      assert obs[..2][|obs[..2]| - 1] == obs[1];
      assert AcceptsNext(Effect(effect.intent, obs[..2]), obs[2]);
    }
  }

  lemma RecordGrows(effect: Effect, o: Observation)
    requires Recorded(effect)
    ensures Recorded(Effect(effect.intent, effect.observations + [o])) <==> AcceptsNext(effect, o)
  {
    var grown := Effect(effect.intent, effect.observations + [o]);
    var n := |effect.observations|;
    assert grown.observations[..n] == effect.observations;
    assert forall i | 0 <= i < n :: grown.observations[..i] == effect.observations[..i];
    assert Recorded(grown) ==> AcceptsNext(Effect(grown.intent, grown.observations[..n]), grown.observations[n]);
  }

  /** The charge only shrinks, and keeps covering the fees unless nothing was signed. */
  lemma ChargeShrinks(effect: Effect, o: Observation)
    requires Recorded(effect) && effect.intent.Valid() && AcceptsNext(effect, o)
    ensures var grown := Effect(effect.intent, effect.observations + [o]);
            && effect.Charged() == effect.intent.maximumDebit
            && Covers(effect.Charged(), grown.Charged())
            && (grown.Stage().ProvenNotSigned? || Covers(grown.Charged(), effect.intent.feeDebit))
  {
  }

  // ---- the operation state ----

  /** The digest of the previous state is that state. */
  datatype State = State(maximum: Maximum, revision: nat, previous: Option<State>, effects: seq<Effect>) {
    predicate Valid() {
      && (revision == 0 <==> previous.None?)
      && revision == Events(effects)
      && Distinct(effects)
      && MappedOnce(effects)
      && Bound(maximum, effects)
      && Covers(maximum.native, Usage(this))
    }
  }

  function Events(effects: seq<Effect>): nat {
    if effects == [] then 0
    else Events(effects[..|effects| - 1]) + 1 + |effects[|effects| - 1].observations|
  }

  function Charges(effects: seq<Effect>): seq<Vector> {
    seq(|effects|, i requires 0 <= i < |effects| => effects[i].Charged())
  }

  function Usage(state: State): Vector {
    Total(Charges(state.effects))
  }

  /** Identities, signing documents and wallet sequences are permanent and unique. */
  predicate Distinct(effects: seq<Effect>) {
    forall i, j | 0 <= i < j < |effects| :: Unshared(effects[i].intent, effects[j].intent)
  }

  predicate Unshared(a: Intent, b: Intent) {
    && a.effectId != b.effectId && a.attemptId != b.attemptId && a.signDocument != b.signDocument
    && (a.wallet, a.accountSequence) != (b.wallet, b.accountSequence)
  }

  /** One deployment, created first, and funded only after its create was confirmed. */
  predicate MappedOnce(effects: seq<Effect>) {
    effects != [] ==>
      && effects[0].intent.purpose.Create?
      && forall i | 1 <= i < |effects| ::
           && effects[i].intent.subject == effects[0].intent.subject
           && !effects[i].intent.purpose.Create? && !effects[i].intent.purpose.Amendment?
           && effects[0].Stage().Confirmed?
           && TimeAfter(effects[0].intent, effects[0].observations) <= effects[i].intent.createdAt
  }

  predicate Bound(maximum: Maximum, effects: seq<Effect>) {
    forall i | 0 <= i < |effects| ::
      && effects[i].intent.operationId == maximum.prepared.operationId
      && effects[i].intent.quote == maximum
      && effects[i].intent.subject.owner == maximum.leaf.owner
  }

  /** A state and all of its records, as their constructors accept them. */
  ghost predicate Retained(state: State) {
    && state.Valid()
    && forall i | 0 <= i < |state.effects| :: state.effects[i].intent.Valid() && Recorded(state.effects[i])
  }

  // ---- proposals ----

  datatype Commit = Commit(
    casDomain: string, chainId: string, owner: string, operationId: string,
    financialRevision: nat, financialState: State, observedAt: nat, detail: string)

  datatype TransitionError =
    | CommitDoesNotBind
    | CommitPredatesState
    | CommitFromFuture
    | MaximumNotCurrent
    | PrincipalNotCurrent
    | ActorDiffers
    | ActorCannotPerform
    | AlreadyRetained
    | CreateRequired
    | ReplacementCreate
    | CreateNotConfirmed
    | ObservationNotCurrent
    | EffectMissing
    | HistoryRewritten
    | StateRefused

  predicate Binds(state: State, commit: Commit) {
    && commit.casDomain == state.maximum.casDomain && commit.chainId == state.maximum.leaf.chainId
    && commit.owner == state.maximum.leaf.owner && commit.operationId == state.maximum.prepared.operationId
    && commit.financialRevision == state.revision && commit.financialState == state
  }

  /** Not earlier than any retained time; the maximum's own time counts only while nothing was observed. */
  predicate NotBefore(state: State, time: nat) {
    && ((forall i | 0 <= i < |state.effects| :: state.effects[i].observations == []) ==>
          state.maximum.observedAt <= time)
    && forall i | 0 <= i < |state.effects| ::
         && state.effects[i].intent.createdAt <= time
         && forall o | o in state.effects[i].observations :: o.observedAt <= time
  }

  function CheckCommit(state: State, commit: Commit, now: nat): Option<TransitionError> {
    if !Binds(state, commit) then Some(CommitDoesNotBind)
    else if !NotBefore(state, commit.observedAt) then Some(CommitPredatesState)
    else if commit.observedAt > now then Some(CommitFromFuture)
    else None
  }

  /** What the state constructor makes of a proposed state. */
  function Construct(state: State): Result<State, TransitionError> {
    if state.Valid() then Success(state) else Failure(StateRefused)
  }

  function ProposeMaximum(maximum: Maximum, now: nat): Result<State, TransitionError> {
    if !(maximum.observedAt <= now <= maximum.validUntil) then Failure(MaximumNotCurrent)
    else if maximum.basis.Some? && !(maximum.basis.value.observedAt <= now <= maximum.basis.value.validUntil) then
      Failure(MaximumNotCurrent)
    else Construct(State(maximum, 0, None, []))
  }

  predicate PrincipalCurrent(intent: Intent, registration: Registration, o: PrincipalObservation, now: nat) {
    && intent.principal == registration.principal == o.principal
    && intent.registration == registration
    && intent.revocationEpoch == o.revocationEpoch
    && o.ActiveAt(now)
    && registration.observedAt <= now <= registration.validUntil
    && intent.createdAt == now
  }

  predicate SameActor(q: Maximum, registration: Registration) {
    && registration.chainId == q.leaf.chainId && registration.owner == q.leaf.owner
    && registration.backend == q.prepared.backend && registration.casDomain == q.casDomain
    && registration.policyRevision == q.policyRevision && registration.writers == q.writers
  }

  predicate MayPerform(q: Maximum, registration: Registration, intent: Intent) {
    && q.leaf in registration.leaves && intent.wallet in registration.wallets
    && intent.purpose in registration.purposes && !intent.purpose.Amendment?
  }

  function ProposeEffect(
    state: State, intent: Intent, registration: Registration, o: PrincipalObservation, commit: Commit, now: nat)
    : Result<State, TransitionError>
  {
    var fault := CheckCommit(state, commit, now);
    if fault.Some? then Failure(fault.value)
    else if !PrincipalCurrent(intent, registration, o, now) then Failure(PrincipalNotCurrent)
    else if !SameActor(state.maximum, registration) then Failure(ActorDiffers)
    else if !MayPerform(state.maximum, registration, intent) then Failure(ActorCannotPerform)
    else if exists i | 0 <= i < |state.effects| ::
              state.effects[i].intent.effectId == intent.effectId
              || state.effects[i].intent.attemptId == intent.attemptId then
      Failure(AlreadyRetained)
    else if state.effects == [] && !intent.purpose.Create? then Failure(CreateRequired)
    else if state.effects != [] && intent.purpose.Create? then Failure(ReplacementCreate)
    else if state.effects != [] && !state.effects[0].Stage().Confirmed? then Failure(CreateNotConfirmed)
    else Construct(WithEffect(state, intent))
  }

  function WithEffect(state: State, intent: Intent): State {
    State(state.maximum, state.revision + 1, Some(state), state.effects + [Effect(intent, [])])
  }

  /** The positions of the effects with this identity. */
  function Matches(effects: seq<Effect>, effectId: string): (m: seq<nat>)
    ensures forall k | 0 <= k < |m| :: m[k] < |effects| && effects[m[k]].intent.effectId == effectId
  {
    if effects == [] then []
    else
      var n := |effects| - 1;
      Matches(effects[..n], effectId) + (if effects[n].intent.effectId == effectId then [n] else [])
  }

  function ProposeObservation(state: State, effectId: string, o: Observation, commit: Commit, now: nat)
    : Result<State, TransitionError>
  {
    var fault := CheckCommit(state, commit, now);
    if fault.Some? then Failure(fault.value)
    else if o.observedAt > now then Failure(ObservationNotCurrent)
    else if o.outcome.BroadcastOutcome? && (o.observedAt != now || !o.outcome.principal.ActiveAt(now)) then
      Failure(ObservationNotCurrent)
    else if |Matches(state.effects, effectId)| != 1 then Failure(EffectMissing)
    else
      var i := Matches(state.effects, effectId)[0];
      if !Recorded(Observed(state.effects[i], o)) then Failure(HistoryRewritten)
      else Construct(WithObservation(state, i, o))
  }

  function Observed(effect: Effect, o: Observation): Effect {
    Effect(effect.intent, effect.observations + [o])
  }

  function WithObservation(state: State, i: nat, o: Observation): State
    requires i < |state.effects|
  {
    State(state.maximum, state.revision + 1, Some(state), state.effects[i := Observed(state.effects[i], o)])
  }
}
