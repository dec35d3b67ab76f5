/**
 Safety of the admission protocol over every run: any number of brokers propose from
 stale reads, and the store accepts a state only if it is the next revision.
 */
module AdmissionRuns {
  import opened Wrappers
  import opened Sorting
  import opened Admission

  /** Every census binding matches the live reservations and every ceiling holds. */
  ghost predicate Contained(state: State) {
    forall i | 0 <= i < |state.budgets| :: Holds(state.reservations, state.budgets[i])
  }

  predicate Holds(reservations: seq<Reservation>, budget: Budget) {
    CensusMatches(reservations, budget) && UsageOf(reservations, budget).Within(budget.limits)
  }

  // ---- sums over the reservations ----

  lemma {:induction false} HeldAppend(reservations: seq<Reservation>, r: Reservation, scope: Scope)
    ensures Held(reservations + [r], scope) == Held(reservations, scope).Plus(Share(r, scope))
  {
    if reservations == [] {
      assert [] + [r] == [r];
      assert Held([r][1..], scope) == Usage(0, 0, 0);
    } else {
      assert (reservations + [r])[1..] == reservations[1..] + [r];
      HeldAppend(reservations[1..], r, scope);
    }
  }

  lemma {:induction false} IdsAppend(reservations: seq<Reservation>, r: Reservation, scope: Scope)
    ensures IdsUnder(reservations + [r], scope)
         == IdsUnder(reservations, scope) + (if Applies(scope, r.request.scope) then [r.request.OperationId()] else [])
  {
    if reservations == [] {
      assert [] + [r] == [r];
    } else {
      assert (reservations + [r])[1..] == reservations[1..] + [r];
      IdsAppend(reservations[1..], r, scope);
    }
  }

  /** The same requests, each occupying no more than before. */
  ghost predicate Releases(before: seq<Reservation>, after: seq<Reservation>) {
    && |before| == |after|
    && forall i | 0 <= i < |before| ::
         after[i].request == before[i].request && Occupied(after[i]).AtMost(Occupied(before[i]))
  }

  lemma {:induction false} ReleaseShrinks(before: seq<Reservation>, after: seq<Reservation>, scope: Scope)
    requires Releases(before, after)
    ensures Held(after, scope).AtMost(Held(before, scope))
    ensures IdsUnder(after, scope) == IdsUnder(before, scope)
  {
    if before != [] {
      ReleaseShrinks(before[1..], after[1..], scope);
    }
  }

  lemma {:induction false} ApplicableAre(budgets: seq<Budget>, leaf: Scope, b: Budget)
    ensures b in Applicable(budgets, leaf) <==> b in budgets && Applies(b.scope, leaf)
  {
    if budgets != [] {
      ApplicableAre(budgets[1..], leaf, b);
      assert budgets == [budgets[0]] + budgets[1..];
    }
  }

  lemma {:induction false} AdmitMeans(state: State, request: Request, now: nat, budgets: seq<Budget>)
    requires Admit(state, request, now, budgets).Success?
    ensures |Admit(state, request, now, budgets).value| == |budgets|
    ensures forall i | 0 <= i < |budgets| ::
              && Refusal(state, request, now, budgets[i]).None?
              && Admit(state, request, now, budgets).value[i]
                 == Projection(budgets[i].scope, Projected(state, request, budgets[i]))
  {
    if budgets != [] {
      AdmitMeans(state, request, now, budgets[1..]);
    }
  }

  // ---- each accepted change keeps containment ----

  /** What one more reservation does to a budget, rebound or not. */
  lemma AppendUsage(reservations: seq<Reservation>, r: Reservation, b: Budget)
    ensures var after := reservations + [r];
            if Applies(b.scope, r.request.scope) then
              && UsageOf(after, Rebind(after, b)) == UsageOf(reservations, b).Plus(Occupied(r))
              && CensusMatches(after, Rebind(after, b))
            else
              && UsageOf(after, b) == UsageOf(reservations, b)
              && (CensusMatches(reservations, b) ==> CensusMatches(after, b))
  {
    hide Sort, LexLe, Held, IdsUnder;
    HeldAppend(reservations, r, b.scope);
    IdsAppend(reservations, r, b.scope);
    assert IdsUnder(reservations, b.scope) + [] == IdsUnder(reservations, b.scope);
  }

  /** Usage of a budget after the reservation, whether it applies to the request or not. */
  lemma ReserveUsage(state: State, request: Request, i: nat)
    requires i < |state.budgets|
    ensures var next, b := WithReservation(state, request), state.budgets[i];
            && |next.budgets| == |state.budgets|
            && next.budgets[i].scope == b.scope && next.budgets[i].limits == b.limits
            && UsageOf(next.reservations, next.budgets[i])
               == (if Applies(b.scope, request.scope) then Projected(state, request, b)
                   else UsageOf(state.reservations, b))
            && (CensusMatches(state.reservations, b) ==> CensusMatches(next.reservations, next.budgets[i]))
  {
    hide UsageOf, CensusMatches;
    var r := Reservation(request, Reserved, OfPrepared(request.prepared), None);
    AppendUsage(state.reservations, r, state.budgets[i]);
  }

  lemma ReserveProposes(state: State, request: Request, expectedRevision: nat, now: nat)
    requires Reserve(state, request, expectedRevision, now).Proposed?
    ensures var d := Reserve(state, request, expectedRevision, now);
            var budgets := Applicable(state.budgets, request.scope);
            && HasRequired(budgets, request.scope)
            && expectedRevision == state.revision
            && Find(state.reservations, request.OperationId()).None?
            && request.exposure.observedAt <= now <= request.exposure.validUntil
            && Admit(state, request, now, budgets) == Success(d.projections)
            && d.proposal == ProposalFor(state, request)
  {
  }

  lemma ReservedIsValid(state: State, request: Request)
    requires state.Valid() && request.Valid() && Find(state.reservations, request.OperationId()).None?
    ensures WithReservation(state, request).Valid()
  {
    var next := WithReservation(state, request);
    forall i | 0 <= i < |next.budgets|
      ensures next.budgets[i].scope == state.budgets[i].scope
    {
    }
  }

  lemma ReservedBudget(state: State, request: Request, now: nat, i: nat)
    requires Contained(state) && i < |state.budgets|
    requires Admit(state, request, now, Applicable(state.budgets, request.scope)).Success?
    ensures var next := WithReservation(state, request);
            && CensusMatches(next.reservations, next.budgets[i])
            && UsageOf(next.reservations, next.budgets[i]).Within(next.budgets[i].limits)
  {
    var budgets := Applicable(state.budgets, request.scope);
    AdmitMeans(state, request, now, budgets);
    ReserveUsage(state, request, i);
    var b := state.budgets[i];
    assert CensusMatches(state.reservations, b);
    if Applies(b.scope, request.scope) {
      ApplicableAre(state.budgets, request.scope, b);
      var k :| 0 <= k < |budgets| && budgets[k] == b;
      assert Refusal(state, request, now, budgets[k]).None?;
    }
  }

  lemma ReserveKeepsContained(state: State, request: Request, expectedRevision: nat, now: nat)
    requires state.Valid() && request.Valid() && Contained(state)
    requires Reserve(state, request, expectedRevision, now).Proposed?
    ensures var next := Reserve(state, request, expectedRevision, now).proposal.proposed;
            next.Valid() && Contained(next)
  {
    ReserveProposes(state, request, expectedRevision, now);
    ReservedIsValid(state, request);
    var next := WithReservation(state, request);
    forall i | 0 <= i < |next.budgets|
      ensures CensusMatches(next.reservations, next.budgets[i])
      ensures UsageOf(next.reservations, next.budgets[i]).Within(next.budgets[i].limits)
    {
      ReservedBudget(state, request, now, i);
    }
  }

  /** Every projection of an accepted proposal is the usage recomputed from the proposed state. */
  lemma ProjectionsAreUsage(state: State, request: Request, expectedRevision: nat, now: nat, k: nat)
    returns (i: nat)
    requires Reserve(state, request, expectedRevision, now).Proposed?
    requires k < |Reserve(state, request, expectedRevision, now).projections|
    ensures var d := Reserve(state, request, expectedRevision, now);
            var next := d.proposal.proposed;
            && i < |next.budgets|
            && next.budgets[i].scope == d.projections[k].scope
            && d.projections[k].usageAfter == UsageOf(next.reservations, next.budgets[i])
            && d.projections[k].usageAfter.Within(next.budgets[i].limits)
  {
    hide Reserve, Admit, Applicable, UsageOf, WithReservation;
    ReserveProposes(state, request, expectedRevision, now);
    var budgets := Applicable(state.budgets, request.scope);
    AdmitMeans(state, request, now, budgets);
    ApplicableAre(state.budgets, request.scope, budgets[k]);
    assert Refusal(state, request, now, budgets[k]).None?;
    i :| 0 <= i < |state.budgets| && state.budgets[i] == budgets[k];
    ReserveUsage(state, request, i);
  }

  function Rank(stage: Stage): nat {
    match stage
    case Reserved => 0
    case Submitting => 1
    case OutcomeUnknown => 2
    case NonCommitProven => 3
    case CommittedStage => 3
    case ExecutionClosed => 4
    case SettledStage => 5
  }

  /** One reservation moved to a later stage, nothing else changed. */
  ghost predicate Advances(state: State, next: State) {
    && next.budgets == state.budgets && next.revision == state.revision + 1
    && |next.reservations| == |state.reservations|
    && exists i | 0 <= i < |state.reservations| ::
         && next.reservations == state.reservations[i := next.reservations[i]]
         && next.reservations[i].request == state.reservations[i].request
         && Rank(state.reservations[i].stage) < Rank(next.reservations[i].stage)
         && (state.reservations[i].stage.Reserved? <==> next.reservations[i].stage.Submitting?)
         && next.reservations[i].Valid()
         && Occupied(next.reservations[i]).AtMost(Occupied(state.reservations[i]))
  }

  lemma AdvanceKeepsContained(state: State, next: State)
    requires state.Valid() && Contained(state) && Advances(state, next)
    ensures next.Valid() && Contained(next)
  {
    assert Releases(state.reservations, next.reservations);
    forall k | 0 <= k < |next.budgets|
      ensures CensusMatches(next.reservations, next.budgets[k])
      ensures UsageOf(next.reservations, next.budgets[k]).Within(next.budgets[k].limits)
    {
      ReleaseShrinks(state.reservations, next.reservations, state.budgets[k].scope);
      assert CensusMatches(state.reservations, state.budgets[k]);
    }
  }

  lemma RedeemAdvances(state: State, permit: Permit, presentation: Presentation, expectedRevision: nat)
    requires state.Valid() && Redeem(state, permit, presentation, expectedRevision).Success?
    ensures Advances(state, Redeem(state, permit, presentation, expectedRevision).value.proposed)
  {
    hide Applicable, Bindings;
    var i := Find(state.reservations, permit.operationId).value;
    var next := Redeem(state, permit, presentation, expectedRevision).value.proposed;
    assert state.reservations[i].Valid();
    assert next.reservations[i]
        == state.reservations[i].(stage := Submitting, evidence := OfPresentation(presentation));
  }

  /** A transition is a repetition of recorded evidence or the next stage of one reservation. */
  lemma TransitionAdvances(state: State, evidence: LifecycleEvidence, expectedRevision: nat)
    requires state.Valid() && Transition(state, evidence, expectedRevision).Success?
    ensures var next := Transition(state, evidence, expectedRevision).value;
            && (next == state || (Advances(state, next) && expectedRevision == state.revision))
            && (next == state <==>
                  exists i | 0 <= i < |state.reservations| ::
                    && state.reservations[i].request.OperationId() == evidence.OperationId()
                    && state.reservations[i].evidence == evidence.Digested()
                    && TargetOf(state.reservations[i], evidence).Success?
                    && TargetOf(state.reservations[i], evidence).value.stage == state.reservations[i].stage)
  {
    var i := Find(state.reservations, evidence.OperationId()).value;
    var r := state.reservations[i];
    assert r.Valid();
    var next := Transition(state, evidence, expectedRevision).value;
    if r.stage != TargetOf(r, evidence).value.stage {
      assert next.reservations[i].Valid();
      assert next.revision != state.revision;
    }
  }

  // ---- histories of the store ----

  /** Some broker, having read `base`, can propose `next`. */
  ghost predicate Proposes(base: State, next: State) {
    || (exists request: Request, expected: nat, now: nat ::
          request.Valid() && ReserveProposal(base, request, expected, now) == Some(next))
    || (exists permit, presentation, expected: nat ::
          RedeemProposal(base, permit, presentation, expected) == Some(next))
    || (exists evidence, expected: nat :: Transition(base, evidence, expected) == Success(next))
  }

  function ReserveProposal(base: State, request: Request, expected: nat, now: nat): Option<State> {
    match Reserve(base, request, expected, now)
    case Proposed(_, p) => Some(p.proposed)
    case _ => None
  }

  function RedeemProposal(base: State, permit: Permit, presentation: Presentation, expected: nat): Option<State> {
    match Redeem(base, permit, presentation, expected)
    case Success(p) => Some(p.proposed)
    case Failure(_) => None
  }

  /**
   A compare-and-swap history: each state was proposed from some earlier one, however
   stale, and was accepted because its revision is the next.
   */
  ghost predicate History(h: seq<State>) {
    h != [] && forall i: nat | 0 < i < |h| :: Stored(h, i)
  }

  ghost predicate Stored(h: seq<State>, i: nat)
    requires 0 < i < |h|
  {
    h[i].revision == h[i - 1].revision + 1 && exists j: nat | j < i :: Proposes(h[j], h[i])
  }

  lemma {:induction false} Revisions(h: seq<State>, i: nat)
    requires History(h) && i < |h|
    ensures h[i].revision == h[0].revision + i
  {
    hide Proposes;
    if i > 0 {
      assert Stored(h, i);
      Revisions(h, i - 1);
    }
  }

  /** A step that was accepted, and what it did. */
  ghost predicate Steps(state: State, next: State) {
    || Advances(state, next)
    || (exists request: Request :: request.Valid() && next == WithReservation(state, request)
                                   && Find(state.reservations, request.OperationId()).None?)
  }

  lemma ProposalSteps(base: State, next: State)
    requires base.Valid() && Contained(base) && Proposes(base, next)
    ensures next == base || (Steps(base, next) && next.revision == base.revision + 1)
    ensures next.Valid() && Contained(next)
  {
    if request: Request, expected: nat, now: nat :|
         request.Valid() && ReserveProposal(base, request, expected, now) == Some(next) {
      ReserveProposes(base, request, expected, now);
      ReserveKeepsContained(base, request, expected, now);
    } else if permit, presentation, expected: nat :|
                RedeemProposal(base, permit, presentation, expected) == Some(next) {
      RedeemAdvances(base, permit, presentation, expected);
      AdvanceKeepsContained(base, next);
    } else {
      var evidence, expected: nat :| Transition(base, evidence, expected) == Success(next);
      TransitionAdvances(base, evidence, expected);
      if next != base {
        AdvanceKeepsContained(base, next);
      }
    }
  }

  /**
   Safety over every run: from a contained state, every state the store ever holds is
   contained, and each was proposed from the very state it replaced.
   */
  lemma {:induction false} HistoryStaysContained(h: seq<State>, i: nat)
    requires History(h) && h[0].Valid() && Contained(h[0]) && i < |h|
    ensures h[i].Valid() && Contained(h[i])
    ensures i > 0 ==> Steps(h[i - 1], h[i])
  {
    hide Proposes, Steps, Contained, State.Valid;
    if i > 0 {
      assert Stored(h, i);
      var j: nat :| j < i && Proposes(h[j], h[i]);
      HistoryStaysContained(h, j);
      ProposalSteps(h[j], h[i]);
      Revisions(h, i);
      Revisions(h, j);
      assert j == i - 1;
    }
  }

  // ---- what never changes, and what only advances ----

  ghost predicate Evolves(a: State, b: State) {
    && |b.budgets| == |a.budgets|
    && (forall k | 0 <= k < |a.budgets| ::
          b.budgets[k].scope == a.budgets[k].scope && b.budgets[k].limits == a.budgets[k].limits)
    && |a.reservations| <= |b.reservations|
    && (forall k | 0 <= k < |a.reservations| ::
          && b.reservations[k].request == a.reservations[k].request
          && (b.reservations[k] == a.reservations[k]
              || Rank(a.reservations[k].stage) < Rank(b.reservations[k].stage)))
  }

  lemma StepEvolves(state: State, next: State)
    requires Steps(state, next)
    ensures Evolves(state, next)
  {
    if !Advances(state, next) {
      var request: Request :| request.Valid() && next == WithReservation(state, request)
                              && Find(state.reservations, request.OperationId()).None?;
      forall k | 0 <= k < |state.budgets|
        ensures next.budgets[k].scope == state.budgets[k].scope && next.budgets[k].limits == state.budgets[k].limits
      {
        ReserveUsage(state, request, k);
      }
    }
  }

  lemma {:induction false} HistoryEvolves(h: seq<State>, i: nat, j: nat)
    requires History(h) && h[0].Valid() && Contained(h[0]) && i <= j < |h|
    ensures Evolves(h[i], h[j])
  {
    hide Evolves, Steps, Contained, History, State.Valid;
    if i == j {
      EvolvesSelf(h[i]);
    } else {
      HistoryEvolves(h, i, j - 1);
      HistoryStaysContained(h, j);
      StepEvolves(h[j - 1], h[j]);
      EvolvesFurther(h[i], h[j - 1], h[j]);
    }
  }

  lemma EvolvesSelf(a: State)
    ensures Evolves(a, a)
  {
  }

  lemma EvolvesFurther(a: State, b: State, c: State)
    requires Evolves(a, b) && Evolves(b, c)
    ensures Evolves(a, c)
  {
    forall k | 0 <= k < |a.reservations|
      ensures c.reservations[k].request == a.reservations[k].request
      ensures c.reservations[k] == a.reservations[k] || Rank(a.reservations[k].stage) < Rank(c.reservations[k].stage)
    {
      assert b.reservations[k].request == a.reservations[k].request;
    }
  }

  // ---- permits and authorizations ----

  ghost predicate StageAt(state: State, operationId: string, stage: Stage) {
    exists k | 0 <= k < |state.reservations| ::
      state.reservations[k].request.OperationId() == operationId && state.reservations[k].stage == stage
  }

  ghost predicate RedeemedAt(h: seq<State>, operationId: string, i: nat) {
    i + 1 < |h| && StageAt(h[i], operationId, Reserved) && StageAt(h[i + 1], operationId, Submitting)
  }

  lemma NoReturn(a: State, b: State, operationId: string)
    requires Evolves(a, b) && b.Valid() && StageAt(a, operationId, Submitting)
    ensures !StageAt(b, operationId, Reserved)
  {
    hide Reservation.Valid;
    var k :| 0 <= k < |a.reservations| && a.reservations[k].request.OperationId() == operationId
             && a.reservations[k].stage == Submitting;
    assert b.reservations[k].request.OperationId() == operationId;
  }

  lemma StageNeverReturns(h: seq<State>, operationId: string, i: nat, j: nat)
    requires History(h) && h[0].Valid() && Contained(h[0]) && i <= j < |h|
    requires StageAt(h[i], operationId, Submitting)
    ensures !StageAt(h[j], operationId, Reserved)
  {
    hide History, Contained, Steps, StageAt, Evolves, State.Valid;
    HistoryEvolves(h, i, j);
    HistoryStaysContained(h, j);
    NoReturn(h[i], h[j], operationId);
  }

  /** In every history an operation is redeemed at most once. */
  lemma RedeemedOnce(h: seq<State>, operationId: string, i: nat, j: nat)
    requires History(h) && h[0].Valid() && Contained(h[0])
    requires RedeemedAt(h, operationId, i) && RedeemedAt(h, operationId, j)
    ensures i == j
  {
    if i < j {
      StageNeverReturns(h, operationId, i + 1, j);
    } else if j < i {
      StageNeverReturns(h, operationId, j + 1, i);
    }
  }

  /** What confirming a redemption establishes about the two states it was confirmed on. */
  ghost predicate IsRedemption(
    before: State, persisted: State, permit: Permit, presentation: Presentation, auth: Authorization)
  {
    && auth.operationId == permit.operationId && auth.permitDigest == OfPermit(permit)
    && auth.stateRevision == persisted.revision == before.revision + 1
    && auth.stateDigest == OfState(persisted)
    && permit.issuedAt <= presentation.presentedAt <= auth.issuedAt <= permit.validUntil
    && StageAt(before, permit.operationId, Reserved)
    && SubmittingWith(persisted, permit, presentation)
  }

  lemma ConfirmedRedemption(
    proposal: Redemption, permit: Permit, presentation: Presentation, before: State, persisted: State, c: Confirmation)
    requires ConfirmRedemption(proposal, permit, presentation, before, persisted, c).Success?
    ensures IsRedemption(before, persisted, permit, presentation,
                         ConfirmRedemption(proposal, permit, presentation, before, persisted, c).value)
  {
    hide Applicable, Bindings, HasRequired, AllMatch;
    var i := Find(before.reservations, permit.operationId).value;
    assert before.reservations[i].stage == Reserved;
    var k := Find(persisted.reservations, permit.operationId).value;
    assert persisted.reservations[k].stage == Submitting;
  }

  /** An authorization issued on states read from the store. */
  ghost predicate Authorizes(
    h: seq<State>, permit: Permit, presentation: Presentation, before: nat, after: nat, auth: Authorization)
  {
    && before < |h| && after < |h|
    && exists proposal, c :: ConfirmRedemption(proposal, permit, presentation, h[before], h[after], c) == Success(auth)
  }

  lemma AuthorizesRedemption(
    h: seq<State>, permit: Permit, presentation: Presentation, before: nat, after: nat, auth: Authorization)
    requires Authorizes(h, permit, presentation, before, after, auth)
    ensures before < |h| && after < |h| && IsRedemption(h[before], h[after], permit, presentation, auth)
  {
    var proposal, c :| ConfirmRedemption(proposal, permit, presentation, h[before], h[after], c) == Success(auth);
    ConfirmedRedemption(proposal, permit, presentation, h[before], h[after], c);
  }

  lemma RedemptionStep(
    h: seq<State>, permit: Permit, presentation: Presentation, before: nat, after: nat, auth: Authorization)
    requires History(h) && before < |h| && after < |h|
    requires IsRedemption(h[before], h[after], permit, presentation, auth)
    ensures after == before + 1 && RedeemedAt(h, auth.operationId, before)
  {
    Revisions(h, before);
    Revisions(h, after);
  }

  /**
   All authorizations issued for one operation, on states read from the store, carry
   the same permit digest and the same state revision, inside the permit's window.
   */
  lemma OneAuthorizationPerOperation(
    h: seq<State>,
    permit: Permit, presentation: Presentation, before: nat, after: nat, auth: Authorization,
    permit': Permit, presentation': Presentation, before': nat, after': nat, auth': Authorization)
    requires History(h) && h[0].Valid() && Contained(h[0])
    requires Authorizes(h, permit, presentation, before, after, auth)
    requires Authorizes(h, permit', presentation', before', after', auth')
    requires auth.operationId == auth'.operationId
    ensures auth.stateRevision == auth'.stateRevision && auth.stateDigest == auth'.stateDigest
    ensures auth.permitDigest == auth'.permitDigest && permit == permit'
    ensures permit.issuedAt <= auth.issuedAt <= permit.validUntil
  {
    AuthorizesRedemption(h, permit, presentation, before, after, auth);
    AuthorizesRedemption(h, permit', presentation', before', after', auth');
    RedemptionStep(h, permit, presentation, before, after, auth);
    RedemptionStep(h, permit', presentation', before', after', auth');
    RedeemedOnce(h, auth.operationId, before, before');
    SubmittingEvidence(h, after, permit, presentation, after', permit', presentation');
  }

  ghost predicate SubmittingWith(state: State, permit: Permit, presentation: Presentation) {
    && presentation.permitDigest == OfPermit(permit)
    && exists k | 0 <= k < |state.reservations| ::
         && state.reservations[k].request.OperationId() == permit.operationId
         && state.reservations[k].stage == Submitting
         && state.reservations[k].evidence == OfPresentation(presentation)
  }

  lemma SubmittingEvidence(
    h: seq<State>, i: nat, permit: Permit, presentation: Presentation,
    j: nat, permit': Permit, presentation': Presentation)
    requires History(h) && h[0].Valid() && Contained(h[0]) && i < |h| && j < |h|
    requires SubmittingWith(h[i], permit, presentation) && SubmittingWith(h[j], permit', presentation')
    requires permit.operationId == permit'.operationId
    ensures permit == permit' && presentation == presentation'
  {
    if i <= j {
      SubmittingEvidenceOrdered(h, i, permit, presentation, j, permit', presentation');
    } else {
      SubmittingEvidenceOrdered(h, j, permit', presentation', i, permit, presentation);
    }
  }

  lemma SubmittingEvidenceOrdered(
    h: seq<State>, i: nat, permit: Permit, presentation: Presentation,
    j: nat, permit': Permit, presentation': Presentation)
    requires History(h) && h[0].Valid() && Contained(h[0]) && i <= j < |h|
    requires SubmittingWith(h[i], permit, presentation) && SubmittingWith(h[j], permit', presentation')
    requires permit.operationId == permit'.operationId
    ensures permit == permit' && presentation == presentation'
  {
    hide History, Contained, Steps, Reservation.Valid;
    HistoryEvolves(h, i, j);
    HistoryStaysContained(h, j);
    var k :| 0 <= k < |h[i].reservations|
             && h[i].reservations[k].request.OperationId() == permit.operationId
             && h[i].reservations[k].stage == Submitting
             && h[i].reservations[k].evidence == OfPresentation(presentation);
    var m :| 0 <= m < |h[j].reservations|
             && h[j].reservations[m].request.OperationId() == permit.operationId
             && h[j].reservations[m].stage == Submitting
             && h[j].reservations[m].evidence == OfPresentation(presentation');
    assert h[j].reservations[k].request.OperationId() == permit.operationId;
    assert k == m;
  }

  /**
   The permit digest is pinned even when the pre-redemption state is not one the store
   held: two authorizations for one operation, confirmed against stored states, name
   the same permit.
   */
  lemma PermitDigestIsPinned(
    h: seq<State>,
    proposal: Redemption, permit: Permit, presentation: Presentation, before: State, after: nat, c: Confirmation,
    proposal': Redemption, permit': Permit, presentation': Presentation, before': State, after': nat, c': Confirmation)
    requires History(h) && h[0].Valid() && Contained(h[0]) && after < |h| && after' < |h|
    requires ConfirmRedemption(proposal, permit, presentation, before, h[after], c).Success?
    requires ConfirmRedemption(proposal', permit', presentation', before', h[after'], c').Success?
    requires permit.operationId == permit'.operationId
    ensures permit == permit' && presentation == presentation'
  {
    ConfirmedRedemption(proposal, permit, presentation, before, h[after], c);
    ConfirmedRedemption(proposal', permit', presentation', before', h[after'], c');
    SubmittingEvidence(h, after, permit, presentation, after', permit', presentation');
  }

  // ---- the reservation permit ----

  lemma {:induction false} EarliestEndBound(bound: nat, budgets: seq<Budget>, t: nat)
    ensures t <= EarliestEnd(bound, budgets)
       <==> t <= bound && forall i | 0 <= i < |budgets| ::
              t <= budgets[i].limits.validUntil && t <= budgets[i].census.validUntil
  {
    if budgets != [] {
      EarliestEndBound(bound, budgets[1..], t);
      assert forall i | 0 <= i < |budgets| :: i == 0 || budgets[i] == budgets[1..][i - 1];
    }
  }

  lemma {:induction false} FindAppended(reservations: seq<Reservation>, r: Reservation)
    requires Find(reservations, r.request.OperationId()).None?
    ensures Find(reservations + [r], r.request.OperationId()) == Some(|reservations|)
  {
    if reservations == [] {
      assert [] + [r] == [r];
    } else {
      assert (reservations + [r])[1..] == reservations[1..] + [r];
      FindAppended(reservations[1..], r);
    }
  }

  /**
   Issuing a permit never fails the check that its validity cannot predate its
   issuance: re-deriving the proposal at the persistence time bounds every term.
   */
  lemma PermitValidityNeverPredatesIssuance(
    proposal: Proposal, original: State, request: Request, persisted: State, c: Confirmation)
    ensures ConfirmReservation(proposal, original, request, persisted, c) != Failure(ValidityPredatesIssuance)
    ensures ConfirmReservation(proposal, original, request, persisted, c).Success? ==>
              var permit := ConfirmReservation(proposal, original, request, persisted, c).value;
              permit.issuedAt <= permit.validUntil && permit.issuedAt == c.persistedAt
  {
    hide Applicable, HasRequired, CensusMatches, Refusal, Bindings, AllMatch;
    var decision := Reserve(original, request, proposal.expectedRevision, c.persistedAt);
    if decision.Proposed? && decision.proposal == proposal
       && Agrees(c, proposal.operationId, proposal.proposedRevision, proposal.proposed, persisted) {
      ReserveProposes(original, request, proposal.expectedRevision, c.persistedAt);
      var r := Reservation(request, Reserved, OfPrepared(request.prepared), None);
      FindAppended(original.reservations, r);
      assert persisted == WithReservation(original, request);
      assert persisted.reservations == original.reservations + [r];
      assert persisted.reservations[|original.reservations|] == r;
      var budgets := Applicable(persisted.budgets, request.scope);
      var bound := Min(c.broker.validUntil, request.exposure.validUntil);
      ProposedBudgetsAreCurrent(original, request, proposal.expectedRevision, c.persistedAt);
      assert budgets == Applicable(WithReservation(original, request).budgets, request.scope);
      assert forall i | 0 <= i < |budgets| ::
          c.persistedAt <= budgets[i].limits.validUntil && c.persistedAt <= budgets[i].census.validUntil;
      EarliestEndBound(bound, budgets, c.persistedAt);
      assert Find(persisted.reservations, proposal.operationId) == Some(|original.reservations|);
      if c.persistedAt <= c.broker.validUntil {
        assert c.persistedAt <= bound;
        assert c.persistedAt <= EarliestEnd(bound, budgets);
      }
    }
  }

  /** Every budget of the proposed state that applies to the request is valid at the time it was derived. */
  lemma ProposedBudgetsAreCurrent(state: State, request: Request, expectedRevision: nat, now: nat)
    requires Reserve(state, request, expectedRevision, now).Proposed?
    ensures var budgets := Applicable(WithReservation(state, request).budgets, request.scope);
            forall i | 0 <= i < |budgets| ::
              now <= budgets[i].limits.validUntil && now <= budgets[i].census.validUntil
  {
    ReserveProposes(state, request, expectedRevision, now);
    var old' := Applicable(state.budgets, request.scope);
    AdmitMeans(state, request, now, old');
    var next := WithReservation(state, request);
    var budgets := Applicable(next.budgets, request.scope);
    forall i | 0 <= i < |budgets|
      ensures now <= budgets[i].limits.validUntil && now <= budgets[i].census.validUntil
    {
      ApplicableAre(next.budgets, request.scope, budgets[i]);
      var k :| 0 <= k < |next.budgets| && next.budgets[k] == budgets[i];
      assert next.budgets[k].scope == state.budgets[k].scope;
      ApplicableAre(state.budgets, request.scope, state.budgets[k]);
      var m :| 0 <= m < |old'| && old'[m] == state.budgets[k];
      assert Refusal(state, request, now, old'[m]).None?;
    }
  }
}
