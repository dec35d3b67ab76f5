/**
 What confirming a redemption depends on: the pre-redemption state is supplied by the
 caller, and only one the store held in the right place yields the revision at which
 the operation was redeemed.
 */
module PreRedemption {
  import opened Wrappers
  import opened Evidence
  import opened Admission
  import opened AdmissionRuns

  // ---- exactly when the revision is the redemption's ----

  /** An operation that became submitting after the start was redeemed by one step in between. */
  lemma {:induction false} RedeemingStep(h: seq<State>, operationId: string, n: nat) returns (r: nat)
    requires History(h) && h[0].Valid() && Contained(h[0]) && n < |h|
    requires StageAt(h[n], operationId, Submitting) && !StageAt(h[0], operationId, Submitting)
    ensures r < n && RedeemedAt(h, operationId, r)
  {
    hide History, Contained;
    HistoryStaysContained(h, n);
    if StageAt(h[n - 1], operationId, Submitting) {
      r := RedeemingStep(h, operationId, n - 1);
    } else {
      SubmittingWasReserved(h[n - 1], h[n], operationId);
      r := n - 1;
    }
  }

  lemma SubmittingWasReserved(state: State, next: State, operationId: string)
    requires Steps(state, next) && StageAt(next, operationId, Submitting) && !StageAt(state, operationId, Submitting)
    ensures StageAt(state, operationId, Reserved)
  {
    var k :| 0 <= k < |next.reservations| && next.reservations[k].request.OperationId() == operationId
             && next.reservations[k].stage == Submitting;
  }

  /**
   An operation that was not already submitting at the start was redeemed by exactly one
   step, and an authorization confirmed against a stored state carries the revision of
   that step if and only if the operation was still reserved in the state stored just
   before, whatever pre-redemption state the caller supplied.
   */
  lemma RevisionIsTheRedemption(
    h: seq<State>, proposal: Redemption, permit: Permit, presentation: Presentation, before: State, after: nat,
    c: Confirmation)
    returns (r: nat)
    requires History(h) && h[0].Valid() && Contained(h[0]) && after < |h|
    requires !StageAt(h[0], permit.operationId, Submitting)
    requires ConfirmRedemption(proposal, permit, presentation, before, h[after], c).Success?
    ensures r < after && RedeemedAt(h, permit.operationId, r)
    ensures forall i | RedeemedAt(h, permit.operationId, i) :: i == r
    ensures ConfirmRedemption(proposal, permit, presentation, before, h[after], c).value.stateRevision
         == h[r + 1].revision
       <==> StageAt(h[after - 1], permit.operationId, Reserved)
  {
    hide History, Contained, ConfirmRedemption, Redeem;
    ConfirmedRedemption(proposal, permit, presentation, before, h[after], c);
    assert StageAt(h[after], permit.operationId, Submitting);
    r := RedeemingStep(h, permit.operationId, after);
    forall i | RedeemedAt(h, permit.operationId, i)
      ensures i == r
    {
      RedeemedOnce(h, permit.operationId, i, r);
    }
    Revisions(h, after);
    Revisions(h, r + 1);
    if StageAt(h[after - 1], permit.operationId, Reserved) {
      assert RedeemedAt(h, permit.operationId, after - 1);
    }
  }

  // ---- a made-up pre-redemption state ----

  /** The conditions a redemption was granted under, apart from the state it replaced. */
  ghost predicate Redeemable(state: State, k: nat, permit: Permit, presentation: Presentation) {
    && k < |state.reservations|
    && state.reservations[k].request.OperationId() == permit.operationId
    && OfPrepared(state.reservations[k].request.prepared) == permit.preparedDigest
    && presentation.permitDigest == OfPermit(permit)
    && presentation.presenter == permit.presenter && presentation.audience == permit.audience
    && !presentation.revoked
    && permit.issuedAt <= presentation.presentedAt <= permit.validUntil
    && presentation.bindings == permit.bindings
    && Bindings(Applicable(state.budgets, state.reservations[k].request.scope)) == permit.bindings
    && HasRequired(Applicable(state.budgets, state.reservations[k].request.scope), state.reservations[k].request.scope)
    && permit.stateRevision < state.revision
  }

  lemma AuthorizedWasRedeemable(
    h: seq<State>, permit: Permit, presentation: Presentation, before: nat, after: nat, auth: Authorization)
    returns (k: nat)
    requires Authorizes(h, permit, presentation, before, after, auth)
    ensures Redeemable(h[after], k, permit, presentation)
  {
    hide AllMatch, CensusMatches;
    var proposal, c :| ConfirmRedemption(proposal, permit, presentation, h[before], h[after], c) == Success(auth);
    k := Find(h[before].reservations, permit.operationId).value;
    assert h[after].reservations[k].request == h[before].reservations[k].request;
    var found := Find(h[after].reservations, permit.operationId).value;
    FindSame(h[before].reservations, h[after].reservations, permit.operationId);
    assert found == k;
  }

  lemma {:induction false} FindSame(a: seq<Reservation>, b: seq<Reservation>, operationId: string)
    requires |a| == |b| && forall i | 0 <= i < |a| :: a[i].request == b[i].request
    ensures Find(a, operationId) == Find(b, operationId)
  {
    if a != [] {
      FindSame(a[1..], b[1..], operationId);
    }
  }

  lemma {:induction false} BindingsSame(a: seq<Budget>, b: seq<Budget>, leaf: Scope)
    requires |a| == |b| && forall i | 0 <= i < |a| :: a[i].scope == b[i].scope && a[i].limits == b[i].limits
    ensures Bindings(Applicable(a, leaf)) == Bindings(Applicable(b, leaf))
    ensures |Applicable(a, leaf)| == |Applicable(b, leaf)|
    ensures forall i | 0 <= i < |Applicable(a, leaf)| :: Applicable(a, leaf)[i].scope == Applicable(b, leaf)[i].scope
  {
    if a != [] {
      BindingsSame(a[1..], b[1..], leaf);
      var rest, rest' := Applicable(a[1..], leaf), Applicable(b[1..], leaf);
      assert Bindings([a[0]] + rest) == Bindings([a[0]]) + Bindings(rest);
      assert Bindings([b[0]] + rest') == Bindings([b[0]]) + Bindings(rest');
      assert [] + rest == rest && [] + rest' == rest';
    }
  }

  lemma StaysRedeemable(a: State, b: State, k: nat, permit: Permit, presentation: Presentation)
    requires Evolves(a, b) && a.revision <= b.revision && Redeemable(a, k, permit, presentation)
    ensures Redeemable(b, k, permit, presentation)
  {
    var leaf := a.reservations[k].request.scope;
    assert b.reservations[k].request == a.reservations[k].request;
    BindingsSame(a.budgets, b.budgets, leaf);
    var old', new' := Applicable(a.budgets, leaf), Applicable(b.budgets, leaf);
    assert (set i | 0 <= i < |old'| :: old'[i].scope) == (set i | 0 <= i < |new'| :: new'[i].scope);
  }

  /** A state like `state`, except that one redeemed reservation is reserved again. */
  function Unredeemed(state: State, k: nat): State
    requires k < |state.reservations| && state.revision > 0
  {
    state.(reservations := state.reservations[k := state.reservations[k].(stage := Reserved)],
           revision := state.revision - 1)
  }

  lemma UnredeemedRedeems(state: State, k: nat, permit: Permit, presentation: Presentation)
    requires state.Valid() && Redeemable(state, k, permit, presentation)
    requires state.reservations[k].stage == Submitting
    requires state.reservations[k].evidence == OfPresentation(presentation)
    ensures Unredeemed(state, k).Valid()
    ensures RedeemProposal(Unredeemed(state, k), permit, presentation, Unredeemed(state, k).revision) == Some(state)
  {
    var fake := Unredeemed(state, k);
    assert state.reservations[k].Valid();
    FindSame(state.reservations, fake.reservations, permit.operationId);
    assert Find(state.reservations, permit.operationId).Some?;
    assert Find(state.reservations, permit.operationId).value == k;
    assert state.reservations[k := state.reservations[k].(stage := Reserved)][k := state.reservations[k]]
        == state.reservations;
  }

  /**
   The state revision is pinned only by reading the pre-redemption state from the
   store: for any stored state in which the operation is still submitting, a
   pre-redemption state can be made up that the confirmation accepts, and it yields
   an authorization for the later revision.
   */
  lemma MadeUpStateShiftsTheRevision(
    h: seq<State>, permit: Permit, presentation: Presentation, before: nat, after: nat, auth: Authorization, n: nat,
    evidence: string)
    returns (fake: State, proposal: Redemption, c: Confirmation)
    requires History(h) && h[0].Valid() && Contained(h[0])
    requires Authorizes(h, permit, presentation, before, after, auth)
    requires after < n < |h| && StageAt(h[n], permit.operationId, Submitting)
    ensures ConfirmRedemption(proposal, permit, presentation, fake, h[n], c).Success?
    ensures ConfirmRedemption(proposal, permit, presentation, fake, h[n], c).value.stateRevision
         == h[n].revision > auth.stateRevision
    ensures c.evidence == evidence && c.persistedAt == c.broker.verifiedAt == c.broker.validUntil
    ensures c.persistedAt == presentation.presentedAt
    ensures fake !in h && fake.Valid()
  {
    AuthorizesRedemption(h, permit, presentation, before, after, auth);
    var k := AuthorizedWasRedeemable(h, permit, presentation, before, after, auth);
    Revisions(h, after);
    Revisions(h, n);
    HistoryEvolves(h, after, n);
    HistoryStaysContained(h, after);
    HistoryStaysContained(h, n);
    StaysRedeemable(h[after], h[n], k, permit, presentation);
    StillSubmitting(h[after], h[n], k, permit, presentation);
    fake := Unredeemed(h[n], k);
    UnredeemedRedeems(h[n], k, permit, presentation);
    proposal := Redeem(fake, permit, presentation, fake.revision).value;
    var t := presentation.presentedAt;
    c := Confirmation(permit.operationId, h[n].revision, OfState(h[n]), Broker(permit.broker, t, t), evidence, t);
    ConfirmsStored(h[n], k, permit, presentation, fake, proposal, c);
    assert StageAt(fake, permit.operationId, Reserved) by {
      assert fake.reservations[k].stage == Reserved;
      assert fake.reservations[k].request.OperationId() == permit.operationId;
    }
    forall j | 0 <= j < |h|
      ensures h[j] != fake
    {
      Revisions(h, j);
      if j >= after {
        StageNeverReturns(h, permit.operationId, after, j);
      }
    }
  }

  lemma StillSubmitting(a: State, b: State, k: nat, permit: Permit, presentation: Presentation)
    requires a.Valid() && b.Valid() && Evolves(a, b) && Redeemable(a, k, permit, presentation)
    requires SubmittingWith(a, permit, presentation) && StageAt(b, permit.operationId, Submitting)
    ensures b.reservations[k].stage == Submitting && b.reservations[k].evidence == OfPresentation(presentation)
  {
    var m :| 0 <= m < |b.reservations| && b.reservations[m].request.OperationId() == permit.operationId
             && b.reservations[m].stage == Submitting;
    var i :| 0 <= i < |a.reservations| && a.reservations[i].request.OperationId() == permit.operationId
             && a.reservations[i].stage == Submitting && a.reservations[i].evidence == OfPresentation(presentation);
    assert i == k;
    assert b.reservations[k].request == a.reservations[k].request;
    assert m == k;
  }

  lemma ConfirmsStored(
    state: State, k: nat, permit: Permit, presentation: Presentation, fake: State, proposal: Redemption,
    c: Confirmation)
    requires state.Valid() && Contained(state) && Redeemable(state, k, permit, presentation)
    requires state.reservations[k].stage == Submitting
    requires state.reservations[k].evidence == OfPresentation(presentation)
    requires Redeem(fake, permit, presentation, fake.revision) == Success(proposal) && proposal.proposed == state
    requires var t := presentation.presentedAt;
             c == Confirmation(permit.operationId, state.revision, OfState(state), Broker(permit.broker, t, t),
                               c.evidence, t)
    ensures ConfirmRedemption(proposal, permit, presentation, fake, state, c).Success?
    ensures ConfirmRedemption(proposal, permit, presentation, fake, state, c).value.stateRevision == state.revision
  {
    hide Redeem, Contained, CensusMatches, Applicable;
    RedeemNames(fake, permit, presentation);
    var i := Find(state.reservations, permit.operationId).value;
    assert i == k;
    ApplicableMatch(state, state.reservations[k].request.scope);
  }

  lemma RedeemNames(state: State, permit: Permit, presentation: Presentation)
    requires Redeem(state, permit, presentation, state.revision).Success?
    ensures var p := Redeem(state, permit, presentation, state.revision).value;
            && p.operationId == permit.operationId && p.presentationDigest == OfPresentation(presentation)
            && p.expectedRevision == state.revision
            && p.proposedRevision == p.proposed.revision && p.proposedDigest == OfState(p.proposed)
  {
  }

  lemma ApplicableMatch(state: State, leaf: Scope)
    requires Contained(state)
    ensures AllMatch(state.reservations, Applicable(state.budgets, leaf))
  {
    var budgets := Applicable(state.budgets, leaf);
    forall j | 0 <= j < |budgets|
      ensures CensusMatches(state.reservations, budgets[j])
    {
      ApplicableAre(state.budgets, leaf, budgets[j]);
      var m :| 0 <= m < |state.budgets| && state.budgets[m] == budgets[j];
    }
  }

  // ---- any two requests of one leaf make such a history ----

  /** Two requests of one leaf that can both be reserved at one time. */
  ghost predicate Reservable(first: Request, second: Request, now: nat) {
    && first.Valid() && second.Valid() && first.scope == second.scope
    && first.OperationId() != second.OperationId()
    && first.exposure.backendPolicy == second.exposure.backendPolicy
    && first.requestedAt <= now <= first.exposure.validUntil
    && second.requestedAt <= now <= second.exposure.validUntil
  }

  /** The names and digests that no rule compares. */
  datatype Labels = Labels(broker: string, policy: string, evidence: string)

  function StartBudget(scope: Scope, first: Request, second: Request, now: nat, labels: Labels): Budget {
    Budget(scope,
           Limits(2, 2, first.exposure.amount + second.exposure.amount, first.exposure.backendPolicy,
                  labels.policy, now),
           Census(0, 0, 0, 0, OfPopulation([]), Verified, Verified, Verified, Verified, now, now))
  }

  /** No reservations, and room for exactly these two. */
  function Start(first: Request, second: Request, now: nat, labels: Labels): State {
    State([StartBudget(OwnerScope(first.scope.chainId, first.scope.owner), first, second, now, labels),
           StartBudget(first.scope, first, second, now, labels)], [], 0)
  }

  ghost predicate TwoBudgets(state: State, leaf: Scope) {
    && leaf.LeafScope? && |state.budgets| == 2
    && state.budgets[0].scope == OwnerScope(leaf.chainId, leaf.owner) && state.budgets[1].scope == leaf
  }

  lemma BothApply(state: State, leaf: Scope)
    requires TwoBudgets(state, leaf)
    ensures Applicable(state.budgets, leaf) == state.budgets && HasRequired(state.budgets, leaf)
  {
    var last := state.budgets[1];
    assert state.budgets[1..] == [last];
    assert Applicable([last], leaf) == [last] + Applicable([], leaf) == [last];
    assert state.budgets == [state.budgets[0]] + [last];
  }

  /** Nothing holds the request back. */
  ghost predicate HasRoom(state: State, request: Request, now: nat) {
    && TwoBudgets(state, request.scope) && Find(state.reservations, request.OperationId()).None?
    && request.exposure.observedAt <= now <= request.exposure.validUntil
    && forall i | 0 <= i < 2 ::
         && CensusMatches(state.reservations, state.budgets[i])
         && state.budgets[i].limits.exposurePolicy == request.exposure.backendPolicy
         && Refusal(state, request, now, state.budgets[i]).None?
  }

  lemma Reserves(state: State, request: Request, now: nat)
    requires HasRoom(state, request, now)
    ensures Reserve(state, request, state.revision, now).Proposed?
    ensures Reserve(state, request, state.revision, now).proposal == ProposalFor(state, request)
  {
    hide CensusMatches, Refusal;
    BothApply(state, request.scope);
    var first, last := state.budgets[0], state.budgets[1];
    assert state.budgets[1..] == [last] && [last][1..] == [];
    assert BindingFault(state, request, [last]) == None;
    assert BindingFault(state, request, state.budgets) == None;
    assert Admit(state, request, now, []).Success?;
    assert Admit(state, request, now, [last]).Success?;
    assert Admit(state, request, now, state.budgets).Success?;
  }

  lemma StartHasRoom(first: Request, second: Request, now: nat, labels: Labels)
    requires Reservable(first, second, now)
    ensures var state := Start(first, second, now, labels);
            state.Valid() && Contained(state) && HasRoom(state, first, now)
  {
    hide UsageOf, Population, CensusMatches;
    var state := Start(first, second, now, labels);
    NothingHeld(state.budgets[0]);
    NothingHeld(state.budgets[1]);
    EmptyPopulation(state.budgets[0]);
    EmptyPopulation(state.budgets[1]);
  }

  /** After the first reservation there is room for the second. */
  lemma StillHasRoom(first: Request, second: Request, now: nat, labels: Labels)
    requires Reservable(first, second, now)
    ensures HasRoom(WithReservation(Start(first, second, now, labels), first), second, now)
  {
    hide UsageOf, Population;
    var start := Start(first, second, now, labels);
    var state := WithReservation(start, first);
    forall i | 0 <= i < 2
      ensures CensusMatches(state.reservations, state.budgets[i])
      ensures state.budgets[i].limits == start.budgets[i].limits
      ensures Refusal(state, second, now, state.budgets[i]).None?
    {
      ReserveUsage(start, first, i);
      NothingHeld(start.budgets[i]);
      EmptyPopulation(start.budgets[i]);
    }
    assert Find(state.reservations[1..], second.OperationId()) == None;
  }

  lemma NothingHeld(budget: Budget)
    ensures UsageOf([], budget) == Usage(budget.census.active, budget.census.unresolved, budget.census.exposure)
  {
  }

  lemma EmptyPopulation(budget: Budget)
    requires budget.census.excludedCount == 0 && budget.census.excludedPopulation == OfPopulation([])
    ensures CensusMatches([], budget)
  {
  }

  // ---- the permits are issued for persisted reservations ----

  /** The broker confirms a reservation at the time it was made. */
  function Persisted(state: State, request: Request, now: nat, labels: Labels): Confirmation {
    Confirmation(request.OperationId(), state.revision + 1, OfState(WithReservation(state, request)),
                 Broker(labels.broker, now, now), labels.evidence, now)
  }

  /** The permit was issued on a reservation of this request, persisted on this state. */
  ghost predicate IssuedOn(state: State, request: Request, now: nat, labels: Labels, permit: Permit) {
    ConfirmReservation(ProposalFor(state, request), state, request, WithReservation(state, request),
                       Persisted(state, request, now, labels)) == Success(permit)
  }

  ghost predicate Describes(permit: Permit, state: State, request: Request, now: nat, labels: Labels) {
    && permit.operationId == request.OperationId() && permit.preparedDigest == OfPrepared(request.prepared)
    && permit.stateRevision == state.revision + 1 && permit.bindings == Bindings(state.budgets)
    && permit.issuedAt == now <= permit.validUntil && permit.broker == labels.broker
  }

  lemma Issues(state: State, request: Request, now: nat, labels: Labels) returns (permit: Permit)
    requires state.Valid() && request.Valid() && Contained(state) && request.requestedAt <= now
    requires HasRoom(state, request, now)
    ensures IssuedOn(state, request, now, labels, permit) && Describes(permit, state, request, now, labels)
  {
    hide Refusal, Reserve, CensusMatches, Bindings, Contained, State.Valid, Request.Valid, EarliestEnd;
    Reserves(state, request, now);
    ReserveKeepsContained(state, request, state.revision, now);
    var proposal, next, c := ProposalFor(state, request), WithReservation(state, request),
                             Persisted(state, request, now, labels);
    var r := Reservation(request, Reserved, OfPrepared(request.prepared), None);
    FindAppended(state.reservations, r);
    BothApply(next, request.scope);
    ApplicableMatch(next, request.scope);
    hide HasRoom, TwoBudgets, Applicable, HasRequired, AllMatch;
    PermitValidityNeverPredatesIssuance(proposal, state, request, next, c);
    permit := ConfirmReservation(proposal, state, request, next, c).value;
    SameBindings(state, request);
  }

  lemma SameBindings(state: State, request: Request)
    ensures Bindings(WithReservation(state, request).budgets) == Bindings(state.budgets)
  {
  }

  // ---- both are redeemed ----

  function Present(permit: Permit, labels: Labels): Presentation {
    Presentation(OfPermit(permit), permit.presenter, permit.audience, permit.bindings, false, permit.issuedAt,
                 labels.evidence)
  }

  lemma Redeems(state: State, k: nat, permit: Permit, labels: Labels)
    requires k < |state.reservations| && Find(state.reservations, permit.operationId) == Some(k)
    requires TwoBudgets(state, state.reservations[k].request.scope)
    requires OfPrepared(state.reservations[k].request.prepared) == permit.preparedDigest
    requires state.reservations[k].stage == Reserved && permit.stateRevision <= state.revision
    requires Bindings(state.budgets) == permit.bindings && permit.issuedAt <= permit.validUntil
    ensures Redeem(state, permit, Present(permit, labels), state.revision).Success?
    ensures Redeem(state, permit, Present(permit, labels), state.revision).value.proposed
         == Replaced(state, k, state.reservations[k].(
                     stage := Submitting, evidence := OfPresentation(Present(permit, labels))))
  {
    hide Bindings, Find;
    BothApply(state, state.reservations[k].request.scope);
  }

  /** Reserved, reserved, redeemed, redeemed. */
  function RunOf(start: State, first: Request, second: Request, permit: Permit, other: Permit, labels: Labels)
    : seq<State>
    requires start.reservations == []
  {
    var one := WithReservation(start, first);
    var two := WithReservation(one, second);
    var three := Replaced(two, 0, two.reservations[0].(
                          stage := Submitting, evidence := OfPresentation(Present(permit, labels))));
    [start, one, two, three,
     Replaced(three, 1, three.reservations[1].(
              stage := Submitting, evidence := OfPresentation(Present(other, labels))))]
  }

  /** A run from no reservations to both redeemed, every permit issued on what the store held. */
  ghost predicate FullRun(
    h: seq<State>, first: Request, second: Request, now: nat, labels: Labels, permit: Permit, other: Permit)
  {
    && |h| == 5 && h[0].reservations == [] && h[0].revision == 0
    && ReserveProposal(h[0], first, 0, now) == Some(h[1]) && ReserveProposal(h[1], second, 1, now) == Some(h[2])
    && IssuedOn(h[0], first, now, labels, permit) && IssuedOn(h[1], second, now, labels, other)
    && RedeemProposal(h[2], permit, Present(permit, labels), 2) == Some(h[3])
    && RedeemProposal(h[3], other, Present(other, labels), 3) == Some(h[4])
  }

  lemma FullRunIsHistory(
    h: seq<State>, first: Request, second: Request, now: nat, labels: Labels, permit: Permit, other: Permit)
    requires FullRun(h, first, second, now, labels, permit, other) && first.Valid() && second.Valid()
    requires forall i | 0 < i < 5 :: h[i].revision == h[i - 1].revision + 1
    ensures History(h)
  {
    hide ReserveProposal, RedeemProposal, Request.Valid, IssuedOn;
    assert Proposes(h[0], h[1]) && Proposes(h[1], h[2]) && Proposes(h[2], h[3]) && Proposes(h[3], h[4]);
    assert Stored(h, 1) && Stored(h, 2) && Stored(h, 3) && Stored(h, 4);
  }

  lemma FullRunExists(first: Request, second: Request, now: nat, labels: Labels)
    returns (h: seq<State>, permit: Permit, other: Permit)
    requires Reservable(first, second, now)
    ensures FullRun(h, first, second, now, labels, permit, other)
    ensures h[0].Valid() && Contained(h[0])
    ensures forall i | 0 < i < 5 :: h[i].revision == h[i - 1].revision + 1
    ensures Describes(permit, h[0], first, now, labels)
    ensures StageAt(h[4], permit.operationId, Submitting)
    ensures var r := h[3].reservations;
            |r| > 0 && r[0].stage == Submitting && r[0].evidence == OfPresentation(Present(permit, labels))
    ensures Redeemable(h[3], 0, permit, Present(permit, labels))
  {
    hide Refusal, Reserve, Redeem, CensusMatches, Bindings, UsageOf, IssuedOn, State.Valid, Request.Valid;
    var start := Start(first, second, now, labels);
    StartHasRoom(first, second, now, labels);
    Reserves(start, first, now);
    ReserveKeepsContained(start, first, 0, now);
    permit := Issues(start, first, now, labels);
    var one := WithReservation(start, first);
    StillHasRoom(first, second, now, labels);
    Reserves(one, second, now);
    other := Issues(one, second, now, labels);
    h := RunOf(start, first, second, permit, other, labels);
    SameBindings(start, first);
    SameBindings(one, second);
    Found(h, first, second);
    Redeems(h[2], 0, permit, labels);
    Redeems(h[3], 1, other, labels);
    assert h[4].reservations[0].request == first && h[4].reservations[0].stage == Submitting;
    BothApply(h[3], first.scope);
  }

  lemma Found(h: seq<State>, first: Request, second: Request)
    requires |h| == 5 && first.OperationId() != second.OperationId()
    requires forall i | 2 <= i < 4 ::
               && |h[i].reservations| == 2
               && h[i].reservations[0].request == first && h[i].reservations[1].request == second
    ensures forall i | 2 <= i < 4 ::
              && Find(h[i].reservations, first.OperationId()) == Some(0)
              && Find(h[i].reservations, second.OperationId()) == Some(1)
  {
    forall i | 2 <= i < 4
      ensures Find(h[i].reservations, second.OperationId()) == Some(1)
    {
      assert h[i].reservations[1..] == [h[i].reservations[1]];
      assert Find([h[i].reservations[1]], second.OperationId()) == Some(0);
    }
  }

  /**
   For any two requests that one leaf can have reserved together there is a run of the
   store from no reservations on, with both permits issued for what the store held, in
   which the first operation's authorization carries revision 3, the revision of its
   redemption, and a state that was never stored yields a second one with revision 4.
   */
  lemma ShiftedRevisionExists(first: Request, second: Request, now: nat, labels: Labels)
    returns (h: seq<State>, permit: Permit, other: Permit, auth: Authorization, fake: State, proposal: Redemption,
             c: Confirmation)
    requires Reservable(first, second, now)
    ensures FullRun(h, first, second, now, labels, permit, other)
    ensures History(h) && h[0].Valid() && Contained(h[0])
    ensures Authorizes(h, permit, Present(permit, labels), 2, 3, auth) && auth.stateRevision == 3
    ensures ConfirmRedemption(proposal, permit, Present(permit, labels), fake, h[4], c).Success?
    ensures ConfirmRedemption(proposal, permit, Present(permit, labels), fake, h[4], c).value.stateRevision == 4
    ensures c.evidence == labels.evidence && c.persistedAt == c.broker.verifiedAt == c.broker.validUntil == now
    ensures fake !in h && fake.Valid()
  {
    hide History, Contained, Redeem, ConfirmRedemption, Redeemable, IssuedOn, ReserveProposal, Request.Valid;
    h, permit, other := FullRunExists(first, second, now, labels);
    FullRunIsHistory(h, first, second, now, labels, permit, other);
    HistoryStaysContained(h, 3);
    var presentation := Present(permit, labels);
    var redemption := Redeem(h[2], permit, presentation, 2).value;
    var confirmation :=
      Confirmation(permit.operationId, 3, OfState(h[3]), Broker(permit.broker, now, now), labels.evidence, now);
    ConfirmsStored(h[3], 0, permit, presentation, h[2], redemption, confirmation);
    auth := ConfirmRedemption(redemption, permit, presentation, h[2], h[3], confirmation).value;
    assert Authorizes(h, permit, presentation, 2, 3, auth);
    fake, proposal, c := MadeUpStateShiftsTheRevision(h, permit, presentation, 2, 3, auth, 4, labels.evidence);
  }

  /** A CI job's request at time 1, under any account, digest, policy revision and group name. */
  function CiRequest(
    operationId: string, ordinal: nat, owner: string, digest: string, revision: string, group: string): Request
  {
    Request(
      PreparedCreate(operationId, ordinal, Producer("owner/name", "20", "10", "issuer", "subject", digest),
                     Lifecycle("owner/name", "ci-runner", Some(1), Some(1), None, None),
                     Backend(SelfManaged, "backend"), owner, digest, digest, [Group(1, group)], 1, digest),
      LeafScope("chain", owner, "issuer", "10", "20", "owner/name", "ci-runner"),
      Exposure(1, revision, 1, 9, digest), 1)
  }

  /** Two operations of one CI job are such requests. */
  lemma CiRequestsAreReservable(
    a: string, b: string, owner: string, digest: string, revision: string, group: string)
    requires a != b
    ensures Reservable(CiRequest(a, 1, owner, digest, revision, group),
                       CiRequest(b, 2, owner, digest, revision, group), 1)
  {
  }
}
