/**
 What every run of financial proposals keeps: usage within the lifetime maximum, every
 intent and attempt, and a chain of states that the latest one determines.
 */
module LiabilityRuns {
  import opened Wrappers
  import opened AppendOnly
  import opened Liability

  // ---- proposing an effect ----

  lemma EventsReplace(effects: seq<Effect>, i: nat, o: Observation)
    requires i < |effects|
    ensures Events(effects[i := Observed(effects[i], o)]) == Events(effects) + 1
  {
    var n := |effects| - 1;
    var next := effects[i := Observed(effects[i], o)];
    if i == n {
      assert next[..n] == effects[..n];
    } else {
      assert next[..n] == effects[..n][i := Observed(effects[..n][i], o)];
      EventsReplace(effects[..n], i, o);
    }
  }

  /** A proposed effect raises usage by exactly its maximum debit. */
  lemma EffectRaisesUsage(state: State, intent: Intent)
    ensures Usage(WithEffect(state, intent)) == Plus(Usage(state), intent.maximumDebit)
    ensures forall d :: Amount(Usage(WithEffect(state, intent)), d)
                     == Amount(Usage(state), d) + Amount(intent.maximumDebit, d)
  {
    var charges := Charges(WithEffect(state, intent).effects);
    assert charges[..|charges| - 1] == Charges(state.effects);
  }

  /** An intent that shares nothing permanent with a retained one and stays with the mapped deployment. */
  predicate Admissible(state: State, intent: Intent) {
    && (forall i | 0 <= i < |state.effects| :: Unshared(state.effects[i].intent, intent))
    && (state.effects != [] ==> intent.subject == state.effects[0].intent.subject)
    && Bound(state.maximum, [Effect(intent, [])])
  }

  /** Every check a proposal makes before it constructs the next state. */
  predicate Authorized(
    state: State, intent: Intent, registration: Registration, o: PrincipalObservation, commit: Commit, now: nat)
  {
    && CheckCommit(state, commit, now).None?
    && PrincipalCurrent(intent, registration, o, now)
    && SameActor(state.maximum, registration) && MayPerform(state.maximum, registration, intent)
    && (state.effects == [] <==> intent.purpose.Create?)
    && (state.effects != [] ==> state.effects[0].Stage().Confirmed?)
  }

  predicate AlreadyKnown(state: State, intent: Intent) {
    exists i | 0 <= i < |state.effects| ::
      state.effects[i].intent.effectId == intent.effectId || state.effects[i].intent.attemptId == intent.attemptId
  }

  lemma EffectChecks(
    state: State, intent: Intent, registration: Registration, o: PrincipalObservation, commit: Commit, now: nat)
    ensures var r := ProposeEffect(state, intent, registration, o, commit, now);
            && (r.Success? <==> Authorized(state, intent, registration, o, commit, now)
                                && !AlreadyKnown(state, intent) && WithEffect(state, intent).Valid())
            && (r.Success? ==> r.value == WithEffect(state, intent))
  {
  }

  /** What the state constructor still refuses once the create precedes the funding. */
  lemma EffectConstructs(state: State, intent: Intent)
    requires state.Valid()
    requires (state.effects == [] <==> intent.purpose.Create?) && !intent.purpose.Amendment?
    requires state.effects != [] ==>
               state.effects[0].Stage().Confirmed?
               && TimeAfter(state.effects[0].intent, state.effects[0].observations) <= intent.createdAt
    ensures WithEffect(state, intent).Valid()
       <==> Admissible(state, intent) && Covers(state.maximum.native, Plus(Usage(state), intent.maximumDebit))
  {
    var next := WithEffect(state, intent);
    EffectRaisesUsage(state, intent);
    assert next.effects[..|next.effects| - 1] == state.effects;
    MappedGrows(state.effects, intent);
    DistinctGrows(state, intent);
    BoundGrows(state, intent);
  }

  /**
   Exactly when an effect is accepted: authorized, sharing no permanent identity, and
   within what is left of the maximum. That funding follows the confirmed create in time
   needs no check: the commit already post-dates every retained observation.
   */
  lemma EffectAccepted(
    state: State, intent: Intent, registration: Registration, o: PrincipalObservation, commit: Commit, now: nat)
    requires Retained(state) && intent.Valid()
    ensures ProposeEffect(state, intent, registration, o, commit, now).Success? <==>
              && Authorized(state, intent, registration, o, commit, now)
              && Admissible(state, intent)
              && Covers(state.maximum.native, Plus(Usage(state), intent.maximumDebit))
    ensures ProposeEffect(state, intent, registration, o, commit, now).Success? ==>
              && ProposeEffect(state, intent, registration, o, commit, now).value == WithEffect(state, intent)
              && Retained(WithEffect(state, intent))
  {
    EffectChecks(state, intent, registration, o, commit, now);
    if Authorized(state, intent, registration, o, commit, now) {
      if state.effects != [] {
        CreatePrecedes(state, commit.observedAt);
      }
      EffectConstructs(state, intent);
      assert Recorded(Effect(intent, []));
    }
  }

  /** The commit post-dates the create's last observation, so funding created now follows it. */
  lemma CreatePrecedes(state: State, time: nat)
    requires NotBefore(state, time) && state.effects != []
    ensures TimeAfter(state.effects[0].intent, state.effects[0].observations) <= time
  {
    var create := state.effects[0];
    if create.observations != [] {
      assert create.observations[|create.observations| - 1] in create.observations;
    }
  }

  lemma MappedGrows(effects: seq<Effect>, intent: Intent)
    requires MappedOnce(effects) && (effects == [] <==> intent.purpose.Create?) && !intent.purpose.Amendment?
    requires effects != [] ==> effects[0].Stage().Confirmed?
                               && TimeAfter(effects[0].intent, effects[0].observations) <= intent.createdAt
    ensures MappedOnce(effects + [Effect(intent, [])])
       <==> (effects != [] ==> intent.subject == effects[0].intent.subject)
  {
    var next := effects + [Effect(intent, [])];
    var n := |effects|;
    assert next[n] == Effect(intent, []);
    if n > 0 {
      assert next[0] == effects[0];
      assert forall i | 1 <= i < n :: next[i] == effects[i];
    }
  }

  lemma DistinctGrows(state: State, intent: Intent)
    requires Distinct(state.effects)
    ensures Distinct(WithEffect(state, intent).effects)
       <==> forall i | 0 <= i < |state.effects| :: Unshared(state.effects[i].intent, intent)
  {
    var next := WithEffect(state, intent).effects;
    var n := |state.effects|;
    assert forall i | 0 <= i < n :: next[i] == state.effects[i];
    assert Distinct(next) ==> forall i | 0 <= i < n :: Unshared(next[i].intent, next[n].intent);
  }

  lemma BoundGrows(state: State, intent: Intent)
    requires Bound(state.maximum, state.effects)
    ensures Bound(state.maximum, WithEffect(state, intent).effects) <==> Bound(state.maximum, [Effect(intent, [])])
  {
    var next := WithEffect(state, intent).effects;
    assert next[|state.effects|] == Effect(intent, []) == [Effect(intent, [])][0];
  }

  // ---- proposing an observation ----

  /** An observation never raises usage, and lowers it by what the effect releases. */
  lemma ObservationLowersUsage(state: State, i: nat, o: Observation)
    requires Retained(state) && i < |state.effects| && AcceptsNext(state.effects[i], o)
    ensures var next := WithObservation(state, i, o);
            && Covers(Usage(state), Usage(next))
            && forall d :: Amount(Usage(next), d) + Amount(state.effects[i].Charged(), d)
                        == Amount(Usage(state), d) + Amount(next.effects[i].Charged(), d)
  {
    var next := WithObservation(state, i, o);
    var charges := Charges(state.effects);
    assert Charges(next.effects) == charges[i := next.effects[i].Charged()];
    ChargeShrinks(state.effects[i], o);
    forall d
      ensures Amount(Usage(next), d) + Amount(charges[i], d)
           == Amount(Usage(state), d) + Amount(next.effects[i].Charged(), d)
      ensures d in Usage(next) ==> d in Usage(state)
    {
      TotalReplace(charges, i, next.effects[i].Charged(), d);
    }
    forall d | d in Usage(next)
      ensures d in Usage(state) && Usage(next)[d] <= Usage(state)[d]
    {
      assert d in next.effects[i].Charged() ==> d in charges[i];
    }
  }

  /** The rules about permanent identities read only the intents. */
  lemma IntentsDecide(maximum: Maximum, a: seq<Effect>, b: seq<Effect>)
    requires |a| == |b| && forall k | 0 <= k < |a| :: a[k].intent == b[k].intent
    requires Distinct(a) && Bound(maximum, a)
    ensures Distinct(b) && Bound(maximum, b)
  {
    forall i, j | 0 <= i < j < |b|
      ensures Unshared(b[i].intent, b[j].intent)
    {
      assert Unshared(a[i].intent, a[j].intent);
    }
  }

  lemma CoversFurther(a: Vector, b: Vector, c: Vector)
    requires Covers(a, b) && Covers(b, c)
    ensures Covers(a, c)
  {
  }

  /** Once the record accepts an observation, the operation state cannot be refused. */
  lemma ObservedIsRetained(state: State, i: nat, o: Observation)
    requires Retained(state) && i < |state.effects| && AcceptsNext(state.effects[i], o)
    ensures Retained(WithObservation(state, i, o))
  {
    var next := WithObservation(state, i, o);
    ObservationLowersUsage(state, i, o);
    CoversFurther(state.maximum.native, Usage(state), Usage(next));
    EventsReplace(state.effects, i, o);
    ObservedIsMapped(state, i, o);
    IntentsDecide(state.maximum, state.effects, next.effects);
    ObservedRecords(state, i, o);
  }

  lemma ObservedRecords(state: State, i: nat, o: Observation)
    requires i < |state.effects| && AcceptsNext(state.effects[i], o)
    requires forall k | 0 <= k < |state.effects| :: state.effects[k].intent.Valid() && Recorded(state.effects[k])
    ensures var next := WithObservation(state, i, o).effects;
            forall k | 0 <= k < |next| :: next[k].intent.Valid() && Recorded(next[k])
  {
    RecordGrows(state.effects[i], o);
  }

  /** A create that anything was funded after is settled, so no observation of it is accepted. */
  lemma ObservedIsMapped(state: State, i: nat, o: Observation)
    requires MappedOnce(state.effects) && i < |state.effects| && AcceptsNext(state.effects[i], o)
    ensures MappedOnce(WithObservation(state, i, o).effects)
  {
    var next := WithObservation(state, i, o).effects;
    if |state.effects| > 1 {
      assert state.effects[1].intent.subject == state.effects[0].intent.subject;
      assert i != 0;
      assert next[0] == state.effects[0];
      assert forall k | 1 <= k < |next| :: next[k].intent == state.effects[k].intent;
    }
  }

  lemma ObservationAccepted(state: State, effectId: string, o: Observation, commit: Commit, now: nat)
    requires Retained(state)
    ensures ProposeObservation(state, effectId, o, commit, now) != Failure(StateRefused)
    ensures ProposeObservation(state, effectId, o, commit, now).Success? ==>
              exists i: nat :: i < |state.effects| && state.effects[i].intent.effectId == effectId
                && AcceptsNext(state.effects[i], o)
                && ProposeObservation(state, effectId, o, commit, now).value == WithObservation(state, i, o)
  {
    if |Matches(state.effects, effectId)| == 1 {
      var i := Matches(state.effects, effectId)[0];
      RecordGrows(state.effects[i], o);
      if AcceptsNext(state.effects[i], o) {
        ObservedIsRetained(state, i, o);
      }
    }
  }

  // ---- runs ----

  /** Someone, having read `base`, can propose `next`. */
  ghost predicate Proposes(base: State, next: State) {
    || (exists intent: Intent, registration, o, commit, now: nat ::
          intent.Valid() && ProposeEffect(base, intent, registration, o, commit, now) == Success(next))
    || (exists effectId, o, commit, now: nat :: ProposeObservation(base, effectId, o, commit, now) == Success(next))
  }

  /**
   Compare-and-swap: proposed from some state, however stale or made up, and accepted
   because it names the digest of the one it replaces.
   */
  ghost predicate Accepted(prior: State, next: State) {
    next.previous == Some(prior) && exists base :: Retained(base) && Proposes(base, next)
  }

  /** A history of one ledger, from the reservation of its maximum. */
  ghost predicate History(h: seq<State>) {
    && h != []
    && (exists maximum, now: nat :: ProposeMaximum(maximum, now) == Success(h[0]))
    && forall i | 0 < i < |h| :: Accepted(h[i - 1], h[i])
  }

  /** Nothing permanent changed: intents stay, observations only grow, charges only shrink. */
  ghost predicate Grows(a: State, b: State) {
    && b.maximum == a.maximum
    && |a.effects| <= |b.effects|
    && forall k | 0 <= k < |a.effects| ::
         && b.effects[k].intent == a.effects[k].intent
         && a.effects[k].observations <= b.effects[k].observations
         && Covers(a.effects[k].Charged(), b.effects[k].Charged())
  }

  lemma ObservedGrows(base: State, i: nat, o: Observation)
    requires Retained(base) && i < |base.effects| && AcceptsNext(base.effects[i], o)
    ensures Grows(base, WithObservation(base, i, o))
  {
    ChargeShrinks(base.effects[i], o);
  }

  lemma GrowsOn(a: State, b: State, c: State)
    requires Grows(a, b) && Grows(b, c)
    ensures Grows(a, c)
  {
    hide Effect.Charged;
  }

  lemma GrowsFromItself(a: State)
    ensures Grows(a, a)
  {
  }

  lemma EffectGrows(base: State, intent: Intent)
    ensures Grows(base, WithEffect(base, intent))
  {
  }

  lemma ProposalGrows(base: State, next: State)
    requires Retained(base) && Proposes(base, next)
    ensures Retained(next) && Grows(base, next)
    ensures next.previous == Some(base) && next.revision == base.revision + 1
  {
    if intent: Intent, registration, o, commit, now: nat :|
         intent.Valid() && ProposeEffect(base, intent, registration, o, commit, now) == Success(next) {
      EffectAccepted(base, intent, registration, o, commit, now);
      EffectGrows(base, intent);
    } else {
      var effectId, o, commit, now: nat :| ProposeObservation(base, effectId, o, commit, now) == Success(next);
      ObservationAccepted(base, effectId, o, commit, now);
      var i: nat :| i < |base.effects| && AcceptsNext(base.effects[i], o) && next == WithObservation(base, i, o);
      ObservedIsRetained(base, i, o);
      ObservedGrows(base, i, o);
    }
  }

  lemma AcceptedStep(h: seq<State>, i: nat)
    requires History(h) && 0 < i < |h|
    ensures Retained(h[i]) && Grows(h[i - 1], h[i]) && h[i].revision == h[i - 1].revision + 1
  {
    assert Accepted(h[i - 1], h[i]);
    var base :| Retained(base) && Proposes(base, h[i]);
    ProposalGrows(base, h[i]);
  }

  lemma RunStarts(h: seq<State>)
    requires History(h)
    ensures Retained(h[0]) && h[0].revision == 0
  {
    var maximum, now: nat :| ProposeMaximum(maximum, now) == Success(h[0]);
  }

  /**
   Over every run, usage is covered by the maximum first reserved and the revision
   counts every retained event.
   */
  lemma {:induction false} UsageStaysCovered(h: seq<State>, i: nat)
    requires History(h) && i < |h|
    ensures Retained(h[i]) && h[i].maximum == h[0].maximum
    ensures Covers(h[0].maximum.native, Usage(h[i]))
    ensures h[i].revision == i == Events(h[i].effects)
  {
    if i == 0 {
      RunStarts(h);
    } else {
      UsageStaysCovered(h, i - 1);
      AcceptedStep(h, i);
    }
  }

  /** Intents and attempts are never removed or changed, and what an effect charges only shrinks. */
  lemma {:induction false} NothingIsForgotten(h: seq<State>, i: nat, j: nat)
    requires History(h) && i <= j < |h|
    ensures Grows(h[i], h[j])
  {
    if i == j {
      GrowsFromItself(h[i]);
    }
    hide Grows, Retained, History;
    if i < j {
      NothingIsForgotten(h, i, j - 1);
      AcceptedStep(h, j);
      GrowsOn(h[i], h[j - 1], h[j]);
    }
  }

  lemma Predecessor(h: seq<State>, i: nat)
    requires History(h) && i < |h|
    ensures h[i].revision == i && (i > 0 ==> h[i].previous == Some(h[i - 1]))
  {
    UsageStaysCovered(h, i);
  }

  /** The latest state determines the whole run: two ledgers with the same head are the same. */
  lemma {:induction false} HeadDeterminesHistory(h: seq<State>, g: seq<State>, n: nat, m: nat)
    requires History(h) && History(g) && n < |h| && m < |g| && h[n] == g[m]
    ensures n == m && h[..n + 1] == g[..m + 1]
  {
    Predecessor(h, n);
    Predecessor(g, m);
    if n > 0 {
      HeadDeterminesHistory(h, g, n - 1, m - 1);
    }
    SnocEqual(h, g, n);
  }
}
