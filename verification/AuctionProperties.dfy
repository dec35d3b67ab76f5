/**
 What a decided auction guarantees: capacity evidence behind an emptiest winner,
 one provider per region while providers last, and a cheapest choice that later
 bids cannot change.
 */
module AuctionProperties {
  import opened Wrappers
  import opened Capacity
  import opened Bids
  import opened AuctionRules
  import Fits = ProviderFit

  /** The bids the decision is made among. */
  function DecisionPool(s: SearchSettings, a: AuctionState, now: real): seq<Bid>
    requires a.book.Indexed()
  {
    PoolOf(a.terms, Candidates(s, a.terms, now, Listed(a.book)))
  }

  predicate HasPreferred(s: SearchSettings, a: AuctionState, now: real)
    requires a.book.Indexed()
  {
    Preferred(a.terms, Candidates(s, a.terms, now, Listed(a.book))) != []
  }

  /** Membership of the decision pool, bid by bid. */
  lemma PoolMembers(s: SearchSettings, a: AuctionState, now: real, b: Bid)
    requires a.book.Indexed()
    ensures b in DecisionPool(s, a, now) ==>
              && (exists k | k in a.book.latest :: a.book.latest[k] == b)
              && Judge(s, a.terms, now, b).None?
              && (HasPreferred(s, a, now) ==> IsPreferred(a.terms, b))
    ensures (exists k | k in a.book.latest :: a.book.latest[k] == b) && Judge(s, a.terms, now, b).None?
            && (HasPreferred(s, a, now) ==> IsPreferred(a.terms, b))
        ==> b in DecisionPool(s, a, now)
    ensures b in DecisionPool(s, a, now) && IsPreferred(a.terms, b) ==> HasPreferred(s, a, now)
  {
    var candidates := Candidates(s, a.terms, now, Listed(a.book));
    ListedAre(a.book);
    CandidatesAre(s, a.terms, now, Listed(a.book), b);
    PreferredAre(a.terms, candidates, b);
  }

  // ---- emptiest evidence ----

  lemma ProfiledCandidateFits(s: SearchSettings, t: Terms, now: real, b: Bid)
    requires t.policy.selection.Emptiest? && Judge(s, t, now, b).None? && b.profile.Some?
    ensures b.capacity.Some? && Fits.GroupFit(s, b.capacity.value, b.profile.value) == Fit
  {
  }

  lemma FittingBidScores(s: SearchSettings, b: Bid)
    requires b.Valid() && b.profile.Some? && b.capacity.Some?
    requires Fits.GroupFit(s, b.capacity.value, b.profile.value) == Fit
    ensures Ranked(b) ==> Score(s, b).Some?
  {
    Fits.ScoreIsBindingFraction(s, b.capacity.value, b.profile.value);
  }

  /** Both internal assertions of the ranking are unreachable. */
  lemma EvidenceIsNeverLost(s: SearchSettings, a: AuctionState, now: real, taken: set<string>)
    requires a.Valid()
    ensures Evaluate(s, a, now, taken) != Failure(LostEvidence)
  {
    var pool := DecisionPool(s, a, now);
    if a.terms.policy.selection.Emptiest? {
      forall i | 0 <= i < |pool|
        ensures Ranked(pool[i]) ==> Score(s, pool[i]).Some?
      {
        PoolMembers(s, a, now, pool[i]);
        var k :| k in a.book.latest && a.book.latest[k] == pool[i];
        if Ranked(pool[i]) {
          ProfiledCandidateFits(s, a.terms, now, pool[i]);
          FittingBidScores(s, pool[i]);
        }
      }
    }
  }

  /** After the window, the evaluation reports the decision on the pool, or its exception. */
  lemma EvaluateDecides(s: SearchSettings, a: AuctionState, now: real, taken: set<string>)
    requires a.book.Indexed() && now >= a.terms.Deadline() && DecisionPool(s, a, now) != []
    ensures var rejected := Rejected(s, a.terms, now, Listed(a.book));
            match Decide(s, a.terms, HasPreferred(s, a, now), DecisionPool(s, a, now), taken)
            case Failure(e) => Evaluate(s, a, now, taken) == Failure(e)
            case Success(c) => Evaluate(s, a, now, taken) == Success(Report(a.terms, now, c, rejected))
  {
    var candidates := Candidates(s, a.terms, now, Listed(a.book));
    assert candidates == [] ==> Preferred(a.terms, candidates) == [];
  }

  lemma DecidedAfterWindow(s: SearchSettings, a: AuctionState, now: real, taken: set<string>)
    requires a.book.Indexed()
    requires Evaluate(s, a, now, taken).Success? && Evaluate(s, a, now, taken).value.status == Decided
    ensures now >= a.terms.Deadline() && DecisionPool(s, a, now) != []
  {
  }

  lemma DecideChoosesLeast(s: SearchSettings, t: Terms, preferred: bool, pool: seq<Bid>, taken: set<string>)
    requires pool != [] && Decide(s, t, preferred, pool, taken).Success?
    ensures var c := Decide(s, t, preferred, pool, taken).value;
            && c.considered != [] && c.selected == c.considered[0] && c.selected in pool
            && multiset(c.considered) == multiset(pool)
  {
    if preferred && t.policy.selection.Emptiest? {
      ChoiceIsLeast(pool, ByPrice(taken), ProfileUnavailableFellBackToCheapest);
      ChoiceIsLeast(pool, ByRank(s, taken), EmptiestPreferred);
      ChoiceIsLeast(pool, ByRank(s, taken), CapacityIncompleteFellBackToCheapest);
    } else {
      ChoiceIsLeast(pool, ByPrice({}), CheapestPreferred);
      ChoiceIsLeast(pool, ByArrival, FirstEligibleFallback);
    }
  }

  lemma WinnerIsInPool(s: SearchSettings, a: AuctionState, now: real, taken: set<string>)
    requires a.book.Indexed()
    requires Evaluate(s, a, now, taken).Success? && Evaluate(s, a, now, taken).value.status == Decided
    ensures var r := Evaluate(s, a, now, taken).value;
            && r.selected.Some? && r.selected.value in DecisionPool(s, a, now)
            && r.considered != [] && r.considered[0] == r.selected.value
            && multiset(r.considered) == multiset(DecisionPool(s, a, now))
            && now >= a.terms.Deadline()
  {
    DecidedAfterWindow(s, a, now, taken);
    EvaluateDecides(s, a, now, taken);
    DecideChoosesLeast(s, a.terms, HasPreferred(s, a, now), DecisionPool(s, a, now), taken);
  }

  /** Under EMPTIEST, a winner with a profile has a real placement on the nodes that were read. */
  lemma EmptiestWinnerHasPlacement(s: SearchSettings, a: AuctionState, now: real, taken: set<string>)
    requires a.Valid() && a.terms.policy.selection.Emptiest?
    requires Evaluate(s, a, now, taken).Success? && Evaluate(s, a, now, taken).value.status == Decided
    ensures var w := Evaluate(s, a, now, taken).value.selected;
            && w.Some?
            && (w.value.profile.Some? ==>
                  && w.value.capacity.Some? && w.value.capacity.value.nodes.Some?
                  && CanHost(w.value.profile.value.replicas,
                             Fits.ReadableNodes(w.value.capacity.value.nodes.value, w.value.profile.value)))
  {
    WinnerIsInPool(s, a, now, taken);
    var w := Evaluate(s, a, now, taken).value.selected.value;
    PoolMembers(s, a, now, w);
    var k :| k in a.book.latest && a.book.latest[k] == w;
    assert w.Valid();
    if w.profile.Some? {
      ProfiledCandidateFits(s, a.terms, now, w);
      Fits.FitSurvivesMissingData(s, w.capacity.value, w.profile.value, []);
    }
  }

  // ---- anti-affinity ----

  function Providers(bids: seq<Bid>): set<string> {
    set i | 0 <= i < |bids| :: bids[i].provider
  }

  lemma TakenStepsAside(key: Bid -> RankKey, pool: seq<Bid>, taken: set<string>)
    requires pool != [] && forall b: Bid :: key(b).taken == (b.provider in taken)
    requires exists b | b in pool :: b.provider !in taken
    ensures Min(By(key), pool).provider !in taken
  {
    MinIsLeast(key, pool);
    var b :| b in pool && b.provider !in taken;
    assert KeyLe(key(Min(By(key), pool)), key(b));
  }

  lemma DecideAvoidsTaken(s: SearchSettings, t: Terms, pool: seq<Bid>, taken: set<string>)
    requires pool != [] && t.policy.selection.Emptiest?
    requires Decide(s, t, true, pool, taken).Success?
    requires exists b | b in pool :: b.provider !in taken
    ensures Decide(s, t, true, pool, taken).value.selected.provider !in taken
  {
    TakenStepsAside(ByPrice(taken), pool, taken);
    TakenStepsAside(ByRank(s, taken), pool, taken);
  }

  /** A provider already taken this round is chosen only when every preferred one is taken. */
  lemma EmptiestAvoidsTaken(s: SearchSettings, a: AuctionState, now: real, taken: set<string>)
    requires a.Valid() && a.terms.policy.selection.Emptiest? && now >= a.terms.Deadline()
    requires HasPreferred(s, a, now) && OneDenomination(DecisionPool(s, a, now))
    ensures var r := Evaluate(s, a, now, taken);
            && r.Success? && r.value.status == Decided && r.value.selected.Some?
            && r.value.selected.value.provider in Providers(DecisionPool(s, a, now))
            && (r.value.selected.value.provider in taken ==> Providers(DecisionPool(s, a, now)) <= taken)
  {
    var pool := DecisionPool(s, a, now);
    EvidenceIsNeverLost(s, a, now, taken);
    EvaluateDecides(s, a, now, taken);
    assert Decide(s, a.terms, true, pool, taken).Success?;
    DecideChoosesLeast(s, a.terms, true, pool, taken);
    var w := Decide(s, a.terms, true, pool, taken).value.selected;
    var i :| 0 <= i < |pool| && pool[i] == w;
    if p :| p in Providers(pool) && p !in taken {
      var j :| 0 <= j < |pool| && pool[j].provider == p;
      assert pool[j] in pool;
      DecideAvoidsTaken(s, a.terms, pool, taken);
    }
  }

  /** `k` regions placed against one snapshot, each winner's provider added to the taken set. */
  function Rounds(winner: set<string> -> Option<Bid>, taken: set<string>, k: nat): seq<Bid>
    decreases k
  {
    if k == 0 || winner(taken).None? then []
    else
      var w := winner(taken).value;
      [w] + Rounds(winner, taken + {w.provider}, k - 1)
  }

  /** The winner of one evaluation, as a function of the providers already taken. */
  function WinnerAt(s: SearchSettings, a: AuctionState, now: real): set<string> -> Option<Bid>
    requires a.book.Indexed()
  {
    (taken: set<string>) =>
      match Evaluate(s, a, now, taken)
      case Success(r) => r.selected
      case Failure(_) => None
  }

  ghost predicate DistinctProviders(bids: seq<Bid>, taken: set<string>) {
    && (forall i | 0 <= i < |bids| :: bids[i].provider !in taken)
    && (forall i, j | 0 <= i < j < |bids| :: bids[i].provider != bids[j].provider)
  }

  /** Takes from `providers`, and from those already taken only when no other is left. */
  ghost predicate AvoidsTaken(winner: set<string> -> Option<Bid>, providers: set<string>) {
    forall taken ::
      && winner(taken).Some? && winner(taken).value.provider in providers
      && (winner(taken).value.provider in taken ==> providers <= taken)
  }

  lemma {:induction false} AvoidingPicksDistinct(
    winner: set<string> -> Option<Bid>, providers: set<string>, taken: set<string>, k: nat)
    requires AvoidsTaken(winner, providers) && k <= |providers - taken|
    ensures |Rounds(winner, taken, k)| == k && DistinctProviders(Rounds(winner, taken, k), taken)
    decreases k
  {
    if k > 0 {
      var w := winner(taken).value.provider;
      assert providers - taken != {};
      assert providers - (taken + {w}) == (providers - taken) - {w};
      AvoidingPicksDistinct(winner, providers, taken + {w}, k - 1);
    }
  }

  /** The rounds pick distinct providers for as long as there are distinct preferred providers. */
  lemma RoundsPickDistinctProviders(s: SearchSettings, a: AuctionState, now: real, k: nat)
    requires a.Valid() && a.terms.policy.selection.Emptiest? && now >= a.terms.Deadline()
    requires HasPreferred(s, a, now) && OneDenomination(DecisionPool(s, a, now))
    requires k <= |Providers(DecisionPool(s, a, now))|
    ensures var picked := Rounds(WinnerAt(s, a, now), {}, k);
            |picked| == k && DistinctProviders(picked, {})
  {
    var providers := Providers(DecisionPool(s, a, now));
    forall taken
      ensures WinnerAt(s, a, now)(taken).Some?
      ensures WinnerAt(s, a, now)(taken).value.provider in providers
      ensures WinnerAt(s, a, now)(taken).value.provider in taken ==> providers <= taken
    {
      EmptiestAvoidsTaken(s, a, now, taken);
    }
    assert providers - {} == providers;
    AvoidingPicksDistinct(WinnerAt(s, a, now), providers, {}, k);
  }

  // ---- a cheapest decision stands ----

  /** Only a group profile may have been filled in since. */
  ghost predicate SameButProfile(before: Bid, after: Bid) {
    after == before.(profile := after.profile) && (before.gseq.None? ==> after == before)
  }

  /** Bids observed under other keys leave a stored bid as it was, up to its group's profile. */
  lemma {:induction false} NewBidsLeaveOldOnes(book: Book, later: seq<Bid>, k: string)
    requires book.Valid() && k in book.latest && ObserveAll(book, later).Success?
    requires forall b | b in later :: b.bidKey != k
    ensures k in ObserveAll(book, later).value.latest
    ensures SameButProfile(book.latest[k], ObserveAll(book, later).value.latest[k])
    decreases |later|
  {
    if later != [] {
      assert later[0] in later;
      ObserveShape(book, later[0]);
      ObserveKeeps(book, later[0]);
      var next := Observe(book, later[0]).value;
      assert SameButProfile(book.latest[k], next.latest[k]);
      NewBidsLeaveOldOnes(next, later[1..], k);
    }
  }

  /** Every key is either stored before, or belongs to a bid that arrived later. */
  lemma {:induction false} NewBidsArriveLater(book: Book, later: seq<Bid>, known: set<string>, after: real, k: string)
    requires book.Valid() && ObserveAll(book, later).Success?
    requires forall b | b in later :: b.bidKey !in known && b.observedAt > after
    requires forall k | k in book.latest && k !in known :: book.latest[k].observedAt > after
    requires k in ObserveAll(book, later).value.latest && k !in known
    ensures ObserveAll(book, later).value.latest[k].observedAt > after
    decreases |later|
  {
    if later != [] {
      var b := later[0];
      assert b in later;
      ObserveShape(book, b);
      ObserveKeeps(book, b);
      var next := Observe(book, b).value;
      forall k | k in next.latest && k !in known
        ensures next.latest[k].observedAt > after
      {
        if k in book.latest {
          assert KeepsBid(book.latest[k], next.latest[k]);
        }
      }
      NewBidsArriveLater(next, later[1..], known, after, k);
    }
  }

  /** The same auction after only new bids, all of which arrived after `decided`. */
  ghost predicate LaterBidsOnly(before: Book, after: Book, decided: real) {
    && before.Indexed() && after.Indexed()
    && (forall k | k in before.latest :: k in after.latest && SameButProfile(before.latest[k], after.latest[k]))
    && (forall k | k in after.latest && k !in before.latest :: after.latest[k].observedAt > decided)
  }

  lemma ObservingLaterBids(book: Book, later: seq<Bid>, decided: real)
    requires book.Valid() && ObserveAll(book, later).Success?
    requires forall b | b in later :: b.bidKey !in book.latest && b.observedAt > decided
    ensures LaterBidsOnly(book, ObserveAll(book, later).value, decided)
  {
    var after := ObserveAll(book, later).value;
    ObserveAllKeeps(book, later);
    forall k | k in book.latest
      ensures SameButProfile(book.latest[k], after.latest[k])
    {
      NewBidsLeaveOldOnes(book, later, k);
    }
    forall k | k in after.latest && k !in book.latest
      ensures after.latest[k].observedAt > decided
    {
      NewBidsArriveLater(book, later, book.latest.Keys, decided, k);
    }
  }

  lemma JudgeIgnoresProfile(s: SearchSettings, t: Terms, now: real, b: Bid, b': Bid)
    requires t.policy.selection.Cheapest? && SameButProfile(b, b')
    ensures Judge(s, t, now, b') == Judge(s, t, now, b)
  {
  }

  /** A candidate stays one; a bid that becomes one arrived after the first evaluation. */
  lemma JudgeLater(s: SearchSettings, t: Terms, now: real, later: real, b: Bid)
    requires t.policy.selection.Cheapest? && now <= later
    ensures Judge(s, t, now, b).None? ==> Judge(s, t, later, b).None? && b.observedAt <= now
    ensures Judge(s, t, later, b).None? && Judge(s, t, now, b).Some? ==> b.observedAt > now
  {
  }

  ghost predicate InPool(s: SearchSettings, a: AuctionState, now: real, k: string)
    requires a.book.Indexed()
  {
    k in a.book.latest && a.book.latest[k] in DecisionPool(s, a, now)
  }

  lemma InPoolIff(s: SearchSettings, a: AuctionState, now: real, k: string)
    requires a.book.Indexed() && k in a.book.latest
    ensures InPool(s, a, now, k)
       <==> Judge(s, a.terms, now, a.book.latest[k]).None?
            && (HasPreferred(s, a, now) ==> IsPreferred(a.terms, a.book.latest[k]))
    ensures Judge(s, a.terms, now, a.book.latest[k]).None? && IsPreferred(a.terms, a.book.latest[k])
        ==> HasPreferred(s, a, now)
  {
    PoolMembers(s, a, now, a.book.latest[k]);
    var listed := Listed(a.book);
    var candidates := Candidates(s, a.terms, now, listed);
    ListedAre(a.book);
    CandidatesAre(s, a.terms, now, listed, a.book.latest[k]);
    PreferredAre(a.terms, candidates, a.book.latest[k]);
  }

  /** Somebody in the book is a preferred candidate, if any candidate is preferred. */
  lemma PreferredWitness(s: SearchSettings, a: AuctionState, now: real) returns (k: string)
    requires a.book.Indexed() && HasPreferred(s, a, now)
    ensures k in a.book.latest && Judge(s, a.terms, now, a.book.latest[k]).None?
    ensures IsPreferred(a.terms, a.book.latest[k])
  {
    var listed := Listed(a.book);
    var candidates := Candidates(s, a.terms, now, listed);
    var b := Preferred(a.terms, candidates)[0];
    PreferredAre(a.terms, candidates, b);
    CandidatesAre(s, a.terms, now, listed, b);
    ListedAre(a.book);
    k :| k in a.book.latest && a.book.latest[k] == b;
  }

  /** Later bids change neither whether anyone is preferred nor who is. */
  lemma PreferredStands(s: SearchSettings, a: AuctionState, book: Book, now: real, later: real)
    requires a.book.Indexed() && a.terms.policy.selection.Cheapest?
    requires LaterBidsOnly(a.book, book, now) && a.terms.Deadline() <= now <= later
    ensures HasPreferred(s, a.(book := book), later) == HasPreferred(s, a, now)
    ensures forall k | k in book.latest && Judge(s, a.terms, later, book.latest[k]).None?
                       && IsPreferred(a.terms, book.latest[k]) ::
              && k in a.book.latest && Judge(s, a.terms, now, a.book.latest[k]).None?
              && IsPreferred(a.terms, a.book.latest[k])
  {
    var a' := a.(book := book);
    forall k | k in book.latest && Judge(s, a.terms, later, book.latest[k]).None?
               && IsPreferred(a.terms, book.latest[k])
      ensures && k in a.book.latest && Judge(s, a.terms, now, a.book.latest[k]).None?
              && IsPreferred(a.terms, a.book.latest[k])
    {
      JudgeIgnoresProfile(s, a.terms, later, a.book.latest[k], book.latest[k]);
      JudgeLater(s, a.terms, now, later, a.book.latest[k]);
    }
    if HasPreferred(s, a', later) {
      var k := PreferredWitness(s, a', later);
      InPoolIff(s, a, now, k);
    }
    if HasPreferred(s, a, now) {
      var k := PreferredWitness(s, a, now);
      JudgeIgnoresProfile(s, a.terms, later, a.book.latest[k], book.latest[k]);
      JudgeLater(s, a.terms, now, later, a.book.latest[k]);
      InPoolIff(s, a', later, k);
    }
  }

  /** The pool keeps its members; under a fallback it may gain bids that arrived later. */
  lemma PoolStands(s: SearchSettings, a: AuctionState, book: Book, now: real, later: real, k: string)
    requires a.book.Indexed() && a.terms.policy.selection.Cheapest?
    requires LaterBidsOnly(a.book, book, now) && a.terms.Deadline() <= now <= later
    ensures InPool(s, a, now, k) ==>
              && InPool(s, a.(book := book), later, k)
              && (!HasPreferred(s, a, now) ==> book.latest[k].observedAt <= now)
    ensures InPool(s, a.(book := book), later, k) && !InPool(s, a, now, k) ==>
              !HasPreferred(s, a, now) && book.latest[k].observedAt > now
  {
    var a' := a.(book := book);
    PreferredStands(s, a, book, now, later);
    if k in a.book.latest {
      InPoolIff(s, a, now, k);
      JudgeIgnoresProfile(s, a.terms, later, a.book.latest[k], book.latest[k]);
      JudgeLater(s, a.terms, now, later, a.book.latest[k]);
    }
    if k in book.latest {
      InPoolIff(s, a', later, k);
    }
  }

  /** What a key must do for later members never to displace the winner. */
  lemma LeastStands(
    s: SearchSettings, a: AuctionState, book: Book, now: real, later: real, key: Bid -> RankKey, w: string)
    requires a.book.Indexed() && a.terms.policy.selection.Cheapest?
    requires LaterBidsOnly(a.book, book, now) && a.terms.Deadline() <= now <= later
    requires Names(key) && InPool(s, a, now, w)
    requires DecisionPool(s, a, now) != [] && a.book.latest[w] == Min(By(key), DecisionPool(s, a, now))
    requires forall k | k in a.book.latest :: key(book.latest[k]) == key(a.book.latest[k])
    requires forall k | InPool(s, a.(book := book), later, k) && !InPool(s, a, now, k) ::
               KeyLe(key(book.latest[w]), key(book.latest[k]))
    ensures var pool := DecisionPool(s, a.(book := book), later);
            && pool != [] && Min(By(key), pool).bidKey == w
  {
    var a' := a.(book := book);
    var pool, pool' := DecisionPool(s, a, now), DecisionPool(s, a', later);
    PoolStands(s, a, book, now, later, w);
    assert book.latest[w] in pool';
    MinIsLeast(key, pool);
    MinIsLeast(key, pool');
    var m := Min(By(key), pool');
    PoolMembers(s, a', later, m);
    var k :| k in book.latest && book.latest[k] == m;
    assert InPool(s, a', later, k);
    if InPool(s, a, now, k) {
      assert KeyLe(key(a.book.latest[w]), key(a.book.latest[k]));
    }
    assert KeyLe(key(book.latest[w]), key(m)) && KeyLe(key(m), key(book.latest[w]));
    KeyOrder();
    assert key(m) == key(book.latest[w]);
    assert book.latest[w].bidKey == w;
  }

  lemma DenominationsStand(s: SearchSettings, a: AuctionState, book: Book, now: real, later: real)
    requires a.book.Indexed() && a.terms.policy.selection.Cheapest?
    requires LaterBidsOnly(a.book, book, now) && a.terms.Deadline() <= now <= later
    requires HasPreferred(s, a, now) && OneDenomination(DecisionPool(s, a, now))
    ensures OneDenomination(DecisionPool(s, a.(book := book), later))
  {
    var a' := a.(book := book);
    var pool, pool' := DecisionPool(s, a, now), DecisionPool(s, a', later);
    forall i, j | 0 <= i < |pool'| && 0 <= j < |pool'|
      ensures pool'[i].denom == pool'[j].denom
    {
      var p := OldPoolIndex(s, a, book, now, later, i);
      var q := OldPoolIndex(s, a, book, now, later, j);
      assert pool[p].denom == pool[q].denom;
    }
  }

  lemma OldPoolIndex(s: SearchSettings, a: AuctionState, book: Book, now: real, later: real, i: nat)
    returns (p: nat)
    requires a.book.Indexed() && a.terms.policy.selection.Cheapest?
    requires LaterBidsOnly(a.book, book, now) && a.terms.Deadline() <= now <= later
    requires HasPreferred(s, a, now) && i < |DecisionPool(s, a.(book := book), later)|
    ensures p < |DecisionPool(s, a, now)|
    ensures DecisionPool(s, a, now)[p].denom == DecisionPool(s, a.(book := book), later)[i].denom
  {
    var a' := a.(book := book);
    var b := DecisionPool(s, a', later)[i];
    PoolMembers(s, a', later, b);
    var k :| k in book.latest && book.latest[k] == b;
    PoolStands(s, a, book, now, later, k);
    assert InPool(s, a, now, k);
    p :| 0 <= p < |DecisionPool(s, a, now)| && DecisionPool(s, a, now)[p] == a.book.latest[k];
  }

  lemma CheapestKey(t: Terms, s: SearchSettings, preferred: bool, pool: seq<Bid>, taken: set<string>)
    requires pool != [] && t.policy.selection.Cheapest?
    ensures Decide(s, t, preferred, pool, taken)
         == (if !OneDenomination(pool) then Failure(MixedBidDenominations)
             else if preferred then Success(Choose(pool, ByPrice({}), CheapestPreferred))
             else Success(Choose(pool, ByArrival, FirstEligibleFallback)))
  {
  }

  /** The first decision: which bid, under which key. */
  lemma FirstDecision(s: SearchSettings, a: AuctionState, now: real, taken: set<string>) returns (k: string)
    requires a.book.Indexed() && a.terms.policy.selection.Cheapest?
    requires Evaluate(s, a, now, taken).Success? && Evaluate(s, a, now, taken).value.status == Decided
    ensures now >= a.terms.Deadline() && DecisionPool(s, a, now) != [] && OneDenomination(DecisionPool(s, a, now))
    ensures var r, preferred := Evaluate(s, a, now, taken).value, HasPreferred(s, a, now);
            && r.reason == (if preferred then CheapestPreferred else FirstEligibleFallback)
            && r.selected.Some? && InPool(s, a, now, k) && r.selected.value == a.book.latest[k]
            && r.selected.value == Min(By(if preferred then ByPrice({}) else ByArrival), DecisionPool(s, a, now))
  {
    DecidedAfterWindow(s, a, now, taken);
    EvaluateDecides(s, a, now, taken);
    var pool := DecisionPool(s, a, now);
    CheapestKey(a.terms, s, HasPreferred(s, a, now), pool, taken);
    WinnerIsInPool(s, a, now, taken);
    var w := Evaluate(s, a, now, taken).value.selected.value;
    PoolMembers(s, a, now, w);
    k :| k in a.book.latest && a.book.latest[k] == w;
  }

  /** What enters the pool later arrived later, after a pool without a preferred bid. */
  lemma LaterIsNotLess(
    s: SearchSettings, a: AuctionState, book: Book, now: real, later: real, k: string, j: string)
    requires a.book.Indexed() && a.terms.policy.selection.Cheapest?
    requires LaterBidsOnly(a.book, book, now) && a.terms.Deadline() <= now <= later
    requires InPool(s, a, now, k) && InPool(s, a.(book := book), later, j) && !InPool(s, a, now, j)
    ensures !HasPreferred(s, a, now) && k in book.latest && j in book.latest
    ensures KeyLe(ByArrival(book.latest[k]), ByArrival(book.latest[j]))
  {
    PoolStands(s, a, book, now, later, j);
    PoolStands(s, a, book, now, later, k);
  }

  /** Both keys name their bid, and neither looks at the profile that is filled in later. */
  lemma KeysStand(a: Book, book: Book, now: real, key: Bid -> RankKey)
    requires LaterBidsOnly(a, book, now) && (key == ByPrice({}) || key == ByArrival)
    ensures Names(key) && forall k | k in a.latest :: k in book.latest && key(book.latest[k]) == key(a.latest[k])
  {
    hide Book.Indexed;
  }

  /** Under the key that decided, the same bid is still least later. */
  lemma WinnerStands(
    s: SearchSettings, a: AuctionState, book: Book, now: real, later: real, k: string)
    requires a.book.Indexed() && a.terms.policy.selection.Cheapest?
    requires LaterBidsOnly(a.book, book, now) && a.terms.Deadline() <= now <= later
    requires InPool(s, a, now, k) && DecisionPool(s, a, now) != []
    requires a.book.latest[k]
          == Min(By(if HasPreferred(s, a, now) then ByPrice({}) else ByArrival), DecisionPool(s, a, now))
    ensures var a' := a.(book := book);
            var pool, key := DecisionPool(s, a', later), if HasPreferred(s, a, now) then ByPrice({}) else ByArrival;
            pool != [] && k in book.latest && Min(By(key), pool) == book.latest[k]
  {
    var key := if HasPreferred(s, a, now) then ByPrice({}) else ByArrival;
    var a' := a.(book := book);
    assert a'.book.Indexed();
    KeysStand(a.book, book, now, key);
    hide KeyLe, Min, DecisionPool, HasPreferred, LaterBidsOnly, Names, Book.Indexed, ByPrice, ByArrival;
    forall j | InPool(s, a', later, j) && !InPool(s, a, now, j)
      ensures KeyLe(key(book.latest[k]), key(book.latest[j]))
    {
      LaterIsNotLess(s, a, book, now, later, k, j);
    }
    LeastStands(s, a, book, now, later, key, k);
    SelectedIs(s, a', later, key, k);
  }

  /** The least bid of the pool is the stored bid with its key. */
  lemma SelectedIs(s: SearchSettings, a: AuctionState, now: real, key: Bid -> RankKey, k: string)
    requires a.book.Indexed() && DecisionPool(s, a, now) != []
    requires Min(By(key), DecisionPool(s, a, now)).bidKey == k
    ensures k in a.book.latest && Min(By(key), DecisionPool(s, a, now)) == a.book.latest[k]
  {
    MinIsLeast(key, DecisionPool(s, a, now));
    PoolMembers(s, a, now, Min(By(key), DecisionPool(s, a, now)));
  }

  /**
   Under CHEAPEST, a decision among preferred bids stands: any later evaluation after
   only new bids with later arrival times selects the same bid. A fallback decision
   stands too, unless the new bids bring in a second denomination.
   */
  lemma CheapestDecisionStands(
    s: SearchSettings, a: AuctionState, laterBids: seq<Bid>, now: real, later: real,
    taken: set<string>, laterTaken: set<string>)
    requires a.book.Valid() && a.terms.policy.selection.Cheapest? && now <= later
    requires Evaluate(s, a, now, taken).Success? && Evaluate(s, a, now, taken).value.status == Decided
    requires ObserveAll(a.book, laterBids).Success?
    requires forall b | b in laterBids :: b.bidKey !in a.book.latest && b.observedAt > now
    ensures var a' := a.(book := ObserveAll(a.book, laterBids).value);
            var first := Evaluate(s, a, now, taken).value;
            a'.book.Indexed()
            && var second := Evaluate(s, a', later, laterTaken);
               && (second.Success? <==>
                     first.reason == CheapestPreferred || OneDenomination(DecisionPool(s, a', later)))
               && (second.Failure? ==> second.error == MixedBidDenominations)
               && (second.Success? ==>
                     && second.value.status == Decided && second.value.reason == first.reason
                     && first.selected.Some? && second.value.selected.Some?
                     && second.value.selected.value.bidKey == first.selected.value.bidKey
                     && SameButProfile(first.selected.value, second.value.selected.value))
  {
    var book := ObserveAll(a.book, laterBids).value;
    var a' := a.(book := book);
    ObservingLaterBids(a.book, laterBids, now);
    var k := FirstDecision(s, a, now, taken);
    PreferredStands(s, a, book, now, later);
    WinnerStands(s, a, book, now, later, k);
    if HasPreferred(s, a, now) {
      DenominationsStand(s, a, book, now, later);
    }
    EvaluateDecides(s, a', later, laterTaken);
    CheapestKey(a.terms, s, HasPreferred(s, a', later), DecisionPool(s, a', later), laterTaken);
    assert a.book.latest[k].bidKey == k;
  }

  // ---- a fallback decision that later bids overturn ----

  function SampleBid(key: string, denom: string, observedAt: real): Bid {
    Bid(key, "provider", 1.0, denom, observedAt, "open", [], None, None, None)
  }

  /** No preferred provider, ten seconds of collection and ten more of fallback. */
  const FALLBACK_TERMS :=
    Terms(Policy(10.0, 10.0, {}, None, {}, {}, Cheapest, "policy"), 0.0)

  /** One bid, and a later one in another denomination. */
  function SampleBook(first: string, second: string, both: bool): Book {
    if both then
      Book([first, second], map[first := SampleBid(first, "uakt", 1.0), second := SampleBid(second, "uusd", 11.0)],
           map[])
    else Book([first], map[first := SampleBid(first, "uakt", 1.0)], map[])
  }

  lemma NobodyPreferred(s: SearchSettings, a: AuctionState, now: real)
    requires a.book.Indexed() && a.terms.policy.preferred == {}
    ensures !HasPreferred(s, a, now)
  {
    hide Candidates, Listed;
    var candidates := Candidates(s, a.terms, now, Listed(a.book));
    if HasPreferred(s, a, now) {
      PreferredAre(a.terms, candidates, Preferred(a.terms, candidates)[0]);
    }
  }

  lemma SamplePool(s: SearchSettings, first: string, second: string, both: bool, now: real, b: Bid)
    requires first != second && 10.0 <= now && (both ==> 11.0 <= now)
    ensures var a := AuctionState(FALLBACK_TERMS, SampleBook(first, second, both));
            && a.book.Indexed() && !HasPreferred(s, a, now)
            && (b in DecisionPool(s, a, now) <==>
                  b == SampleBid(first, "uakt", 1.0) || (both && b == SampleBid(second, "uusd", 11.0)))
  {
    var a := AuctionState(FALLBACK_TERMS, SampleBook(first, second, both));
    NobodyPreferred(s, a, now);
    hide DecisionPool, HasPreferred, Fits.GroupFit;
    PoolMembers(s, a, now, b);
    assert first in a.book.latest && a.book.latest[first] == SampleBid(first, "uakt", 1.0);
    assert both ==> second in a.book.latest && a.book.latest[second] == SampleBid(second, "uusd", 11.0);
  }

  lemma SampleVerdict(
    s: SearchSettings, first: string, second: string, both: bool, now: real, taken: set<string>)
    requires first != second && 10.0 <= now && (both ==> 11.0 <= now)
    ensures var a := AuctionState(FALLBACK_TERMS, SampleBook(first, second, both));
            a.book.Indexed()
            && (both ==> Evaluate(s, a, now, taken) == Failure(MixedBidDenominations))
            && (!both ==> && Evaluate(s, a, now, taken).Success?
                          && Evaluate(s, a, now, taken).value.status == Decided
                          && Evaluate(s, a, now, taken).value.reason == FirstEligibleFallback)
  {
    var a := AuctionState(FALLBACK_TERMS, SampleBook(first, second, both));
    var one, two := SampleBid(first, "uakt", 1.0), SampleBid(second, "uusd", 11.0);
    SamplePool(s, first, second, both, now, one);
    SamplePool(s, first, second, both, now, two);
    var pool := DecisionPool(s, a, now);
    if both {
      assert !OneDenomination(pool) by {
        var i :| 0 <= i < |pool| && pool[i] == one;
        var j :| 0 <= j < |pool| && pool[j] == two;
        assert pool[i].denom != pool[j].denom;
      }
    } else {
      forall i | 0 <= i < |pool| ensures pool[i] == one {
        SamplePool(s, first, second, both, now, pool[i]);
      }
    }
    EvaluateDecides(s, a, now, taken);
    CheapestKey(a.terms, s, false, pool, taken);
  }

  lemma SampleArrives(first: string, second: string)
    requires first != second
    ensures ObserveAll(SampleBook(first, second, false), [SampleBid(second, "uusd", 11.0)])
         == Success(SampleBook(first, second, true))
  {
    var book, bid := SampleBook(first, second, false), SampleBid(second, "uusd", 11.0);
    assert Bind(book, bid) == Success(Binding(bid, book));
    assert Observe(book, bid) == Success(Store(book, bid, None));
    assert Store(book, bid, None) == SampleBook(first, second, true);
    assert ObserveAll(book, [bid]) == ObserveAll(SampleBook(first, second, true), []);
  }

  lemma SampleIsValid(first: string, second: string)
    requires first != second && first != "" && second != ""
    ensures AuctionState(FALLBACK_TERMS, SampleBook(first, second, false)).Valid()
  {
  }

  /** The auction has decided by fallback; one later bid in another denomination, and it raises. */
  lemma FallbackDecisionOverturned(s: SearchSettings, first: string, second: string, taken: set<string>)
    requires first != second && first != "" && second != ""
    ensures var a := AuctionState(FALLBACK_TERMS, SampleBook(first, second, false));
            var after := ObserveAll(a.book, [SampleBid(second, "uusd", 11.0)]);
            && a.Valid()
            && Evaluate(s, a, 10.0, taken).Success? && Evaluate(s, a, 10.0, taken).value.status == Decided
            && Evaluate(s, a, 10.0, taken).value.reason == FirstEligibleFallback
            && after == Success(SampleBook(first, second, true)) && after.value.Indexed()
            && Evaluate(s, a.(book := after.value), 12.0, taken) == Failure(MixedBidDenominations)
  {
    hide Evaluate, ObserveAll, SampleBook, SampleBid, AuctionState.Valid, Book.Indexed;
    SampleVerdict(s, first, second, false, 10.0, taken);
    SampleVerdict(s, first, second, true, 12.0, taken);
    SampleArrives(first, second);
    SampleIsValid(first, second);
  }
}
