/**
 How an auction decides: eligibility, the candidate pool, and the ranking under
 each selection policy.
 */
module AuctionRules {
  import opened Wrappers
  import opened Sorting
  import opened Capacity
  import opened Bids
  import Fits = ProviderFit

  datatype Selection = Cheapest | Emptiest

  datatype Policy = Policy(
    collectionWindow: real,
    fallbackWindow: real,
    preferred: set<string>,
    eligible: Option<set<string>>,
    excluded: set<string>,
    requiredProofs: set<string>,
    selection: Selection,
    version: string)
  {
    ghost predicate Valid() {
      0.0 <= collectionWindow <= 60.0 && 0.0 <= fallbackWindow <= 120.0 && version != ""
    }
  }

  /** A snapshotted policy and the time its clock started. */
  datatype Terms = Terms(policy: Policy, startedAt: real) {
    function Deadline(): real {
      startedAt + policy.collectionWindow
    }

    function FallbackDeadline(): real {
      Deadline() + policy.fallbackWindow
    }

  }

  datatype AuctionState = AuctionState(terms: Terms, book: Book) {
    ghost predicate Valid() {
      terms.policy.Valid() && book.Valid() && book.ValuesValid()
    }
  }

  datatype Status = Collecting | Decided | Expired

  datatype Rejection =
    | BidNotOpen
    | ProviderExcluded
    | ProviderNotEligible
    | ObservedAfterFallbackDeadline
    | ProfileGroupUnbound
    | CapacityUnreadable
    | CapacityInsufficient
    | PlacementUnsupported

  datatype Reason =
    | CollectionWindowOpen
    | WaitingForFirstEligibleFallback
    | NoEligibleOpenBids
    | EmptiestPreferred
    | ProfileUnavailableFellBackToCheapest
    | CapacityIncompleteFellBackToCheapest
    | CheapestPreferred
    | FirstEligibleFallback

  datatype RejectedBid = RejectedBid(bidKey: string, provider: string, reason: Rejection)

  datatype AuctionResult = AuctionResult(
    status: Status,
    version: string,
    startedAt: real,
    deadline: real,
    fallbackDeadline: real,
    evaluatedAt: real,
    selected: Option<Bid>,
    reason: Reason,
    considered: seq<Bid>,
    rejected: seq<RejectedBid>,
    missingProofs: set<string>)

  datatype EvaluateError = MixedBidDenominations | LostEvidence

  // ---- ranking keys ----

  predicate StringLe(a: string, b: string) {
    LexLe(CharLess, a, b)
  }

  /** The tuple every ordering of bids compares; unused leading places are constant. */
  datatype RankKey = RankKey(
    taken: bool, incomplete: bool, score: real, amount: real, provider: string, bidKey: string)

  predicate NameLe(a: RankKey, b: RankKey) {
    if a.provider == b.provider then StringLe(a.bidKey, b.bidKey) else StringLe(a.provider, b.provider)
  }

  predicate KeyLe(a: RankKey, b: RankKey) {
    if a.taken != b.taken then b.taken
    else if a.incomplete != b.incomplete then b.incomplete
    else if a.score != b.score then a.score < b.score
    else if a.amount != b.amount then a.amount < b.amount
    else NameLe(a, b)
  }

  function By(key: Bid -> RankKey): (Bid, Bid) -> bool {
    (x, y) => KeyLe(key(x), key(y))
  }

  function ByProvider(b: Bid): RankKey {
    RankKey(false, false, 0.0, 0.0, b.provider, b.bidKey)
  }

  function ByArrival(b: Bid): RankKey {
    RankKey(false, false, 0.0, b.observedAt, b.provider, b.bidKey)
  }

  function ByPrice(taken: set<string>): Bid -> RankKey {
    (b: Bid) => RankKey(b.provider in taken, false, 0.0, b.price, b.provider, b.bidKey)
  }

  /** Every node of the provider reports what the ranking needs. */
  predicate RankingKnown(capacity: Option<ProviderCapacity>, profile: Option<ResourceProfile>) {
    capacity.Some? && profile.Some? && Fits.RankingComplete(capacity.value, profile.value)
  }

  function FractionOf(s: SearchSettings, capacity: Option<ProviderCapacity>, profile: Option<ResourceProfile>)
    : Option<real>
  {
    if capacity.Some? && profile.Some?
    then Fits.AvailableFractionFor(s, capacity.value, profile.value)
    else None
  }

  predicate Ranked(b: Bid) {
    RankingKnown(b.capacity, b.profile)
  }

  function Score(s: SearchSettings, b: Bid): Option<real> {
    FractionOf(s, b.capacity, b.profile)
  }

  function ByRank(s: SearchSettings, taken: set<string>): Bid -> RankKey {
    (b: Bid) =>
      var score := Score(s, b);
      if Ranked(b) && score.Some?
      then RankKey(b.provider in taken, false, -score.value, b.price, b.provider, b.bidKey)
      else RankKey(b.provider in taken, true, 0.0, b.price, b.provider, b.bidKey)
  }

  /** The first of the least bids, as `min(pool, key=...)` returns it. */
  function Min(le: (Bid, Bid) -> bool, pool: seq<Bid>): Bid
    requires pool != []
  {
    if |pool| == 1 then pool[0]
    else
      var m := Min(le, pool[1..]);
      if le(pool[0], m) then pool[0] else m
  }

  // ---- candidates ----

  predicate IsOpen(state: string) {
    && |state| == 4
    && (state[0] == 'o' || state[0] == 'O') && (state[1] == 'p' || state[1] == 'P')
    && (state[2] == 'e' || state[2] == 'E') && (state[3] == 'n' || state[3] == 'N')
  }

  function CapacityRejection(fit: CapacityFit): Option<Rejection> {
    match fit
    case Fit => None
    case RequiredDimensionUnreadable => Some(CapacityUnreadable)
    case InsufficientCapacity => Some(CapacityInsufficient)
    case PlacementSearchUnsupported => Some(PlacementUnsupported)
  }

  /** Why one bid may not take part at this time, if it may not. */
  function Judge(s: SearchSettings, t: Terms, now: real, b: Bid): Option<Rejection> {
    if !IsOpen(b.state) then Some(BidNotOpen)
    else if b.provider in t.policy.excluded then Some(ProviderExcluded)
    else if t.policy.eligible.Some? && b.provider !in t.policy.eligible.value then Some(ProviderNotEligible)
    else if b.observedAt > (if now < t.FallbackDeadline() then now else t.FallbackDeadline()) then
      Some(ObservedAfterFallbackDeadline)
    else if b.profile.Some? && b.gseq.None? then Some(ProfileGroupUnbound)
    else if t.policy.selection.Emptiest? && b.profile.Some? then
      if b.capacity.None? then Some(CapacityUnreadable)
      else CapacityRejection(Fits.GroupFit(s, b.capacity.value, b.profile.value))
    else None
  }

  function Candidates(s: SearchSettings, t: Terms, now: real, bids: seq<Bid>): seq<Bid> {
    if bids == [] then []
    else (if Judge(s, t, now, bids[0]).None? then [bids[0]] else []) + Candidates(s, t, now, bids[1..])
  }

  function Rejected(s: SearchSettings, t: Terms, now: real, bids: seq<Bid>): seq<RejectedBid> {
    if bids == [] then []
    else
      (match Judge(s, t, now, bids[0])
       case None => []
       case Some(r) => [RejectedBid(bids[0].bidKey, bids[0].provider, r)])
      + Rejected(s, t, now, bids[1..])
  }

  predicate IsPreferred(t: Terms, b: Bid) {
    b.provider in t.policy.preferred && b.observedAt <= t.Deadline()
  }

  function Preferred(t: Terms, bids: seq<Bid>): seq<Bid> {
    if bids == [] then []
    else (if IsPreferred(t, bids[0]) then [bids[0]] else []) + Preferred(t, bids[1..])
  }

  /** Every stored bid, in the order the dictionary yields them. */
  function Values(book: Book): seq<Bid>
    requires book.Indexed()
  {
    seq(|book.order|, i requires 0 <= i < |book.order| => book.latest[book.order[i]])
  }

  function Listed(book: Book): seq<Bid>
    requires book.Indexed()
  {
    Sort(By(ByProvider), Values(book))
  }

  // ---- the decision ----

  predicate OneDenomination(pool: seq<Bid>) {
    forall i, j | 0 <= i < |pool| && 0 <= j < |pool| :: pool[i].denom == pool[j].denom
  }

  predicate AllProfiled(pool: seq<Bid>) {
    forall i | 0 <= i < |pool| :: pool[i].profile.Some?
  }

  /** `rank` raises AssertionError on a ranked bid without a score. */
  predicate RankRaises(s: SearchSettings, pool: seq<Bid>) {
    exists i | 0 <= i < |pool| :: Ranked(pool[i]) && Score(s, pool[i]).None?
  }

  datatype Choice = Choice(selected: Bid, reason: Reason, considered: seq<Bid>)

  function Choose(pool: seq<Bid>, key: Bid -> RankKey, reason: Reason): Choice
    requires pool != []
  {
    Choice(Min(By(key), pool), reason, Sort(By(key), pool))
  }

  function Decide(s: SearchSettings, t: Terms, preferred: bool, pool: seq<Bid>, taken: set<string>)
    : Result<Choice, EvaluateError>
    requires pool != []
  {
    if !OneDenomination(pool) then Failure(MixedBidDenominations)
    else if preferred && t.policy.selection.Emptiest? then
      if !AllProfiled(pool) then
        Success(Choose(pool, ByPrice(taken), ProfileUnavailableFellBackToCheapest))
      else if RankRaises(s, pool) then Failure(LostEvidence)
      else
        var winner := Min(By(ByRank(s, taken)), pool);
        Success(Choose(pool, ByRank(s, taken),
                       if Ranked(winner) then EmptiestPreferred else CapacityIncompleteFellBackToCheapest))
    else if preferred then Success(Choose(pool, ByPrice({}), CheapestPreferred))
    else Success(Choose(pool, ByArrival, FirstEligibleFallback))
  }

  function Outcome(t: Terms, now: real, status: Status, reason: Reason, rejected: seq<RejectedBid>)
    : AuctionResult
  {
    AuctionResult(status, t.policy.version, t.startedAt, t.Deadline(), t.FallbackDeadline(), now,
                  None, reason, [], rejected, {})
  }

  function Report(t: Terms, now: real, choice: Choice, rejected: seq<RejectedBid>): AuctionResult {
    AuctionResult(Decided, t.policy.version, t.startedAt, t.Deadline(), t.FallbackDeadline(), now,
                  Some(choice.selected), choice.reason, choice.considered, rejected,
                  set p | p in t.policy.requiredProofs && p !in choice.selected.proofs)
  }

  /** The preferred candidates that arrived within the collection window, or else every candidate. */
  function PoolOf(t: Terms, candidates: seq<Bid>): seq<Bid> {
    if Preferred(t, candidates) != [] then Preferred(t, candidates) else candidates
  }

  /** The verdict once the collection window has closed. */
  function Conclude(
    s: SearchSettings, t: Terms, candidates: seq<Bid>, rejected: seq<RejectedBid>, now: real, taken: set<string>)
    : Result<AuctionResult, EvaluateError>
  {
    if candidates == [] then
      Success(if now < t.FallbackDeadline()
              then Outcome(t, now, Collecting, WaitingForFirstEligibleFallback, rejected)
              else Outcome(t, now, Expired, NoEligibleOpenBids, rejected))
    else
      var choice :- Decide(s, t, Preferred(t, candidates) != [], PoolOf(t, candidates), taken);
      Success(Report(t, now, choice, rejected))
  }

  function EvaluateListed(s: SearchSettings, t: Terms, listed: seq<Bid>, now: real, taken: set<string>)
    : Result<AuctionResult, EvaluateError>
  {
    if now < t.Deadline() then Success(Outcome(t, now, Collecting, CollectionWindowOpen, []))
    else Conclude(s, t, Candidates(s, t, now, listed), Rejected(s, t, now, listed), now, taken)
  }

  function Evaluate(s: SearchSettings, a: AuctionState, now: real, taken: set<string>)
    : Result<AuctionResult, EvaluateError>
    requires a.book.Indexed()
  {
    EvaluateListed(s, a.terms, Listed(a.book), now, taken)
  }

  // ---- the orders are total, and strict on distinct bids ----

  lemma StringOrder()
    ensures forall a: string, b: string :: StringLe(a, b) || StringLe(b, a)
    ensures forall a: string, b: string | StringLe(a, b) && StringLe(b, a) :: a == b
    ensures forall a: string, b: string, c: string | StringLe(a, b) && StringLe(b, c) :: StringLe(a, c)
  {
    forall a: string, b: string
      ensures StringLe(a, b) || StringLe(b, a)
      ensures StringLe(a, b) && StringLe(b, a) ==> a == b
    {
      LexTotal(CharLess, a, b);
    }
    forall a: string, b: string, c: string | StringLe(a, b) && StringLe(b, c)
      ensures StringLe(a, c)
    {
      LexTransitive(CharLess, a, b, c);
    }
  }

  lemma KeyOrder()
    ensures forall a: RankKey, b: RankKey :: KeyLe(a, b) || KeyLe(b, a)
    ensures forall a: RankKey, b: RankKey | KeyLe(a, b) && KeyLe(b, a) :: a == b
    ensures forall a: RankKey, b: RankKey, c: RankKey | KeyLe(a, b) && KeyLe(b, c) :: KeyLe(a, c)
  {
    StringOrder();
  }

  lemma ByIsPreorder(key: Bid -> RankKey)
    ensures TotalPreorder(By(key))
  {
    KeyOrder();
  }

  /** The key names the bid it was read from. */
  ghost predicate Names(key: Bid -> RankKey) {
    forall b: Bid :: key(b).bidKey == b.bidKey
  }

  ghost predicate UniqueKeys(bids: seq<Bid>) {
    forall x, y | x in bids && y in bids && x.bidKey == y.bidKey :: x == y
  }

  lemma ByIsStrict(key: Bid -> RankKey, bids: seq<Bid>)
    requires Names(key) && UniqueKeys(bids)
    ensures AntisymmetricOn(By(key), bids)
  {
    KeyOrder();
  }

  lemma {:induction false} MinIsFirst(le: (Bid, Bid) -> bool, pool: seq<Bid>)
    requires pool != []
    ensures Sort(le, pool) != [] && Min(le, pool) == Sort(le, pool)[0]
  {
    if |pool| > 1 {
      MinIsFirst(le, pool[1..]);
    }
  }

  lemma {:induction false} MinIsLeast(key: Bid -> RankKey, pool: seq<Bid>)
    requires pool != []
    ensures Min(By(key), pool) in pool
    ensures forall b | b in pool :: KeyLe(key(Min(By(key), pool)), key(b))
  {
    KeyOrder();
    if |pool| > 1 {
      MinIsLeast(key, pool[1..]);
      assert pool == [pool[0]] + pool[1..];
    }
  }

  // ---- candidates and rejections partition the stored bids ----

  lemma {:induction false} CandidatesAre(s: SearchSettings, t: Terms, now: real, bids: seq<Bid>, b: Bid)
    ensures b in Candidates(s, t, now, bids) <==> b in bids && Judge(s, t, now, b).None?
  {
    if bids != [] {
      CandidatesAre(s, t, now, bids[1..], b);
      assert bids == [bids[0]] + bids[1..];
    }
  }

  lemma {:induction false} PreferredAre(t: Terms, bids: seq<Bid>, b: Bid)
    ensures b in Preferred(t, bids) <==> b in bids && IsPreferred(t, b)
  {
    if bids != [] {
      PreferredAre(t, bids[1..], b);
      assert bids == [bids[0]] + bids[1..];
    }
  }

  lemma {:induction false} RejectedAre(s: SearchSettings, t: Terms, now: real, bids: seq<Bid>, r: RejectedBid)
    ensures r in Rejected(s, t, now, bids)
       <==> exists b | b in bids ::
              Judge(s, t, now, b) == Some(r.reason) && r == RejectedBid(b.bidKey, b.provider, r.reason)
  {
    if bids != [] {
      RejectedAre(s, t, now, bids[1..], r);
      assert bids == [bids[0]] + bids[1..];
      if r in Rejected(s, t, now, bids) && r !in Rejected(s, t, now, bids[1..]) {
        assert bids[0] in bids;
      }
    }
  }

  lemma ValuesAre(book: Book)
    requires book.Indexed()
    ensures forall b :: b in Values(book) <==> exists k | k in book.latest :: b == book.latest[k]
    ensures UniqueKeys(Values(book)) && |Values(book)| == |book.order|
  {
    forall b
      ensures b in Values(book) <==> exists k | k in book.latest :: b == book.latest[k]
    {
      if k :| k in book.latest && b == book.latest[k] {
        var i :| 0 <= i < |book.order| && book.order[i] == k;
        assert Values(book)[i] == b;
      }
      if b in Values(book) {
        var i :| 0 <= i < |book.order| && Values(book)[i] == b;
        assert book.order[i] in book.order;
      }
    }
  }

  lemma ListedAre(book: Book)
    requires book.Indexed()
    ensures multiset(Listed(book)) == multiset(Values(book))
    ensures forall b :: b in Listed(book) <==> exists k | k in book.latest :: b == book.latest[k]
    ensures UniqueKeys(Listed(book)) && UniqueKeys(Values(book))
    ensures |Listed(book)| == |book.order|
  {
    hide KeyLe, Sort, Values, Book.Indexed;
    ValuesAre(book);
    ByIsPreorder(ByProvider);
    SortSorts(By(ByProvider), Values(book));
    MultisetMembers(Listed(book), Values(book));
  }

  lemma {:induction false} PartitionSizes(s: SearchSettings, t: Terms, now: real, bids: seq<Bid>)
    ensures |Candidates(s, t, now, bids)| + |Rejected(s, t, now, bids)| == |bids|
  {
    if bids != [] {
      PartitionSizes(s, t, now, bids[1..]);
    }
  }

  /** Each stored bid is a candidate or rejected, once, and never both. */
  lemma StoredBidsPartition(s: SearchSettings, a: AuctionState, now: real, k: string)
    requires a.book.Indexed() && k in a.book.latest
    ensures var listed, b := Listed(a.book), a.book.latest[k];
            var isCandidate := b in Candidates(s, a.terms, now, listed);
            var isRejected := exists r | r in Rejected(s, a.terms, now, listed) :: r.bidKey == k;
            && isCandidate != isRejected
            && |Candidates(s, a.terms, now, listed)| + |Rejected(s, a.terms, now, listed)| == |a.book.order|
  {
    var listed, b := Listed(a.book), a.book.latest[k];
    ListedAre(a.book);
    CandidatesAre(s, a.terms, now, listed, b);
    PartitionSizes(s, a.terms, now, listed);
    if Judge(s, a.terms, now, b).Some? {
      var r := RejectedBid(b.bidKey, b.provider, Judge(s, a.terms, now, b).value);
      RejectedAre(s, a.terms, now, listed, r);
    }
    if r :| r in Rejected(s, a.terms, now, listed) && r.bidKey == k {
      RejectedAre(s, a.terms, now, listed, r);
    }
  }

  // ---- the order of arrival is not part of the verdict ----

  function At(latest: map<string, Bid>, default: Bid): string -> Bid {
    (k: string) => if k in latest then latest[k] else default
  }

  lemma ListedIgnoresOrder(book: Book, other: Book)
    requires book.Indexed() && other.Indexed() && book.latest == other.latest
    ensures Listed(book) == Listed(other)
  {
    assert other.order != [] ==> other.order[0] in other.latest;
    if book.order != [] {
      var at := At(book.latest, Values(book)[0]);
      OrdersPermute(book.order, other.order);
      MapPermutes(at, book.order, other.order);
      assert Map(at, book.order) == Values(book);
      assert Map(at, other.order) == Values(other);
    }
    ListedAre(book);
    ByIsPreorder(ByProvider);
    ByIsStrict(ByProvider, Values(book));
    SortCanonical(By(ByProvider), Values(book), Values(other));
  }

  /** Auctions with the same bids give the same evaluation, whatever order they arrived in. */
  lemma EvaluateIgnoresOrder(s: SearchSettings, a: AuctionState, other: Book, now: real, taken: set<string>)
    requires a.book.Indexed() && other.Indexed() && a.book.latest == other.latest
    ensures Evaluate(s, a.(book := other), now, taken) == Evaluate(s, a, now, taken)
  {
    ListedIgnoresOrder(a.book, other);
  }

  /**
   Observing a batch of distinct bids in any order either raises in every order, or
   gives auctions that evaluate alike for ever: now, and after any further observations.
   */
  lemma BatchOrderNeverShows(
    s: SearchSettings, a: AuctionState, one: seq<Bid>, two: seq<Bid>, later: seq<Bid>,
    now: real, taken: set<string>)
    requires a.book.Valid() && DistinctKeys(one) && multiset(one) == multiset(two)
    ensures ObserveAll(a.book, one).Success? == ObserveAll(a.book, two).Success?
    ensures ObserveAll(a.book, one).Success? ==>
              var first, second := ObserveAll(a.book, one).value, ObserveAll(a.book, two).value;
              && first.Indexed() && second.Indexed()
              && Evaluate(s, a.(book := first), now, taken) == Evaluate(s, a.(book := second), now, taken)
              && ObserveAll(first, later).Success? == ObserveAll(second, later).Success?
              && (ObserveAll(first, later).Success? ==>
                    && ObserveAll(first, later).value.Indexed() && ObserveAll(second, later).value.Indexed()
                    && Evaluate(s, a.(book := ObserveAll(first, later).value), now, taken)
                       == Evaluate(s, a.(book := ObserveAll(second, later).value), now, taken))
  {
    ObservationOrderIrrelevant(a.book, one, two);
    if ObserveAll(a.book, one).Success? {
      var first, second := ObserveAll(a.book, one).value, ObserveAll(a.book, two).value;
      ObserveAllKeeps(a.book, one);
      ObserveAllKeeps(a.book, two);
      EvaluateIgnoresOrder(s, a.(book := first), second, now, taken);
      ObserveAllIgnoresOrder(first, second, later);
      if ObserveAll(first, later).Success? {
        ObserveAllKeeps(first, later);
        ObserveAllKeeps(second, later);
        EvaluateIgnoresOrder(
          s, a.(book := ObserveAll(first, later).value), ObserveAll(second, later).value, now, taken);
      }
    }
  }

  lemma {:induction false} OrdersPermute(a: seq<string>, b: seq<string>)
    requires forall i, j | 0 <= i < j < |a| :: a[i] != a[j]
    requires forall i, j | 0 <= i < j < |b| :: b[i] != b[j]
    requires forall k :: k in a <==> k in b
    ensures multiset(a) == multiset(b)
  {
    forall k
      ensures multiset(a)[k] == multiset(b)[k]
    {
      CountOnce(a, k);
      CountOnce(b, k);
    }
  }

  lemma {:induction false} CountOnce(a: seq<string>, k: string)
    requires forall i, j | 0 <= i < j < |a| :: a[i] != a[j]
    ensures multiset(a)[k] == if k in a then 1 else 0
  {
    if a != [] {
      CountOnce(a[1..], k);
      assert a == [a[0]] + a[1..];
      assert multiset(a) == multiset{a[0]} + multiset(a[1..]);
    }
  }

  /** The reported choice is the least of the pool, and the considered list is the pool in order. */
  lemma ChoiceIsLeast(pool: seq<Bid>, key: Bid -> RankKey, reason: Reason)
    requires pool != []
    ensures var c := Choose(pool, key, reason);
            && c.considered != [] && c.selected == c.considered[0] && c.selected in pool
            && multiset(c.considered) == multiset(pool)
            && Sorted(By(key), c.considered)
            && forall b | b in pool :: KeyLe(key(c.selected), key(b))
  {
    ByIsPreorder(key);
    SortSorts(By(key), pool);
    MinIsFirst(By(key), pool);
    MinIsLeast(key, pool);
  }
}
