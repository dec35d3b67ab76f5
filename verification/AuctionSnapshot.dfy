/**
 Crash resume: a snapshot carries the whole of an auction, and restoring replays it
 through `observe`. Re-anchoring the clock only shifts times.
 */
module AuctionSnapshot {
  import opened Wrappers
  import opened Sorting
  import opened Capacity
  import opened Bids
  import opened AuctionRules

  const SNAPSHOT_VERSION := "auction-snapshot/v3"

  datatype Snapshot = Snapshot(
    version: string, scope: Option<string>, startedAt: real, policy: Policy, bids: seq<Bid>)

  datatype RestoreError =
    | UnsupportedVersion
    | EmptyScope
    | ScopeMismatch
    | ClockNotRelative
    | DuplicateKey
    | Refused(error: ObserveError)

  function TakeSnapshot(a: AuctionState, scope: Option<string>): Result<Snapshot, RestoreError>
    requires a.book.Indexed()
  {
    if scope == Some("") then Failure(EmptyScope)
    else Success(Snapshot(SNAPSHOT_VERSION, scope, a.terms.startedAt, a.terms.policy, Values(a.book)))
  }

  function ShiftBid(delta: real): Bid -> Bid {
    (b: Bid) => b.(observedAt := b.observedAt + delta)
  }

  predicate HasDuplicateKey(bids: seq<Bid>) {
    exists i, j | 0 <= i < j < |bids| :: bids[i].bidKey == bids[j].bidKey
  }

  function Restore(snapshot: Snapshot, expectScope: Option<string>, rebase: Option<real>)
    : Result<AuctionState, RestoreError>
  {
    if snapshot.version != SNAPSHOT_VERSION then Failure(UnsupportedVersion)
    else if snapshot.scope == Some("") || expectScope == Some("") then Failure(EmptyScope)
    else if snapshot.scope != expectScope then Failure(ScopeMismatch)
    else if rebase.None? && snapshot.startedAt != 0.0 then Failure(ClockNotRelative)
    else
      var startedAt := if rebase.None? then 0.0 else rebase.value;
      var bids := Map(ShiftBid(startedAt - snapshot.startedAt), snapshot.bids);
      if HasDuplicateKey(bids) then Failure(DuplicateKey)
      else
        match ObserveAll(EMPTY_BOOK, bids)
        case Failure(e) => Failure(Refused(e))
        case Success(book) => Success(AuctionState(Terms(snapshot.policy, startedAt), book))
  }

  // ---- replaying the stored bids rebuilds the book ----

  ghost predicate GroupSeen(book: Book, i: nat, g: nat)
    requires book.Indexed() && i <= |book.order|
  {
    exists j | 0 <= j < i :: book.latest[book.order[j]].gseq == Some(g)
  }

  /** The book as it stood when only its first `i` keys had been observed. */
  ghost function Prefix(book: Book, i: nat): Book
    requires book.Indexed() && i <= |book.order|
  {
    Book(book.order[..i],
         map k | k in book.order[..i] :: book.latest[k],
         map g | g in book.profiles && GroupSeen(book, i, g) :: book.profiles[g])
  }

  lemma GroupSeenNext(book: Book, i: nat, g: nat)
    requires book.Indexed() && i < |book.order|
    ensures GroupSeen(book, i + 1, g)
       <==> GroupSeen(book, i, g) || book.latest[book.order[i]].gseq == Some(g)
  {
    if GroupSeen(book, i, g) {
      var j :| 0 <= j < i && book.latest[book.order[j]].gseq == Some(g);
      assert 0 <= j < i + 1;
    }
  }

  lemma PrefixGrouped(book: Book, i: nat)
    requires book.Valid() && i <= |book.order|
    ensures Prefix(book, i).Grouped()
  {
    var p := Prefix(book, i);
    forall k | k in p.latest && p.latest[k].gseq.Some?
      ensures p.latest[k].profile == p.Known(p.latest[k].gseq.value)
    {
      var j :| 0 <= j < i && book.order[j] == k;
      assert GroupSeen(book, i, p.latest[k].gseq.value);
    }
  }

  lemma PrefixMerge(book: Book, i: nat)
    requires book.Valid() && i < |book.order|
    ensures Merge(Prefix(book, i).profiles, book.latest[book.order[i]])
         == Success(Prefix(book, i + 1).profiles)
  {
    var b := book.latest[book.order[i]];
    var before, after := Prefix(book, i).profiles, Prefix(book, i + 1).profiles;
    assert b.gseq.Some? ==> b.profile == book.Known(b.gseq.value);
    forall g: nat
      ensures g in after <==> g in before || (b.gseq == Some(g) && b.profile.Some?)
      ensures g in after ==> after[g] == book.profiles[g]
      ensures g in before ==> before[g] == book.profiles[g]
    {
      GroupSeenNext(book, i, g);
    }
    MergeAdds(before, after, b);
  }

  lemma MergeAdds(before: map<nat, ResourceProfile>, after: map<nat, ResourceProfile>, b: Bid)
    requires forall g: nat :: g in after <==> g in before || (b.gseq == Some(g) && b.profile.Some?)
    requires forall g | g in before :: after[g] == before[g]
    requires b.gseq.Some? && b.profile.Some? ==> after[b.gseq.value] == b.profile.value
    ensures Merge(before, b) == Success(after)
  {
    var merged := Merge(before, b);
    assert merged.Success?;
    assert merged.value == after;
  }

  lemma FillNothing(book: Book, k: string)
    requires book.Grouped() && k in book.latest
    ensures Fill(book.latest[k], book.profiles) == book.latest[k]
  {
  }

  lemma PrefixLatest(book: Book, i: nat)
    requires book.Indexed() && i < |book.order|
    ensures var key := book.order[i];
            && key in book.latest && key !in Prefix(book, i).latest
            && Prefix(book, i).latest[key := book.latest[key]] == Prefix(book, i + 1).latest
            && Prefix(book, i).order + [key] == Prefix(book, i + 1).order
  {
    assert book.order[..i + 1] == book.order[..i] + [book.order[i]];
  }

  lemma PrefixFilled(book: Book, i: nat)
    requires book.Valid() && i <= |book.order|
    ensures var p := Prefix(book, i); FillAll(p.latest, p.profiles) == p.latest
  {
    var p := Prefix(book, i);
    PrefixGrouped(book, i);
    forall k | k in p.latest
      ensures Fill(p.latest[k], p.profiles) == p.latest[k]
    {
      FillNothing(p, k);
    }
  }

  lemma PrefixStep(book: Book, i: nat)
    requires book.Valid() && i < |book.order|
    ensures Observe(Prefix(book, i), book.latest[book.order[i]]) == Success(Prefix(book, i + 1))
  {
    var p, next := Prefix(book, i), Prefix(book, i + 1);
    var key := book.order[i];
    var b := book.latest[key];
    PrefixLatest(book, i);
    PrefixGrouped(book, i);
    PrefixMerge(book, i);
    PrefixFilled(book, i + 1);
    ObserveShape(p, b);
    assert b.bidKey == key;
    assert Effective(p, b) == Success(b);
    var after := Observe(p, b).value;
    assert after.profiles == next.profiles;
    assert after.latest == FillAll(p.latest[key := b], next.profiles);
    assert after.order == next.order;
  }

  lemma {:induction false} ObserveAllAppend(book: Book, bids: seq<Bid>, b: Bid)
    requires ObserveAll(book, bids).Success?
    ensures ObserveAll(book, bids + [b]) == Observe(ObserveAll(book, bids).value, b)
    decreases |bids|
  {
    if bids == [] {
      assert [] + [b] == [b];
      assert ([b])[1..] == [];
      if Observe(book, b).Success? {
        assert ObserveAll(Observe(book, b).value, []) == Observe(book, b);
      }
    } else {
      assert (bids + [b])[1..] == bids[1..] + [b];
      ObserveAllAppend(Observe(book, bids[0]).value, bids[1..], b);
    }
  }

  lemma {:induction false} ReplayPrefix(book: Book, i: nat)
    requires book.Valid() && i <= |book.order|
    ensures ObserveAll(EMPTY_BOOK, Values(book)[..i]) == Success(Prefix(book, i))
  {
    hide Observe, Fill, Merge;
    if i == 0 {
      assert Prefix(book, 0).profiles == map[];
      assert Prefix(book, 0).latest == map[];
    } else {
      ReplayPrefix(book, i - 1);
      assert Values(book)[..i] == Values(book)[..i - 1] + [Values(book)[i - 1]];
      ObserveAllAppend(EMPTY_BOOK, Values(book)[..i - 1], Values(book)[i - 1]);
      PrefixStep(book, i - 1);
    }
  }

  lemma WholePrefix(book: Book)
    requires book.Valid()
    ensures Prefix(book, |book.order|) == book
  {
    var n := |book.order|;
    assert book.order[..n] == book.order;
    forall g | g in book.profiles
      ensures GroupSeen(book, n, g)
    {
      var k :| k in book.latest && book.latest[k].gseq == Some(g);
      var j :| 0 <= j < n && book.order[j] == k;
    }
    assert Prefix(book, n).latest == book.latest;
    assert Prefix(book, n).profiles == book.profiles;
  }

  /** Replaying the bids of a book in their order gives back that very book. */
  lemma ReplayRebuilds(book: Book)
    requires book.Valid()
    ensures ObserveAll(EMPTY_BOOK, Values(book)) == Success(book)
  {
    hide Prefix, ObserveAll, Book.Grouped, Book.Witnessed;
    var n := |book.order|;
    ReplayPrefix(book, n);
    WholePrefix(book);
    assert Values(book)[..n] == Values(book);
  }

  // ---- shifting the clock ----

  function ShiftBook(book: Book, delta: real): Book {
    book.(latest := map k | k in book.latest :: ShiftBid(delta)(book.latest[k]))
  }

  function Shift(a: AuctionState, delta: real): AuctionState {
    AuctionState(a.terms.(startedAt := a.terms.startedAt + delta), ShiftBook(a.book, delta))
  }

  lemma ShiftBookValid(book: Book, delta: real)
    requires book.Valid()
    ensures ShiftBook(book, delta).Valid()
    ensures Values(ShiftBook(book, delta)) == Map(ShiftBid(delta), Values(book))
  {
    var shifted := ShiftBook(book, delta);
    forall k | k in shifted.latest && shifted.latest[k].gseq.Some?
      ensures shifted.latest[k].profile == shifted.Known(shifted.latest[k].gseq.value)
    {
      assert book.latest[k].gseq == shifted.latest[k].gseq;
    }
    forall g | g in shifted.profiles
      ensures exists k | k in shifted.latest :: shifted.latest[k].gseq == Some(g)
    {
      var k :| k in book.latest && book.latest[k].gseq == Some(g);
      assert shifted.latest[k].gseq == Some(g);
    }
    forall i | 0 <= i < |book.order|
      ensures Values(shifted)[i] == ShiftBid(delta)(Values(book)[i])
    {
      assert book.order[i] in book.order;
    }
  }

  lemma NoDuplicates(book: Book, delta: real)
    requires book.Indexed()
    ensures !HasDuplicateKey(Map(ShiftBid(delta), Values(book)))
  {
    forall i, j | 0 <= i < j < |book.order|
      ensures Map(ShiftBid(delta), Values(book))[i].bidKey != Map(ShiftBid(delta), Values(book))[j].bidKey
    {
      assert book.order[i] in book.order && book.order[j] in book.order;
    }
  }

  /** Restoring a snapshot with a rebased clock gives the same auction, shifted. */
  lemma RestoreRebases(a: AuctionState, scope: Option<string>, rebase: real)
    requires a.Valid() && scope != Some("")
    ensures Restore(TakeSnapshot(a, scope).value, scope, Some(rebase))
         == Success(Shift(a, rebase - a.terms.startedAt))
  {
    hide ObserveAll;
    var delta := rebase - a.terms.startedAt;
    NoDuplicates(a.book, delta);
    ShiftBookValid(a.book, delta);
    ReplayRebuilds(ShiftBook(a.book, delta));
  }

  /**
   A snapshot of an auction whose clock starts at 0 restores to the same auction: the
   same bids in the same order and the same profile table.
   */
  lemma RestoreIsInverse(a: AuctionState, scope: Option<string>)
    requires a.Valid() && scope != Some("") && a.terms.startedAt == 0.0
    ensures Restore(TakeSnapshot(a, scope).value, scope, None) == Success(a)
  {
    NoDuplicates(a.book, 0.0);
    assert Map(ShiftBid(0.0), Values(a.book)) == Values(a.book);
    ReplayRebuilds(a.book);
  }

  /** What `restore` accepts is an auction again, whoever wrote the snapshot. */
  lemma RestoredIsValid(snapshot: Snapshot, expectScope: Option<string>, rebase: Option<real>)
    requires Restore(snapshot, expectScope, rebase).Success?
    ensures Restore(snapshot, expectScope, rebase).value.book.Valid()
    ensures forall i | 0 <= i < |snapshot.bids| ::
              snapshot.bids[i].bidKey in Restore(snapshot, expectScope, rebase).value.book.latest
    ensures snapshot.policy.Valid() && (forall b | b in snapshot.bids :: b.Valid())
            ==> Restore(snapshot, expectScope, rebase).value.Valid()
  {
    hide ObserveAll, HasDuplicateKey, KeepsBook;
    var startedAt := if rebase.None? then 0.0 else rebase.value;
    var bids := Map(ShiftBid(startedAt - snapshot.startedAt), snapshot.bids);
    ObserveAllKeeps(EMPTY_BOOK, bids);
    forall i | 0 <= i < |snapshot.bids|
      ensures snapshot.bids[i].bidKey in ObserveAll(EMPTY_BOOK, bids).value.latest
    {
      ObservedIsStored(EMPTY_BOOK, bids, i);
    }
    if snapshot.policy.Valid() && forall b | b in snapshot.bids :: b.Valid() {
      ShiftedAreValid(snapshot.bids, startedAt - snapshot.startedAt);
      ObserveAllKeepsValues(EMPTY_BOOK, bids);
    }
  }

  lemma ShiftedAreValid(bids: seq<Bid>, delta: real)
    requires forall b | b in bids :: b.Valid()
    ensures forall b | b in Map(ShiftBid(delta), bids) :: b.Valid()
  {
    forall i | 0 <= i < |bids|
      ensures Map(ShiftBid(delta), bids)[i].Valid()
    {
      assert bids[i] in bids;
    }
  }

  lemma {:induction false} ObservedIsStored(book: Book, bids: seq<Bid>, i: nat)
    requires book.Valid() && ObserveAll(book, bids).Success? && i < |bids|
    ensures bids[i].bidKey in ObserveAll(book, bids).value.latest
    decreases |bids|
  {
    ObserveKeeps(book, bids[0]);
    var next := Observe(book, bids[0]).value;
    ObserveAllKeeps(next, bids[1..]);
    if i > 0 {
      ObservedIsStored(next, bids[1..], i - 1);
    }
  }

  function ShiftOutcome(r: AuctionResult, delta: real): AuctionResult {
    r.(startedAt := r.startedAt + delta,
       deadline := r.deadline + delta,
       fallbackDeadline := r.fallbackDeadline + delta,
       evaluatedAt := r.evaluatedAt + delta,
       selected := match r.selected case None => None case Some(b) => Some(ShiftBid(delta)(b)),
       considered := Map(ShiftBid(delta), r.considered))
  }

  lemma FillShifts(e: Bid, profiles: map<nat, ResourceProfile>, delta: real)
    ensures Fill(ShiftBid(delta)(e), profiles) == ShiftBid(delta)(Fill(e, profiles))
    ensures Merge(profiles, ShiftBid(delta)(e)) == Merge(profiles, e)
  {
  }

  lemma EffectiveShifts(book: Book, b: Bid, delta: real)
    ensures match Effective(book, b)
            case Failure(e) => Effective(ShiftBook(book, delta), ShiftBid(delta)(b)) == Failure(e)
            case Success(e) => Effective(ShiftBook(book, delta), ShiftBid(delta)(b)) == Success(ShiftBid(delta)(e))
  {
  }

  lemma FillAllShifts(latest: map<string, Bid>, key: string, e: Bid, profiles: map<nat, ResourceProfile>, delta: real)
    ensures FillAll((map k | k in latest :: ShiftBid(delta)(latest[k]))[key := ShiftBid(delta)(e)], profiles)
         == var filled := FillAll(latest[key := e], profiles);
            map k | k in filled :: ShiftBid(delta)(filled[k])
  {
    hide Fill;
    var stored := latest[key := e];
    var shifted := (map k | k in latest :: ShiftBid(delta)(latest[k]))[key := ShiftBid(delta)(e)];
    forall k | k in stored
      ensures shifted[k] == ShiftBid(delta)(stored[k])
      ensures Fill(shifted[k], profiles) == ShiftBid(delta)(Fill(stored[k], profiles))
    {
      FillShifts(stored[k], profiles, delta);
    }
  }

  /** Observing a shifted sighting in a shifted auction shifts the result. */
  lemma ObserveShifts(book: Book, b: Bid, delta: real)
    requires book.Valid()
    ensures match Observe(book, b)
            case Failure(e) => Observe(ShiftBook(book, delta), ShiftBid(delta)(b)) == Failure(e)
            case Success(after) =>
              Observe(ShiftBook(book, delta), ShiftBid(delta)(b)) == Success(ShiftBook(after, delta))
  {
    if Observe(book, b).Failure? {
      RefusalShifts(book, b, delta);
    } else {
      AcceptanceShifts(book, b, delta);
    }
  }

  lemma RefusalShifts(book: Book, b: Bid, delta: real)
    requires Observe(book, b).Failure?
    ensures Observe(ShiftBook(book, delta), ShiftBid(delta)(b)) == Observe(book, b)
  {
  }

  lemma AcceptanceShifts(book: Book, b: Bid, delta: real)
    requires book.Valid() && Observe(book, b).Success?
    ensures Observe(ShiftBook(book, delta), ShiftBid(delta)(b)) == Success(ShiftBook(Observe(book, b).value, delta))
  {
    hide Observe;
    var shifted, b' := ShiftBook(book, delta), ShiftBid(delta)(b);
    ShiftBookValid(book, delta);
    ObserveShape(book, b);
    ObserveShape(shifted, b');
    EffectiveShifts(book, b, delta);
    if Effective(book, b).Success? {
      var e := Effective(book, b).value;
      FillShifts(e, book.profiles, delta);
      if Merge(book.profiles, e).Success? {
        FillAllShifts(book.latest, b.bidKey, e, Merge(book.profiles, e).value, delta);
      }
    }
  }

  lemma JudgeShifts(s: SearchSettings, t: Terms, now: real, b: Bid, delta: real)
    ensures Judge(s, t.(startedAt := t.startedAt + delta), now + delta, ShiftBid(delta)(b)) == Judge(s, t, now, b)
  {
  }

  lemma {:induction false} CandidatesShift(
    s: SearchSettings, t: Terms, now: real, bids: seq<Bid>, delta: real)
    ensures var t' := t.(startedAt := t.startedAt + delta);
            && Candidates(s, t', now + delta, Map(ShiftBid(delta), bids))
               == Map(ShiftBid(delta), Candidates(s, t, now, bids))
            && Rejected(s, t', now + delta, Map(ShiftBid(delta), bids)) == Rejected(s, t, now, bids)
  {
    hide Judge;
    if bids != [] {
      JudgeShifts(s, t, now, bids[0], delta);
      assert Map(ShiftBid(delta), bids)[1..] == Map(ShiftBid(delta), bids[1..]);
      CandidatesShift(s, t, now, bids[1..], delta);
    }
  }

  lemma {:induction false} PreferredShift(t: Terms, bids: seq<Bid>, delta: real)
    ensures Preferred(t.(startedAt := t.startedAt + delta), Map(ShiftBid(delta), bids))
         == Map(ShiftBid(delta), Preferred(t, bids))
  {
    if bids != [] {
      assert Map(ShiftBid(delta), bids)[1..] == Map(ShiftBid(delta), bids[1..]);
      PreferredShift(t, bids[1..], delta);
    }
  }

  /** The key compares shifted bids as it compares the bids. */
  ghost predicate ShiftInvariant(key: Bid -> RankKey, bids: seq<Bid>, delta: real) {
    forall x, y | x in bids && y in bids ::
      KeyLe(key(ShiftBid(delta)(x)), key(ShiftBid(delta)(y))) == KeyLe(key(x), key(y))
  }

  function ShiftChoice(c: Choice, delta: real): Choice {
    Choice(ShiftBid(delta)(c.selected), c.reason, Map(ShiftBid(delta), c.considered))
  }

  lemma SortShifts(key: Bid -> RankKey, bids: seq<Bid>, delta: real)
    requires ShiftInvariant(key, bids, delta)
    ensures Sort(By(key), Map(ShiftBid(delta), bids)) == Map(ShiftBid(delta), Sort(By(key), bids))
  {
    ByIsPreorder(key);
    SortMap(By(key), By(key), ShiftBid(delta), bids);
  }

  lemma ChooseShifts(pool: seq<Bid>, key: Bid -> RankKey, reason: Reason, delta: real)
    requires pool != [] && ShiftInvariant(key, pool, delta)
    ensures Choose(Map(ShiftBid(delta), pool), key, reason)
         == ShiftChoice(Choose(pool, key, reason), delta)
  {
    SortShifts(key, pool, delta);
    MinIsFirst(By(key), pool);
    MinIsFirst(By(key), Map(ShiftBid(delta), pool));
  }

  lemma ProviderKeyShifts(bids: seq<Bid>, delta: real)
    ensures ShiftInvariant(ByProvider, bids, delta)
  {
    assert forall b | b in bids :: ByProvider(ShiftBid(delta)(b)) == ByProvider(b);
  }

  lemma PriceKeyShifts(taken: set<string>, bids: seq<Bid>, delta: real)
    ensures ShiftInvariant(ByPrice(taken), bids, delta)
  {
    assert forall b | b in bids :: ByPrice(taken)(ShiftBid(delta)(b)) == ByPrice(taken)(b);
  }

  lemma ArrivalKeyShifts(bids: seq<Bid>, delta: real)
    ensures ShiftInvariant(ByArrival, bids, delta)
  {
    forall x, y | x in bids && y in bids
      ensures KeyLe(ByArrival(ShiftBid(delta)(x)), ByArrival(ShiftBid(delta)(y)))
           == KeyLe(ByArrival(x), ByArrival(y))
    {
      LaterKeys(ByArrival(x), ByArrival(y), delta);
    }
  }

  lemma LaterKeys(a: RankKey, b: RankKey, delta: real)
    ensures KeyLe(a.(amount := a.amount + delta), b.(amount := b.amount + delta)) == KeyLe(a, b)
  {
  }

  lemma RankKeyShifts(s: SearchSettings, taken: set<string>, bids: seq<Bid>, delta: real)
    ensures ShiftInvariant(ByRank(s, taken), bids, delta)
  {
    forall b | b in bids
      ensures ByRank(s, taken)(ShiftBid(delta)(b)) == ByRank(s, taken)(b)
    {
      assert ShiftBid(delta)(b).capacity == b.capacity && ShiftBid(delta)(b).profile == b.profile;
    }
  }

  lemma PoolTestsShift(s: SearchSettings, pool: seq<Bid>, delta: real)
    ensures OneDenomination(Map(ShiftBid(delta), pool)) == OneDenomination(pool)
    ensures AllProfiled(Map(ShiftBid(delta), pool)) == AllProfiled(pool)
    ensures RankRaises(s, Map(ShiftBid(delta), pool)) == RankRaises(s, pool)
  {
    var moved := Map(ShiftBid(delta), pool);
    if OneDenomination(moved) {
      forall i, j | 0 <= i < |pool| && 0 <= j < |pool|
        ensures pool[i].denom == pool[j].denom
      {
        assert moved[i].denom == moved[j].denom;
      }
    }
    if AllProfiled(moved) {
      forall i | 0 <= i < |pool|
        ensures pool[i].profile.Some?
      {
        assert moved[i].profile.Some?;
      }
    }
    if i :| 0 <= i < |pool| && Ranked(pool[i]) && Score(s, pool[i]).None? {
      assert Ranked(moved[i]) && Score(s, moved[i]).None?;
    }
  }

  lemma DecideShifts(
    s: SearchSettings, t: Terms, preferred: bool, pool: seq<Bid>, taken: set<string>, delta: real)
    requires pool != []
    ensures var t' := t.(startedAt := t.startedAt + delta);
            var moved := Map(ShiftBid(delta), pool);
            match Decide(s, t, preferred, pool, taken)
            case Failure(e) => Decide(s, t', preferred, moved, taken) == Failure(e)
            case Success(c) => Decide(s, t', preferred, moved, taken) == Success(ShiftChoice(c, delta))
  {
    PoolTestsShift(s, pool, delta);
    if preferred && t.policy.selection.Emptiest? {
      PriceKeyShifts(taken, pool, delta);
      RankKeyShifts(s, taken, pool, delta);
      ChooseShifts(pool, ByPrice(taken), ProfileUnavailableFellBackToCheapest, delta);
      ChooseShifts(pool, ByRank(s, taken), EmptiestPreferred, delta);
      ChooseShifts(pool, ByRank(s, taken), CapacityIncompleteFellBackToCheapest, delta);
      var winner := Min(By(ByRank(s, taken)), pool);
      assert ShiftBid(delta)(winner).capacity == winner.capacity;
      assert ShiftBid(delta)(winner).profile == winner.profile;
    } else if preferred {
      PriceKeyShifts({}, pool, delta);
      ChooseShifts(pool, ByPrice({}), CheapestPreferred, delta);
    } else {
      ArrivalKeyShifts(pool, delta);
      ChooseShifts(pool, ByArrival, FirstEligibleFallback, delta);
    }
  }

  /** The result, or the exception, with every time in it moved. */
  function ShiftResult(r: Result<AuctionResult, EvaluateError>, delta: real): Result<AuctionResult, EvaluateError> {
    match r
    case Failure(e) => Failure(e)
    case Success(outcome) => Success(ShiftOutcome(outcome, delta))
  }

  lemma OutcomeShifts(t: Terms, now: real, status: Status, reason: Reason, rejected: seq<RejectedBid>, delta: real)
    ensures Outcome(t.(startedAt := t.startedAt + delta), now + delta, status, reason, rejected)
         == ShiftOutcome(Outcome(t, now, status, reason, rejected), delta)
  {
  }

  lemma ConcludeShifts(
    s: SearchSettings, t: Terms, candidates: seq<Bid>, rejected: seq<RejectedBid>, now: real,
    taken: set<string>, delta: real)
    ensures Conclude(s, t.(startedAt := t.startedAt + delta), Map(ShiftBid(delta), candidates), rejected,
                     now + delta, taken)
         == ShiftResult(Conclude(s, t, candidates, rejected, now, taken), delta)
  {
    if candidates == [] {
      OutcomeShifts(t, now, Collecting, WaitingForFirstEligibleFallback, rejected, delta);
      OutcomeShifts(t, now, Expired, NoEligibleOpenBids, rejected, delta);
    } else {
      var preferred, pool := Preferred(t, candidates) != [], PoolOf(t, candidates);
      PreferredShift(t, candidates, delta);
      DecideShifts(s, t, preferred, pool, taken, delta);
      var t' := t.(startedAt := t.startedAt + delta);
      assert PoolOf(t', Map(ShiftBid(delta), candidates)) == Map(ShiftBid(delta), pool);
      if Decide(s, t, preferred, pool, taken).Success? {
        ReportShifts(t, now, Decide(s, t, preferred, pool, taken).value, rejected, delta);
      }
    }
  }

  lemma EvaluateListedShifts(
    s: SearchSettings, t: Terms, listed: seq<Bid>, now: real, taken: set<string>, delta: real)
    ensures EvaluateListed(s, t.(startedAt := t.startedAt + delta), Map(ShiftBid(delta), listed), now + delta, taken)
         == ShiftResult(EvaluateListed(s, t, listed, now, taken), delta)
  {
    if now < t.Deadline() {
      OutcomeShifts(t, now, Collecting, CollectionWindowOpen, [], delta);
    } else {
      CandidatesShift(s, t, now, listed, delta);
      ConcludeShifts(s, t, Candidates(s, t, now, listed), Rejected(s, t, now, listed), now, taken, delta);
    }
  }

  lemma ReportShifts(t: Terms, now: real, choice: Choice, rejected: seq<RejectedBid>, delta: real)
    ensures Report(t.(startedAt := t.startedAt + delta), now + delta, ShiftChoice(choice, delta), rejected)
         == ShiftOutcome(Report(t, now, choice, rejected), delta)
  {
  }

  lemma ListedShifts(book: Book, delta: real)
    requires book.Valid()
    ensures ShiftBook(book, delta).Indexed()
    ensures Listed(ShiftBook(book, delta)) == Map(ShiftBid(delta), Listed(book))
  {
    ShiftBookValid(book, delta);
    ProviderKeyShifts(Values(book), delta);
    SortShifts(ByProvider, Values(book), delta);
  }

  /** With exact arithmetic, re-anchoring the clock changes no verdict: it shifts the times in it. */
  lemma EvaluateShifts(s: SearchSettings, a: AuctionState, now: real, taken: set<string>, delta: real)
    requires a.book.Valid()
    ensures Shift(a, delta).book.Indexed()
    ensures Evaluate(s, Shift(a, delta), now + delta, taken) == ShiftResult(Evaluate(s, a, now, taken), delta)
  {
    hide EvaluateListed, Listed, ShiftResult, ShiftBook, Book.Indexed, Book.Grouped, Book.Witnessed;
    ListedShifts(a.book, delta);
    EvaluateListedShifts(s, a.terms, Listed(a.book), now, taken, delta);
  }
}
