/** The auction object: bids are observed into it, and it is asked for a verdict. */
module Auctions {
  import opened Wrappers
  import opened Sorting
  import opened Capacity
  import opened Bids
  import opened AuctionRules
  import opened AuctionSnapshot

  class Auction {
    const policy: Policy
    const startedAt: real
    const deadline: real
    const fallbackDeadline: real

    /** The dictionary of bids: its keys in insertion order, and its values. */
    var order: seq<string>
    var latestByKey: map<string, Bid>
    var resourceProfileByGseq: map<nat, ResourceProfile>

    ghost predicate Valid()
      reads this
    {
      && Contents().Valid()
      && deadline == Terms(policy, startedAt).Deadline()
      && fallbackDeadline == Terms(policy, startedAt).FallbackDeadline()
    }

    function Contents(): Book
      reads this
    {
      Book(order, latestByKey, resourceProfileByGseq)
    }

    function State(): AuctionState
      reads this
    {
      AuctionState(Terms(policy, startedAt), Contents())
    }

    constructor (policy: Policy, startedAt: real)
      ensures Valid()
      ensures State() == AuctionState(Terms(policy, startedAt), EMPTY_BOOK)
    {
      this.policy := policy;
      this.startedAt := startedAt;
      deadline := startedAt + policy.collectionWindow;
      fallbackDeadline := startedAt + policy.collectionWindow + policy.fallbackWindow;
      order, latestByKey, resourceProfileByGseq := [], map[], map[];
    }

    /** Bind one profile to each group, applying it to every bid already observed for the group. */
    method BindResourceProfile(observation: Bid) returns (bound: Result<Bid, ObserveError>)
      requires Contents().Indexed()
      modifies this`latestByKey, this`resourceProfileByGseq
      ensures match Bind(old(Contents()), observation)
              case Failure(e) => bound == Failure(e) && Contents() == old(Contents())
              case Success(b) => bound == Success(b.bid) && Contents() == b.book
    {
      if observation.gseq.None? {
        return Success(observation);
      }
      var g := observation.gseq.value;
      var known := if g in resourceProfileByGseq then Some(resourceProfileByGseq[g]) else None;
      if observation.profile.None? {
        return Success(if known.None? then observation else observation.(profile := known));
      }
      if known.Some? && observation.profile != known {
        return Failure(ProfileChanged);
      }
      if known.None? {
        resourceProfileByGseq := resourceProfileByGseq[g := observation.profile.value];
        BackfillGroup(g, observation.profile.value);
      }
      return Success(observation);
    }

    method BackfillGroup(g: nat, profile: ResourceProfile)
      requires Contents().Indexed()
      modifies this`latestByKey
      ensures latestByKey == Backfill(old(latestByKey), g, profile)
    {
      for i := 0 to |order|
        invariant latestByKey.Keys == old(latestByKey.Keys)
        invariant forall j | 0 <= j < |order| ::
                    latestByKey[order[j]] == if j < i then Backfilled(old(latestByKey)[order[j]], g, profile)
                                             else old(latestByKey)[order[j]]
      {
        assert order[i] in order;
        var current := latestByKey[order[i]];
        if current.gseq == Some(g) && current.profile.None? {
          latestByKey := latestByKey[order[i] := current.(profile := Some(profile))];
        }
      }
      forall k | k in latestByKey
        ensures latestByKey[k] == Backfilled(old(latestByKey)[k], g, profile)
      {
        var j :| 0 <= j < |order| && order[j] == k;
      }
    }

    /** Identity and known demand that a new sighting takes over from the stored copy. */
    static method CarryOver(current: Bid, observation: Bid) returns (r: Result<Bid, ObserveError>)
      ensures r == Inherit(current, observation)
    {
      var incoming := observation;
      if current.provider != observation.provider {
        return Failure(ProviderChanged);
      }
      if current.gseq.Some? {
        if observation.gseq.None? {
          incoming := incoming.(gseq := current.gseq);
        } else if observation.gseq != current.gseq {
          return Failure(GroupChanged);
        }
      }
      if current.profile.Some? && incoming.profile.None? {
        incoming := incoming.(profile := current.profile);
      }
      return Success(incoming);
    }

    /** Insert a new bid, or refresh a known one under its first arrival time. */
    method StoreBid(bound: Bid, current: Option<Bid>)
      modifies this`order, this`latestByKey
      ensures Contents() == Store(old(Contents()), bound, current)
    {
      if current.None? {
        order := order + [bound.bidKey];
        latestByKey := latestByKey[bound.bidKey := bound];
      } else {
        latestByKey := latestByKey[bound.bidKey := bound.(observedAt := current.value.observedAt)];
      }
    }

    /**
     Record an observation: first arrival and identity are kept, mutable state is
     refreshed, and a refused observation leaves the auction as it was.
     */
    method ObserveBid(observation: Bid) returns (error: Option<ObserveError>)
      requires Valid()
      modifies this`order, this`latestByKey, this`resourceProfileByGseq
      ensures Valid()
      ensures match Observe(old(Contents()), observation)
              case Failure(e) => error == Some(e) && Contents() == old(Contents())
              case Success(after) =>
                error == None && Contents() == after && KeepsBook(old(Contents()), after)
    {
      ghost var before := Contents();
      if Observe(before, observation).Success? {
        ObserveKeeps(before, observation);
      }
      var current := Current(Contents(), observation.bidKey);
      var incoming: Result<Bid, ObserveError> := Success(observation);
      if current.Some? {
        incoming := CarryOver(current.value, observation);
      }
      if incoming.Failure? {
        return Some(incoming.error);
      }
      var bound := BindResourceProfile(incoming.value);
      if bound.Failure? {
        return Some(bound.error);
      }
      StoreBid(bound.value, current);
      return None;
    }

    /** Several observations in adapter order, up to the first one refused. */
    method ObserveMany(observations: seq<Bid>) returns (error: Option<ObserveError>)
      requires Valid()
      modifies this`order, this`latestByKey, this`resourceProfileByGseq
      ensures Valid()
      ensures match ObserveAll(old(Contents()), observations)
              case Failure(e) => error == Some(e)
              case Success(after) => error == None && Contents() == after
      ensures Contents() == Accepted(old(Contents()), observations)
    {
      assert observations[0..] == observations;
      for i := 0 to |observations|
        invariant Valid()
        invariant ObserveAll(old(Contents()), observations) == ObserveAll(Contents(), observations[i..])
        invariant Accepted(old(Contents()), observations) == Accepted(Contents(), observations[i..])
      {
        assert observations[i..][1..] == observations[i + 1..];
        var refused := ObserveBid(observations[i]);
        if refused.Some? {
          return refused;
        }
      }
      return None;
    }

    /** Sort the observed bids into candidates and rejections. */
    static method PartitionBids(s: SearchSettings, terms: Terms, now: real, listed: seq<Bid>)
      returns (candidates: seq<Bid>, rejected: seq<RejectedBid>)
      ensures candidates == Candidates(s, terms, now, listed)
      ensures rejected == Rejected(s, terms, now, listed)
    {
      hide Judge;
      candidates, rejected := [], [];
      assert listed[0..] == listed;
      for i := 0 to |listed|
        invariant Candidates(s, terms, now, listed) == candidates + Candidates(s, terms, now, listed[i..])
        invariant Rejected(s, terms, now, listed) == rejected + Rejected(s, terms, now, listed[i..])
      {
        assert listed[i..][1..] == listed[i + 1..];
        var b := listed[i];
        match Judge(s, terms, now, b)
        case None => candidates := candidates + [b];
        case Some(reason) => rejected := rejected + [RejectedBid(b.bidKey, b.provider, reason)];
      }
    }

    /** The verdict at one time; asking for it changes nothing. */
    method EvaluateAt(s: SearchSettings, now: real, taken: set<string>)
      returns (r: Result<AuctionResult, EvaluateError>)
      requires Valid()
      ensures r == Evaluate(s, State(), now, taken)
    {
      var terms := Terms(policy, startedAt);
      if now < deadline {
        return Success(Outcome(terms, now, Collecting, CollectionWindowOpen, []));
      }
      var candidates, rejected := PartitionBids(s, terms, now, Listed(Contents()));
      return Conclude(s, terms, candidates, rejected, now, taken);
    }

    /** Policy, clock and every stored bid in insertion order; an empty scope is refused. */
    method Snapshot(scope: Option<string>) returns (r: Result<Snapshot, RestoreError>)
      requires Valid()
      ensures r.Failure? <==> scope == Some("")
      ensures r.Failure? ==> r.error == EmptyScope
      ensures r.Success? ==>
                && r.value.version == SNAPSHOT_VERSION && r.value.scope == scope
                && r.value.startedAt == startedAt && r.value.policy == policy
                && |r.value.bids| == |order|
                && forall i | 0 <= i < |order| :: order[i] in latestByKey && r.value.bids[i] == latestByKey[order[i]]
      ensures r == TakeSnapshot(State(), scope)
    {
      if scope == Some("") {
        return Failure(EmptyScope);
      }
      var bids: seq<Bid> := [];
      for i := 0 to |order|
        invariant bids == Values(Contents())[..i]
      {
        assert order[i] in order;
        bids := bids + [latestByKey[order[i]]];
      }
      assert bids == Values(Contents());
      forall i | 0 <= i < |order| ensures order[i] in latestByKey {
        assert order[i] in order;
      }
      return Success(AuctionSnapshot.Snapshot(SNAPSHOT_VERSION, scope, startedAt, policy, bids));
    }
  }

  /** Rebuild an auction from a snapshot by replaying its bids, or refuse to. */
  method RestoreAuction(snapshot: Snapshot, expectScope: Option<string>, rebase: Option<real>)
    returns (auction: Auction?, error: Option<RestoreError>)
    ensures match Restore(snapshot, expectScope, rebase)
            case Failure(e) => auction == null && error == Some(e)
            case Success(state) =>
              error == None && auction != null && fresh(auction) && auction.Valid() && auction.State() == state
  {
    if snapshot.version != SNAPSHOT_VERSION {
      return null, Some(UnsupportedVersion);
    }
    if snapshot.scope == Some("") || expectScope == Some("") {
      return null, Some(EmptyScope);
    }
    if snapshot.scope != expectScope {
      return null, Some(ScopeMismatch);
    }
    if rebase.None? && snapshot.startedAt != 0.0 {
      return null, Some(ClockNotRelative);
    }
    var startedAt := if rebase.None? then 0.0 else rebase.value;
    var bids := Map(ShiftBid(startedAt - snapshot.startedAt), snapshot.bids);
    var seen: set<string> := {};
    for i := 0 to |bids|
      invariant seen == set j | 0 <= j < i :: bids[j].bidKey
      invariant forall j, k | 0 <= j < k < i :: bids[j].bidKey != bids[k].bidKey
    {
      if bids[i].bidKey in seen {
        return null, Some(DuplicateKey);
      }
      seen := seen + {bids[i].bidKey};
    }
    var restored := new Auction(snapshot.policy, startedAt);
    var refused := restored.ObserveMany(bids);
    if refused.Some? {
      return null, Some(Refused(refused.value));
    }
    return restored, None;
  }
}
