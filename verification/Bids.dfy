/**
 The contents of one auction: its bids in arrival order and the one resource
 profile bound to each order group, as values.
 */
module Bids {
  import opened Wrappers
  import opened Capacity
  import opened Sorting

  datatype Bid = Bid(
    bidKey: string,
    provider: string,
    price: real,
    denom: string,
    observedAt: real,
    state: string,
    proofs: seq<string>,
    capacity: Option<ProviderCapacity>,
    profile: Option<ResourceProfile>,
    gseq: Option<nat>)
  {
    /** What the constructor checks. */
    ghost predicate Valid() {
      && bidKey != "" && provider != "" && denom != "" && price >= 0.0
      && (gseq.Some? ==> gseq.value >= 1)
      && (capacity.Some? ==> capacity.value.Valid())
      && (profile.Some? ==> profile.value.Valid())
    }
  }

  datatype ObserveError = ProviderChanged | GroupChanged | ProfileChanged

  /** `_latest_by_key` (a map that remembers insertion order) and `_resource_profile_by_gseq`. */
  datatype Book = Book(order: seq<string>, latest: map<string, Bid>, profiles: map<nat, ResourceProfile>) {

    ghost predicate Valid() {
      Indexed() && Grouped() && Witnessed()
    }

    /** Every stored value passed its constructor. */
    ghost predicate ValuesValid() {
      && (forall k | k in latest :: latest[k].Valid())
      && (forall g | g in profiles :: profiles[g].Valid())
    }

    ghost predicate Witnessed() {
      forall g | g in profiles :: exists k | k in latest :: latest[k].gseq == Some(g)
    }

    /** The order lists every key once, and every bid is stored under its own key. */
    ghost predicate Indexed() {
      && (forall i, j | 0 <= i < j < |order| :: order[i] != order[j])
      && (forall k :: k in order <==> k in latest)
      && (forall k | k in latest :: latest[k].bidKey == k)
    }

    /** All stored bids of one group carry the profile of its table entry, or none does. */
    ghost predicate Grouped() {
      forall k | k in latest && latest[k].gseq.Some? ::
        latest[k].profile == Known(latest[k].gseq.value)
    }

    function Known(g: nat): Option<ResourceProfile> {
      if g in profiles then Some(profiles[g]) else None
    }
  }

  const EMPTY_BOOK: Book := Book([], map[], map[])

  // ---- observing ----

  function Backfilled(b: Bid, g: nat, p: ResourceProfile): Bid {
    if b.gseq == Some(g) && b.profile == None then b.(profile := Some(p)) else b
  }

  function Backfill(latest: map<string, Bid>, g: nat, p: ResourceProfile): map<string, Bid> {
    map k | k in latest :: Backfilled(latest[k], g, p)
  }

  /** Identity and known demand carried over from the stored copy. */
  function Inherit(current: Bid, b: Bid): Result<Bid, ObserveError> {
    if current.provider != b.provider then Failure(ProviderChanged)
    else if current.gseq.Some? && b.gseq.Some? && b.gseq != current.gseq then Failure(GroupChanged)
    else
      var grouped := if current.gseq.Some? && b.gseq.None? then b.(gseq := current.gseq) else b;
      Success(
        if current.profile.Some? && grouped.profile.None? then grouped.(profile := current.profile) else grouped)
  }

  datatype Binding = Binding(bid: Bid, book: Book)

  /** `_bind_resource_profile`: one profile per group, applied backwards when it first appears. */
  function Bind(book: Book, b: Bid): Result<Binding, ObserveError> {
    if b.gseq.None? then Success(Binding(b, book))
    else
      var g := b.gseq.value;
      var known := book.Known(g);
      if b.profile.None? then Success(Binding(if known.None? then b else b.(profile := known), book))
      else if known.Some? && b.profile != known then Failure(ProfileChanged)
      else if known.Some? then Success(Binding(b, book))
      else
        Success(Binding(b, book.(profiles := book.profiles[g := b.profile.value],
                                 latest := Backfill(book.latest, g, b.profile.value))))
  }

  function Store(book: Book, b: Bid, current: Option<Bid>): Book {
    match current
    case None => book.(order := book.order + [b.bidKey], latest := book.latest[b.bidKey := b])
    case Some(c) => book.(latest := book.latest[b.bidKey := b.(observedAt := c.observedAt)])
  }

  function Current(book: Book, key: string): Option<Bid> {
    if key in book.latest then Some(book.latest[key]) else None
  }

  function Observe(book: Book, b: Bid): Result<Book, ObserveError> {
    var current := Current(book, b.bidKey);
    var inherited :- if current.None? then Success(b) else Inherit(current.value, b);
    var bound :- Bind(book, inherited);
    Success(Store(bound.book, bound.bid, current))
  }

  function ObserveAll(book: Book, bids: seq<Bid>): Result<Book, ObserveError>
    decreases |bids|
  {
    if bids == [] then Success(book)
    else
      var next :- Observe(book, bids[0]);
      ObserveAll(next, bids[1..])
  }

  /** What several observations leave behind: the bids before the first refused one. */
  function Accepted(book: Book, bids: seq<Bid>): Book
    decreases |bids|
  {
    if bids == [] || Observe(book, bids[0]).Failure? then book
    else Accepted(Observe(book, bids[0]).value, bids[1..])
  }

  /** The accepted observations are a prefix, and it ends only where one is refused. */
  lemma {:induction false} AcceptedIsPrefix(book: Book, bids: seq<Bid>) returns (n: nat)
    ensures n <= |bids| && ObserveAll(book, bids[..n]) == Success(Accepted(book, bids))
    ensures n < |bids| ==> Observe(Accepted(book, bids), bids[n]).Failure?
                           && ObserveAll(book, bids) == Failure(Observe(Accepted(book, bids), bids[n]).error)
    ensures n == |bids| ==> ObserveAll(book, bids) == Success(Accepted(book, bids))
    decreases |bids|
  {
    hide Observe;
    if bids == [] || Observe(book, bids[0]).Failure? {
      n := 0;
    } else {
      var m := AcceptedIsPrefix(Observe(book, bids[0]).value, bids[1..]);
      n := m + 1;
      assert bids[..n][0] == bids[0] && bids[..n][1..] == bids[1..][..m];
    }
  }

  /** A run in which a refused observation leaves the auction as it was. */
  function Run(book: Book, bids: seq<Bid>): Book
    decreases |bids|
  {
    if bids == [] then book
    else
      match Observe(book, bids[0])
      case Success(next) => Run(next, bids[1..])
      case Failure(_) => Run(book, bids[1..])
  }

  // ---- what every observation keeps ----

  /** A stored bid keeps its arrival, its provider, its known group and its group's profile. */
  ghost predicate KeepsBid(before: Bid, after: Bid) {
    && after.bidKey == before.bidKey
    && after.observedAt == before.observedAt
    && after.provider == before.provider
    && (before.gseq.Some? ==> after.gseq == before.gseq)
    && (before.gseq.Some? && before.profile.Some? ==> after.profile == before.profile)
  }

  ghost predicate KeepsBook(before: Book, after: Book) {
    && before.order <= after.order
    && (forall k | k in before.latest :: k in after.latest && KeepsBid(before.latest[k], after.latest[k]))
    && (forall g | g in before.profiles :: g in after.profiles && after.profiles[g] == before.profiles[g])
  }

  // An observation puts the inherited bid in, merges its profile into the table,
  // and fills in every profile the table now knows.

  function Effective(book: Book, b: Bid): Result<Bid, ObserveError> {
    match Current(book, b.bidKey)
    case None => Success(b)
    case Some(c) =>
      var inherited :- Inherit(c, b);
      Success(inherited.(observedAt := c.observedAt))
  }

  function Merge(profiles: map<nat, ResourceProfile>, e: Bid): Result<map<nat, ResourceProfile>, ObserveError> {
    if e.gseq.None? || e.profile.None? then Success(profiles)
    else if e.gseq.value !in profiles then Success(profiles[e.gseq.value := e.profile.value])
    else if profiles[e.gseq.value] != e.profile.value then Failure(ProfileChanged)
    else Success(profiles)
  }

  function Fill(e: Bid, profiles: map<nat, ResourceProfile>): Bid {
    if e.gseq.Some? && e.profile.None? && e.gseq.value in profiles
    then e.(profile := Some(profiles[e.gseq.value]))
    else e
  }

  function FillAll(latest: map<string, Bid>, profiles: map<nat, ResourceProfile>): map<string, Bid> {
    map k | k in latest :: Fill(latest[k], profiles)
  }

  lemma BindShape(book: Book, e: Bid)
    requires book.Grouped()
    ensures Bind(book, e).Success? <==> Merge(book.profiles, e).Success?
    ensures Bind(book, e).Success? ==>
              var profiles := Merge(book.profiles, e).value;
              Bind(book, e).value
              == Binding(Fill(e, profiles), Book(book.order, FillAll(book.latest, profiles), profiles))
  {
    if Merge(book.profiles, e).Success? {
      var profiles := Merge(book.profiles, e).value;
      var bound := Bind(book, e).value;
      forall k | k in book.latest
        ensures bound.book.latest[k] == Fill(book.latest[k], profiles)
      {
      }
      assert bound.book.latest == FillAll(book.latest, profiles);
    }
  }

  lemma FillAllUpdate(latest: map<string, Bid>, key: string, e: Bid, profiles: map<nat, ResourceProfile>)
    ensures FillAll(latest, profiles)[key := Fill(e, profiles)] == FillAll(latest[key := e], profiles)
  {
  }

  lemma StampCommutes(e: Bid, t: real, profiles: map<nat, ResourceProfile>)
    ensures Fill(e, profiles).(observedAt := t) == Fill(e.(observedAt := t), profiles)
    ensures Merge(profiles, e.(observedAt := t)) == Merge(profiles, e)
    ensures Fill(e, profiles).bidKey == e.bidKey
  {
  }

  lemma ObserveShape(book: Book, b: Bid)
    requires book.Grouped()
    ensures Observe(book, b).Success?
       <==> Effective(book, b).Success? && Merge(book.profiles, Effective(book, b).value).Success?
    ensures Observe(book, b).Success? ==>
              var e := Effective(book, b).value;
              var profiles := Merge(book.profiles, e).value;
              Observe(book, b).value
              == Book(if b.bidKey in book.latest then book.order else book.order + [b.bidKey],
                      FillAll(book.latest[b.bidKey := e], profiles),
                      profiles)
  {
    match Current(book, b.bidKey)
    case None =>
      BindShape(book, b);
      if Merge(book.profiles, b).Success? {
        FillAllUpdate(book.latest, b.bidKey, b, Merge(book.profiles, b).value);
      }
    case Some(c) =>
      if Inherit(c, b).Success? {
        var i := Inherit(c, b).value;
        assert i.bidKey == b.bidKey;
        BindShape(book, i);
        StampCommutes(i, c.observedAt, book.profiles);
        if Merge(book.profiles, i).Success? {
          var profiles := Merge(book.profiles, i).value;
          StampCommutes(i, c.observedAt, profiles);
          FillAllUpdate(book.latest, b.bidKey, i.(observedAt := c.observedAt), profiles);
        }
      }
  }

  /** What the stored copy passes on to a new sighting of the same bid. */
  lemma EffectiveKeeps(book: Book, b: Bid)
    requires book.Indexed() && b.bidKey in book.latest && Effective(book, b).Success?
    ensures var c, e := book.latest[b.bidKey], Effective(book, b).value;
            && e.bidKey == c.bidKey && e.observedAt == c.observedAt && e.provider == c.provider
            && (c.gseq.Some? ==> e.gseq == c.gseq)
            && (c.profile.Some? ==> e.profile.Some?)
  {
  }

  lemma ObserveKeepsBids(book: Book, b: Bid, k: string)
    requires book.Valid() && Observe(book, b).Success? && k in book.latest
    ensures k in Observe(book, b).value.latest
    ensures KeepsBid(book.latest[k], Observe(book, b).value.latest[k])
  {
    ObserveShape(book, b);
    if k == b.bidKey {
      EffectiveKeeps(book, b);
    }
  }

  lemma ObserveKeepsIndex(book: Book, b: Bid)
    requires book.Valid() && Observe(book, b).Success?
    ensures Observe(book, b).value.Indexed()
    ensures book.order <= Observe(book, b).value.order
    ensures b.bidKey in Observe(book, b).value.latest
  {
    ObserveShape(book, b);
    var after := Observe(book, b).value;
    if b.bidKey !in book.latest {
      assert after.order[|book.order|] == b.bidKey;
      assert forall i | 0 <= i < |book.order| :: book.order[i] in book.latest;
    }
    assert Effective(book, b).value.bidKey == b.bidKey;
  }

  lemma ObserveKeepsGroups(book: Book, b: Bid)
    requires book.Valid() && Observe(book, b).Success?
    ensures Observe(book, b).value.Grouped()
    ensures forall g | g in book.profiles ::
              g in Observe(book, b).value.profiles && Observe(book, b).value.profiles[g] == book.profiles[g]
    ensures Observe(book, b).value.Witnessed()
  {
    hide Observe;
    ObserveShape(book, b);
    var e := Effective(book, b).value;
    var after := Observe(book, b).value;
    forall k | k in after.latest && after.latest[k].gseq.Some?
      ensures after.latest[k].profile == after.Known(after.latest[k].gseq.value)
    {
      if k != b.bidKey {
        assert book.latest[k].profile == book.Known(book.latest[k].gseq.value);
      }
    }
    forall g | g in after.profiles
      ensures exists k | k in after.latest :: after.latest[k].gseq == Some(g)
    {
      if g in book.profiles {
        var k :| k in book.latest && book.latest[k].gseq == Some(g);
        ObserveKeepsBids(book, b, k);
        assert after.latest[k].gseq == Some(g);
      } else {
        assert after.latest[b.bidKey].gseq == Some(g);
      }
    }
  }

  lemma ObserveKeeps(book: Book, b: Bid)
    requires book.Valid() && Observe(book, b).Success?
    ensures Observe(book, b).value.Valid()
    ensures KeepsBook(book, Observe(book, b).value)
    ensures b.bidKey in Observe(book, b).value.latest
  {
    ObserveKeepsIndex(book, b);
    ObserveKeepsGroups(book, b);
    forall k | k in book.latest
      ensures k in Observe(book, b).value.latest
      ensures KeepsBid(book.latest[k], Observe(book, b).value.latest[k])
    {
      ObserveKeepsBids(book, b, k);
    }
  }

  lemma ReboundValid(b: Bid, gseq: Option<nat>, profile: Option<ResourceProfile>, t: real)
    requires b.Valid() && (gseq.Some? ==> gseq.value >= 1)
    requires profile.Some? ==> profile.value.Valid()
    ensures b.(gseq := gseq, profile := profile, observedAt := t).Valid()
  {
  }

  lemma EffectiveValid(book: Book, b: Bid)
    requires book.ValuesValid() && b.Valid() && Effective(book, b).Success?
    ensures Effective(book, b).value.Valid()
  {
    var e := Effective(book, b).value;
    ReboundValid(b, e.gseq, e.profile, e.observedAt);
  }

  lemma FillValid(e: Bid, profiles: map<nat, ResourceProfile>)
    requires e.Valid() && forall g | g in profiles :: profiles[g].Valid()
    ensures Fill(e, profiles).Valid()
  {
    ReboundValid(e, e.gseq, Fill(e, profiles).profile, e.observedAt);
  }

  lemma MergeValid(profiles: map<nat, ResourceProfile>, e: Bid)
    requires e.Valid() && (forall g | g in profiles :: profiles[g].Valid()) && Merge(profiles, e).Success?
    ensures forall g | g in Merge(profiles, e).value :: Merge(profiles, e).value[g].Valid()
  {
  }

  lemma ObserveKeepsValues(book: Book, b: Bid)
    requires book.Grouped() && book.ValuesValid() && b.Valid() && Observe(book, b).Success?
    ensures Observe(book, b).value.ValuesValid()
  {
    ObserveShape(book, b);
    EffectiveValid(book, b);
    var e := Effective(book, b).value;
    MergeValid(book.profiles, e);
    var after := Observe(book, b).value;
    forall k | k in after.latest
      ensures after.latest[k].Valid()
    {
      FillValid(if k == b.bidKey then e else book.latest[k], after.profiles);
    }
  }

  lemma {:induction false} RunKeeps(book: Book, bids: seq<Bid>)
    requires book.Valid() && book.ValuesValid() && forall b | b in bids :: b.Valid()
    ensures Run(book, bids).Valid() && Run(book, bids).ValuesValid()
    ensures KeepsBook(book, Run(book, bids))
    decreases |bids|
  {
    hide Observe, Book.ValuesValid, Bid.Valid, Book.Indexed, Book.Grouped, Book.Witnessed;
    if bids != [] {
      assert bids[0] in bids;
      match Observe(book, bids[0])
      case Success(next) =>
        ObserveKeeps(book, bids[0]);
        ObserveKeepsValues(book, bids[0]);
        RunKeeps(next, bids[1..]);
      case Failure(_) =>
        RunKeeps(book, bids[1..]);
    }
  }

  lemma {:induction false} ObserveAllKeeps(book: Book, bids: seq<Bid>)
    requires book.Valid() && ObserveAll(book, bids).Success?
    ensures ObserveAll(book, bids).value.Valid()
    ensures KeepsBook(book, ObserveAll(book, bids).value)
    decreases |bids|
  {
    hide Observe;
    if bids != [] {
      ObserveKeeps(book, bids[0]);
      ObserveAllKeeps(Observe(book, bids[0]).value, bids[1..]);
    }
  }

  lemma {:induction false} ObserveAllKeepsValues(book: Book, bids: seq<Bid>)
    requires book.Valid() && book.ValuesValid() && (forall b | b in bids :: b.Valid())
    requires ObserveAll(book, bids).Success?
    ensures ObserveAll(book, bids).value.ValuesValid()
    decreases |bids|
  {
    hide Observe, Book.ValuesValid, Bid.Valid, Book.Indexed, Book.Grouped, Book.Witnessed;
    if bids != [] {
      assert bids[0] in bids;
      ObserveKeeps(book, bids[0]);
      ObserveKeepsValues(book, bids[0]);
      ObserveAllKeepsValues(Observe(book, bids[0]).value, bids[1..]);
    }
  }

  // ---- observations of different bids commute ----

  /** Equal contents; only the order of arrival may differ. */
  ghost predicate SameContents(a: Book, b: Book) {
    a.latest == b.latest && a.profiles == b.profiles
  }

  lemma BindIgnoresOrder(a: Book, b: Book, bid: Bid)
    requires SameContents(a, b)
    ensures Bind(a, bid).Success? == Bind(b, bid).Success?
    ensures Bind(a, bid).Success? ==>
              && Bind(a, bid).value.bid == Bind(b, bid).value.bid
              && SameContents(Bind(a, bid).value.book, Bind(b, bid).value.book)
  {
  }

  lemma ObserveIgnoresOrder(a: Book, b: Book, bid: Bid)
    requires SameContents(a, b)
    ensures Observe(a, bid).Success? == Observe(b, bid).Success?
    ensures Observe(a, bid).Success? ==> SameContents(Observe(a, bid).value, Observe(b, bid).value)
  {
    hide Bind, Inherit;
    var current := Current(a, bid.bidKey);
    if current.None? {
      BindIgnoresOrder(a, b, bid);
    } else if Inherit(current.value, bid).Success? {
      BindIgnoresOrder(a, b, Inherit(current.value, bid).value);
    }
  }

  lemma {:induction false} ObserveAllIgnoresOrder(a: Book, b: Book, bids: seq<Bid>)
    requires SameContents(a, b)
    ensures ObserveAll(a, bids).Success? == ObserveAll(b, bids).Success?
    ensures ObserveAll(a, bids).Success?
        ==> SameContents(ObserveAll(a, bids).value, ObserveAll(b, bids).value)
    decreases |bids|
  {
    if bids != [] {
      ObserveIgnoresOrder(a, b, bids[0]);
      if Observe(a, bids[0]).Success? {
        ObserveAllIgnoresOrder(Observe(a, bids[0]).value, Observe(b, bids[0]).value, bids[1..]);
      }
    }
  }

  function Twice(book: Book, x: Bid, y: Bid): Result<Book, ObserveError> {
    var next :- Observe(book, x);
    Observe(next, y)
  }

  lemma MergeCommutes(profiles: map<nat, ResourceProfile>, x: Bid, y: Bid)
    ensures (Merge(profiles, x).Success? && Merge(Merge(profiles, x).value, y).Success?)
       <==> (Merge(profiles, y).Success? && Merge(Merge(profiles, y).value, x).Success?)
    ensures Merge(profiles, x).Success? && Merge(Merge(profiles, x).value, y).Success?
        ==> Merge(Merge(profiles, x).value, y) == Merge(Merge(profiles, y).value, x)
  {
    if x.gseq.Some? && y.gseq.Some? && x.profile.Some? && y.profile.Some? {
      var gx, gy, px, py := x.gseq.value, y.gseq.value, x.profile.value, y.profile.value;
      if gx != gy {
        assert profiles[gx := px][gy := py] == profiles[gy := py][gx := px];
      }
    }
  }

  lemma MergeGrows(profiles: map<nat, ResourceProfile>, e: Bid)
    requires Merge(profiles, e).Success?
    ensures forall g | g in profiles :: g in Merge(profiles, e).value && Merge(profiles, e).value[g] == profiles[g]
    ensures Merge(profiles, Fill(e, profiles)) == Success(profiles) || Fill(e, profiles) == e
  {
  }

  lemma FillTwice(e: Bid, first: map<nat, ResourceProfile>, second: map<nat, ResourceProfile>)
    requires forall g | g in first :: g in second && second[g] == first[g]
    ensures Fill(Fill(e, first), second) == Fill(e, second)
  {
  }

  /** Inheriting from a copy that has been filled in, rather than from the copy itself. */
  lemma InheritFilled(c: Bid, y: Bid, profiles: map<nat, ResourceProfile>)
    ensures Inherit(Fill(c, profiles), y).Success? == Inherit(c, y).Success?
    ensures Inherit(c, y).Success? ==>
              var plain, filled := Inherit(c, y).value, Inherit(Fill(c, profiles), y).value;
              && (filled == plain || filled == Fill(plain, profiles))
              && Merge(profiles, filled) == Merge(profiles, plain)
  {
  }

  /**
   The second of two observations: a profile the first one supplied may already have
   been filled into the copy it inherits from, and nothing else differs.
   */
  lemma SecondObservation(book: Book, x: Bid, y: Bid)
    requires book.Valid() && x.bidKey != y.bidKey && Observe(book, x).Success?
    ensures var next := Observe(book, x).value;
            && next.Grouped()
            && (Effective(next, y).Success? <==> Effective(book, y).Success?)
            && (Effective(book, y).Success? ==>
                  && (Effective(next, y).value == Effective(book, y).value
                      || Effective(next, y).value == Fill(Effective(book, y).value, next.profiles))
                  && Merge(next.profiles, Effective(next, y).value)
                     == Merge(next.profiles, Effective(book, y).value))
  {
    ObserveShape(book, x);
    ObserveKeepsGroups(book, x);
    var next := Observe(book, x).value;
    match Current(book, y.bidKey)
    case None =>
    case Some(c) =>
      assert Current(next, y.bidKey) == Some(Fill(c, next.profiles));
      InheritFilled(c, y, next.profiles);
      if Inherit(c, y).Success? {
        var plain, filled := Inherit(c, y).value, Inherit(Fill(c, next.profiles), y).value;
        assert Fill(c, next.profiles).observedAt == c.observedAt;
        StampCommutes(plain, c.observedAt, next.profiles);
        StampCommutes(filled, c.observedAt, next.profiles);
      }
  }

  lemma TwiceSucceeds(book: Book, x: Bid, y: Bid)
    requires book.Valid() && x.bidKey != y.bidKey
    ensures Twice(book, x, y).Success?
       <==> && Effective(book, x).Success? && Effective(book, y).Success?
            && Merge(book.profiles, Effective(book, x).value).Success?
            && Merge(Merge(book.profiles, Effective(book, x).value).value, Effective(book, y).value).Success?
  {
    ObserveShape(book, x);
    if Observe(book, x).Success? {
      SecondObservation(book, x, y);
      ObserveShape(Observe(book, x).value, y);
    }
  }

  lemma FillAllTwice(
    latest: map<string, Bid>, x: string, ex: Bid, y: string, ey: Bid, ey': Bid,
    first: map<nat, ResourceProfile>, second: map<nat, ResourceProfile>)
    requires x != y && forall g | g in first :: g in second && second[g] == first[g]
    requires ey' == ey || ey' == Fill(ey, first)
    ensures FillAll(FillAll(latest[x := ex], first)[y := ey'], second)
         == FillAll(latest[x := ex][y := ey], second)
  {
    var once := FillAll(latest[x := ex], first);
    forall k | k in latest || k == x || k == y
      ensures Fill(once[y := ey'][k], second) == Fill(latest[x := ex][y := ey][k], second)
    {
      FillTwice(latest[x := ex][y := ey][k], first, second);
    }
  }

  lemma TwiceShape(book: Book, x: Bid, y: Bid)
    requires book.Valid() && x.bidKey != y.bidKey && Twice(book, x, y).Success?
    ensures Effective(book, x).Success? && Effective(book, y).Success?
    ensures var ex, ey := Effective(book, x).value, Effective(book, y).value;
            && Merge(book.profiles, ex).Success?
            && Merge(Merge(book.profiles, ex).value, ey).Success?
            && var profiles := Merge(Merge(book.profiles, ex).value, ey).value;
               && Twice(book, x, y).value.profiles == profiles
               && Twice(book, x, y).value.latest
                  == FillAll(book.latest[x.bidKey := ex][y.bidKey := ey], profiles)
  {
    TwiceSucceeds(book, x, y);
    ObserveShape(book, x);
    var next := Observe(book, x).value;
    SecondObservation(book, x, y);
    ObserveShape(next, y);
    var ex, ey := Effective(book, x).value, Effective(book, y).value;
    var first := Merge(book.profiles, ex).value;
    MergeGrows(first, ey);
    FillAllTwice(book.latest, x.bidKey, ex, y.bidKey, ey, Effective(next, y).value,
                 first, Merge(first, ey).value);
  }

  lemma MergeCommutesIfBothSucceed(profiles: map<nat, ResourceProfile>, x: Bid, y: Bid)
    requires Merge(profiles, x).Success? && Merge(Merge(profiles, x).value, y).Success?
    requires Merge(profiles, y).Success? && Merge(Merge(profiles, y).value, x).Success?
    ensures Merge(Merge(profiles, x).value, y).value == Merge(Merge(profiles, y).value, x).value
  {
    MergeCommutes(profiles, x, y);
  }

  lemma TwiceAgrees(book: Book, x: Bid, y: Bid)
    requires book.Valid() && x.bidKey != y.bidKey
    requires Twice(book, x, y).Success? && Twice(book, y, x).Success?
    ensures SameContents(Twice(book, x, y).value, Twice(book, y, x).value)
  {
    hide Twice, Effective, Merge, FillAll, Book.Valid;
    TwiceShape(book, x, y);
    TwiceShape(book, y, x);
    var ex, ey := Effective(book, x).value, Effective(book, y).value;
    MergeCommutesIfBothSucceed(book.profiles, ex, ey);
    assert book.latest[x.bidKey := ex][y.bidKey := ey] == book.latest[y.bidKey := ey][x.bidKey := ex];
  }

  /** Observations of different bids commute: both orders raise, or both leave the same contents. */
  lemma ObserveCommutes(book: Book, x: Bid, y: Bid)
    requires book.Valid() && x.bidKey != y.bidKey
    ensures Twice(book, x, y).Success? == Twice(book, y, x).Success?
    ensures Twice(book, x, y).Success? ==> SameContents(Twice(book, x, y).value, Twice(book, y, x).value)
  {
    hide Twice, Effective, Merge, Book.Valid, SameContents;
    TwiceSucceeds(book, x, y);
    TwiceSucceeds(book, y, x);
    if Effective(book, x).Success? && Effective(book, y).Success? {
      MergeCommutes(book.profiles, Effective(book, x).value, Effective(book, y).value);
    }
    if Twice(book, x, y).Success? {
      TwiceAgrees(book, x, y);
    }
  }

  ghost predicate DistinctKeys(bids: seq<Bid>) {
    forall i, j | 0 <= i < j < |bids| :: bids[i].bidKey != bids[j].bidKey
  }

  /** Any bid of a batch may be observed first. */
  lemma {:induction false} ObserveAllMoveToFront(book: Book, bids: seq<Bid>, k: nat)
    requires book.Valid() && DistinctKeys(bids) && k < |bids|
    ensures var moved := [bids[k]] + (bids[..k] + bids[k + 1..]);
            && ObserveAll(book, bids).Success? == ObserveAll(book, moved).Success?
            && (ObserveAll(book, bids).Success?
                ==> SameContents(ObserveAll(book, bids).value, ObserveAll(book, moved).value))
    decreases |bids|
  {
    hide Observe, Book.Valid;
    var x, rest := bids[k], bids[..k] + bids[k + 1..];
    var moved := [x] + rest;
    assert moved[1..] == rest;
    if k == 0 {
      assert moved == bids;
    } else {
      var y, tail := bids[0], bids[1..];
      var tailRest := tail[..k - 1] + tail[k..];
      assert rest == [y] + tailRest && rest[1..] == tailRest;
      var tailMoved := [x] + tailRest;
      assert tailMoved[1..] == tailRest;
      ObserveCommutes(book, y, x);
      if Observe(book, y).Success? {
        var next := Observe(book, y).value;
        ObserveKeeps(book, y);
        ObserveAllMoveToFront(next, tail, k - 1);
        assert tail[k - 1] == x && tailMoved == [tail[k - 1]] + (tail[..k - 1] + tail[k - 1 + 1..]);
      }
      assert ObserveAll(book, [y] + tailMoved).Success? == ObserveAll(book, bids).Success? by {
        assert ([y] + tailMoved)[1..] == tailMoved;
      }
      if Twice(book, y, x).Success? {
        ObserveAllIgnoresOrder(Twice(book, y, x).value, Twice(book, x, y).value, tailRest);
      }
    }
  }

  /**
   The order of a batch of distinct bids does not matter: every order raises, or every
   order leaves the same bids and the same profile table.
   */
  lemma {:induction false} ObservationOrderIrrelevant(book: Book, a: seq<Bid>, b: seq<Bid>)
    requires book.Valid() && DistinctKeys(a) && multiset(a) == multiset(b)
    ensures ObserveAll(book, a).Success? == ObserveAll(book, b).Success?
    ensures ObserveAll(book, a).Success?
        ==> SameContents(ObserveAll(book, a).value, ObserveAll(book, b).value)
    decreases |a|
  {
    MultisetMembers(a, b);
    if a != [] {
      assert a[0] in b;
      var k: nat :| k < |b| && b[k] == a[0];
      DistinctPermutes(a, b);
      ObserveAllMoveToFront(book, b, k);
      var rest := b[..k] + b[k + 1..];
      RemoveOne(a, b, k);
      assert ([b[k]] + rest)[1..] == rest;
      if Observe(book, a[0]).Success? {
        ObserveKeeps(book, a[0]);
        ObservationOrderIrrelevant(Observe(book, a[0]).value, a[1..], rest);
      }
    }
  }

  lemma {:induction false} DistinctPermutes(a: seq<Bid>, b: seq<Bid>)
    requires DistinctKeys(a) && multiset(a) == multiset(b)
    ensures DistinctKeys(b)
    decreases |a|
  {
    MultisetMembers(a, b);
    if a != [] {
      assert a[0] in b;
      var k: nat :| k < |b| && b[k] == a[0];
      var rest := b[..k] + b[k + 1..];
      RemoveOne(a, b, k);
      DistinctPermutes(a[1..], rest);
      MultisetMembers(a[1..], rest);
      forall i | 0 <= i < |b| && i != k
        ensures b[i].bidKey != a[0].bidKey
      {
        assert b[i] == rest[if i < k then i else i - 1];
        assert b[i] in a[1..];
      }
      forall i, j | 0 <= i < j < |b| && i != k && j != k
        ensures b[i].bidKey != b[j].bidKey
      {
        assert b[i] == rest[if i < k then i else i - 1];
        assert b[j] == rest[if j < k then j else j - 1];
      }
    }
  }
}
