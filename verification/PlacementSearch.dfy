/**
 The placement search: a stack of states, a set of every state ever pushed, node
 lists kept sorted, equal nodes tried once, and a budget on the states held.
 */
module PlacementSearch {
  import opened Placement
  import opened Sorting

  datatype Verdict = Fit | Insufficient | Exhausted {
    predicate Definite() {
      this != Exhausted
    }
  }

  datatype State = State(index: nat, remaining: seq<Vec>)

  predicate Less(a: real, b: real) {
    a < b
  }

  /** Descending tuple order, `sorted(..., reverse=True)`. */
  predicate Descending(a: Vec, b: Vec) {
    LexLe(Less, b, a)
  }

  function Canonical(nodes: seq<Vec>): seq<Vec> {
    Sort(Descending, nodes)
  }

  function Initial(nodes: seq<Vec>): State {
    State(0, Canonical(nodes))
  }

  function Child(st: State, request: Vec, j: nat): State
    requires j < |st.remaining| && Fits(st.remaining[j], request)
  {
    State(st.index + 1, Canonical(Place(st.remaining, j, request)))
  }

  // ---- the search as a function of its data ----

  datatype Expansion = OverBudget | Expanded(pending: seq<State>, seen: set<State>)

  /** The loop over nodes, from node `j` on: one child per distinct node that fits. */
  function Expand(st: State, request: Vec, j: nat, tried: set<Vec>,
                  pending: seq<State>, seen: set<State>, limit: nat): (r: Expansion)
    requires j <= |st.remaining|
    ensures r.Expanded? ==> |seen| <= |r.seen|
    ensures r.Expanded? && |r.seen| == |seen| ==> r.pending == pending
    ensures r.Expanded? && |r.seen| > |seen| ==> |r.seen| <= limit
    decreases |st.remaining| - j
  {
    if j == |st.remaining| then Expanded(pending, seen)
    else
      var available := st.remaining[j];
      if available in tried || !Fits(available, request) then
        Expand(st, request, j + 1, tried, pending, seen, limit)
      else
        var next := Child(st, request, j);
        if next in seen then
          Expand(st, request, j + 1, tried + {available}, pending, seen, limit)
        else if |seen| >= limit then
          OverBudget
        else
          Expand(st, request, j + 1, tried + {available}, pending + [next], seen + {next}, limit)
  }

  function Budget(seen: set<State>, limit: nat): nat {
    if |seen| < limit then limit - |seen| else 0
  }

  /** The outer loop: pop a state, finish if every replica is placed, else expand it. */
  function Search(requests: seq<Vec>, pending: seq<State>, seen: set<State>, limit: nat): Verdict
    decreases Budget(seen, limit), |pending|
  {
    if pending == [] then Insufficient
    else
      var st := pending[|pending| - 1];
      if st.index >= |requests| then Fit
      else
        match Expand(st, requests[st.index], 0, {}, pending[..|pending| - 1], seen, limit)
        case OverBudget => Exhausted
        case Expanded(pending', seen') => Search(requests, pending', seen', limit)
  }

  function Decide(requests: seq<Vec>, nodes: seq<Vec>, limit: nat): Verdict {
    Search(requests, [Initial(nodes)], {Initial(nodes)}, limit)
  }

  // ---- canonical node lists ----

  lemma DescendingOrder()
    ensures TotalPreorder(Descending)
    ensures forall a: Vec, b: Vec | Descending(a, b) && Descending(b, a) :: a == b
  {
    forall a: Vec, b: Vec
      ensures Descending(a, b) || Descending(b, a)
      ensures Descending(a, b) && Descending(b, a) ==> a == b
    {
      LexTotal(Less, a, b);
    }
    forall a: Vec, b: Vec, c: Vec | Descending(a, b) && Descending(b, c)
      ensures Descending(a, c)
    {
      LexTransitive(Less, c, b, a);
    }
  }

  lemma CanonicalForgetsOrder(a: seq<Vec>, b: seq<Vec>)
    requires multiset(a) == multiset(b)
    ensures Canonical(a) == Canonical(b)
  {
    DescendingOrder();
    SortCanonical(Descending, a, b);
  }

  lemma CanonicalPermutes(nodes: seq<Vec>)
    ensures multiset(Canonical(nodes)) == multiset(nodes)
  {
    DescendingOrder();
    SortSorts(Descending, nodes);
  }

  /** Equal nodes lead to the same state, so trying one of them is enough. */
  lemma EqualNodesEqualChildren(st: State, request: Vec, i: nat, j: nat)
    requires i < |st.remaining| && j < |st.remaining| && st.remaining[i] == st.remaining[j]
    requires Fits(st.remaining[i], request)
    ensures Child(st, request, i) == Child(st, request, j)
  {
    ReplaceInMultiset(st.remaining, st.remaining, i, j, Minus(st.remaining[i], request));
    CanonicalForgetsOrder(Place(st.remaining, i, request), Place(st.remaining, j, request));
  }

  // ---- what an expansion covers ----

  ghost predicate IsChild(st: State, request: Vec, next: State) {
    exists j | 0 <= j < |st.remaining| && Fits(st.remaining[j], request) :: next == Child(st, request, j)
  }

  ghost predicate Covered(st: State, request: Vec, j: nat, seen: set<State>)
    requires j <= |st.remaining|
  {
    forall i | 0 <= i < j && Fits(st.remaining[i], request) :: Child(st, request, i) in seen
  }

  ghost predicate TriedNodes(st: State, request: Vec, j: nat, tried: set<Vec>)
    requires j <= |st.remaining|
  {
    forall v | v in tried :: exists i | 0 <= i < j :: st.remaining[i] == v && Fits(v, request)
  }

  lemma TriedCovers(st: State, request: Vec, j: nat, tried: set<Vec>, seen: set<State>)
    requires j < |st.remaining| && TriedNodes(st, request, j, tried) && Covered(st, request, j, seen)
    requires st.remaining[j] in tried
    ensures Covered(st, request, j + 1, seen)
  {
    var i: nat :| 0 <= i < j && st.remaining[i] == st.remaining[j] && Fits(st.remaining[j], request);
    EqualNodesEqualChildren(st, request, i, j);
  }

  ghost predicate Extends(pending: seq<State>, seen: set<State>, r: Expansion)
    requires r.Expanded?
  {
    && seen <= r.seen
    && pending <= r.pending
    && forall x | x in r.pending :: x in pending || x in r.seen
  }

  ghost predicate AddsOnlyChildren(
    st: State, request: Vec, seen: set<State>, r: Expansion)
    requires r.Expanded?
  {
    forall x | x in r.seen && x !in seen :: IsChild(st, request, x) && x in r.pending
  }

  lemma PushExtends(st: State, request: Vec, j: nat, pending: seq<State>, seen: set<State>, next: State, r: Expansion)
    requires j < |st.remaining| && Fits(st.remaining[j], request) && next == Child(st, request, j)
    requires r.Expanded? && Extends(pending + [next], seen + {next}, r)
    requires AddsOnlyChildren(st, request, seen + {next}, r)
    ensures Extends(pending, seen, r) && AddsOnlyChildren(st, request, seen, r)
  {
    assert r.pending[..|pending| + 1] == pending + [next];
    assert r.pending[|pending|] == next;
    assert IsChild(st, request, next);
  }

  /** A node that was skipped or handled leaves everything before it covered. */
  lemma CoverGrows(st: State, request: Vec, j: nat, tried: set<Vec>, seen: set<State>, seen': set<State>)
    requires j < |st.remaining| && TriedNodes(st, request, j, tried) && Covered(st, request, j, seen) && seen <= seen'
    requires Fits(st.remaining[j], request) ==> Child(st, request, j) in seen'
    ensures Covered(st, request, j + 1, seen') && TriedNodes(st, request, j + 1, tried)
    ensures Fits(st.remaining[j], request) ==> TriedNodes(st, request, j + 1, tried + {st.remaining[j]})
  {
  }

  lemma NothingToExpand(st: State, request: Vec, pending: seq<State>, seen: set<State>)
    ensures Extends(pending, seen, Expanded(pending, seen))
    ensures AddsOnlyChildren(st, request, seen, Expanded(pending, seen))
  {
  }

  lemma {:induction false} ExpandCovers(
    st: State, request: Vec, j: nat, tried: set<Vec>,
    pending: seq<State>, seen: set<State>, limit: nat)
    requires j <= |st.remaining| && TriedNodes(st, request, j, tried) && Covered(st, request, j, seen)
    requires Expand(st, request, j, tried, pending, seen, limit).Expanded?
    ensures var r := Expand(st, request, j, tried, pending, seen, limit);
            && Extends(pending, seen, r)
            && AddsOnlyChildren(st, request, seen, r)
            && Covered(st, request, |st.remaining|, r.seen)
    decreases |st.remaining| - j
  {
    hide Extends, AddsOnlyChildren, Covered, TriedNodes, Child, Fits;
    if j == |st.remaining| {
      NothingToExpand(st, request, pending, seen);
    } else {
      var available := st.remaining[j];
      if available in tried {
        TriedCovers(st, request, j, tried, seen);
        TriedStays(st, request, j, tried);
        ExpandCovers(st, request, j + 1, tried, pending, seen, limit);
      } else if !Fits(available, request) {
        CoverGrows(st, request, j, tried, seen, seen);
        ExpandCovers(st, request, j + 1, tried, pending, seen, limit);
      } else {
        var next := Child(st, request, j);
        CoverGrows(st, request, j, tried, seen, seen + {next});
        if next in seen {
          assert seen + {next} == seen;
          ExpandCovers(st, request, j + 1, tried + {available}, pending, seen, limit);
        } else {
          ExpandCovers(st, request, j + 1, tried + {available}, pending + [next], seen + {next}, limit);
          PushExtends(st, request, j, pending, seen, next, Expand(st, request, j, tried, pending, seen, limit));
        }
      }
    }
  }

  lemma TriedStays(st: State, request: Vec, j: nat, tried: set<Vec>)
    requires j < |st.remaining| && TriedNodes(st, request, j, tried)
    ensures TriedNodes(st, request, j + 1, tried)
  {
  }

  // ---- soundness and completeness of the whole search ----

  ghost predicate StateFeasible(requests: seq<Vec>, st: State) {
    st.index <= |requests| && Feasible(requests[st.index..], st.remaining)
  }

  lemma ChildFeasible(requests: seq<Vec>, st: State, j: nat)
    requires st.index < |requests| && j < |st.remaining|
    requires Fits(st.remaining[j], requests[st.index])
    ensures StateFeasible(requests, Child(st, requests[st.index], j))
       <==> Feasible(requests[st.index + 1..], Place(st.remaining, j, requests[st.index]))
  {
    var plain := Place(st.remaining, j, requests[st.index]);
    CanonicalPermutes(plain);
    if Feasible(requests[st.index + 1..], plain) {
      FeasiblePermuteNodes(requests[st.index + 1..], plain, Canonical(plain));
    }
    if Feasible(requests[st.index + 1..], Canonical(plain)) {
      FeasiblePermuteNodes(requests[st.index + 1..], Canonical(plain), plain);
    }
  }

  lemma ChildMakesParentFeasible(requests: seq<Vec>, st: State, next: State)
    requires st.index < |requests| && IsChild(st, requests[st.index], next)
    requires StateFeasible(requests, next)
    ensures StateFeasible(requests, st)
  {
    var j :| 0 <= j < |st.remaining| && Fits(st.remaining[j], requests[st.index])
             && next == Child(st, requests[st.index], j);
    ChildFeasible(requests, st, j);
    assert requests[st.index..][1..] == requests[st.index + 1..];
    FeasibleStep(requests[st.index..], st.remaining, j);
  }

  /** A state none of whose replicas are left unplaced, or whose children are all recorded. */
  ghost predicate Explored(requests: seq<Vec>, st: State, seen: set<State>) {
    st.index < |requests| && Covered(st, requests[st.index], |st.remaining|, seen)
  }

  ghost predicate Invariant(
    requests: seq<Vec>, pending: seq<State>, seen: set<State>, root: State) {
    && root in seen
    && (forall st | st in pending :: st in seen)
    && (forall st | st in seen :: st in pending || Explored(requests, st, seen))
    && (forall st | st in seen && StateFeasible(requests, st) :: StateFeasible(requests, root))
    && (forall st | st in seen :: st.index <= |requests|)
  }

  lemma {:induction false} ExploredIsInfeasible(requests: seq<Vec>, st: State, seen: set<State>)
    requires forall s | s in seen :: Explored(requests, s, seen)
    requires st in seen
    ensures !StateFeasible(requests, st)
    decreases |requests| - st.index
  {
    var request := requests[st.index];
    assert requests[st.index..][0] == request && requests[st.index..][1..] == requests[st.index + 1..];
    forall j | 0 <= j < |st.remaining| && Fits(st.remaining[j], request)
      ensures !Feasible(requests[st.index + 1..], Place(st.remaining, j, request))
    {
      ExploredIsInfeasible(requests, Child(st, request, j), seen);
      ChildFeasible(requests, st, j);
    }
  }

  lemma ExpandKeepsInvariant(
    requests: seq<Vec>, pending: seq<State>, seen: set<State>, root: State, limit: nat)
    requires pending != [] && Invariant(requests, pending, seen, root)
    requires pending[|pending| - 1].index < |requests|
    requires var st := pending[|pending| - 1];
             Expand(st, requests[st.index], 0, {}, pending[..|pending| - 1], seen, limit).Expanded?
    ensures var st := pending[|pending| - 1];
            var r := Expand(st, requests[st.index], 0, {}, pending[..|pending| - 1], seen, limit);
            Invariant(requests, r.pending, r.seen, root)
  {
    var st, rest := pending[|pending| - 1], pending[..|pending| - 1];
    assert pending == rest + [st];
    assert st in pending;
    ExpandCovers(st, requests[st.index], 0, {}, rest, seen, limit);
    var r := Expand(st, requests[st.index], 0, {}, rest, seen, limit);
    forall x | x in r.seen && x !in seen && StateFeasible(requests, x)
      ensures StateFeasible(requests, root)
    {
      ChildMakesParentFeasible(requests, st, x);
    }
    forall x | x in r.seen
      ensures x in r.pending || Explored(requests, x, r.seen)
    {
      if x in seen && x != st {
        assert x in rest || Explored(requests, x, seen);
        assert x in rest ==> x in r.pending;
      }
    }
    forall x | x in r.seen
      ensures x.index <= |requests|
    {
      if x !in seen {
        assert IsChild(st, requests[st.index], x);
      }
    }
  }

  lemma {:induction false} SearchExact(
    requests: seq<Vec>, pending: seq<State>, seen: set<State>, root: State, limit: nat)
    requires Invariant(requests, pending, seen, root)
    ensures Search(requests, pending, seen, limit) == Fit ==> StateFeasible(requests, root)
    ensures Search(requests, pending, seen, limit) == Insufficient ==> !StateFeasible(requests, root)
    decreases Budget(seen, limit), |pending|
  {
    if pending == [] {
      ExploredIsInfeasible(requests, root, seen);
    } else {
      var st := pending[|pending| - 1];
      assert st in pending;
      if st.index >= |requests| {
        assert requests[st.index..] == [];
        assert StateFeasible(requests, st);
      } else {
        var r := Expand(st, requests[st.index], 0, {}, pending[..|pending| - 1], seen, limit);
        if r.Expanded? {
          ExpandKeepsInvariant(requests, pending, seen, root, limit);
          SearchExact(requests, r.pending, r.seen, root, limit);
        }
      }
    }
  }

  /** A definite verdict is never approximate: it decides whether a placement exists. */
  lemma DecideExact(requests: seq<Vec>, nodes: seq<Vec>, limit: nat)
    ensures Decide(requests, nodes, limit) == Fit ==> Feasible(requests, nodes)
    ensures Decide(requests, nodes, limit) == Insufficient ==> !Feasible(requests, nodes)
  {
    var root := Initial(nodes);
    SearchExact(requests, [root], {root}, root, limit);
    CanonicalPermutes(nodes);
    assert requests[0..] == requests;
    if Feasible(requests, nodes) {
      FeasiblePermuteNodes(requests, nodes, Canonical(nodes));
    }
    if Feasible(requests, Canonical(nodes)) {
      FeasiblePermuteNodes(requests, Canonical(nodes), nodes);
    }
  }

  // ---- the budget only ever turns a definite verdict into none ----

  lemma {:induction false} ExpandMonotone(
    st: State, request: Vec, j: nat, tried: set<Vec>,
    pending: seq<State>, seen: set<State>, limit: nat, larger: nat)
    requires j <= |st.remaining| && limit <= larger
    requires Expand(st, request, j, tried, pending, seen, limit).Expanded?
    ensures Expand(st, request, j, tried, pending, seen, larger)
         == Expand(st, request, j, tried, pending, seen, limit)
    decreases |st.remaining| - j
  {
    if j < |st.remaining| {
      var available := st.remaining[j];
      if available in tried || !Fits(available, request) {
        ExpandMonotone(st, request, j + 1, tried, pending, seen, limit, larger);
      } else {
        var next := Child(st, request, j);
        if next in seen {
          ExpandMonotone(st, request, j + 1, tried + {available}, pending, seen, limit, larger);
        } else {
          ExpandMonotone(st, request, j + 1, tried + {available},
                         pending + [next], seen + {next}, limit, larger);
        }
      }
    }
  }

  lemma {:induction false} SearchMonotone(
    requests: seq<Vec>, pending: seq<State>, seen: set<State>, limit: nat, larger: nat)
    requires limit <= larger && Search(requests, pending, seen, limit).Definite()
    ensures Search(requests, pending, seen, larger) == Search(requests, pending, seen, limit)
    decreases Budget(seen, limit), |pending|
  {
    if pending != [] {
      var st, rest := pending[|pending| - 1], pending[..|pending| - 1];
      if st.index < |requests| {
        var r := Expand(st, requests[st.index], 0, {}, rest, seen, limit);
        ExpandMonotone(st, requests[st.index], 0, {}, rest, seen, limit, larger);
        SearchMonotone(requests, r.pending, r.seen, limit, larger);
      }
    }
  }

  /** Raising the budget never changes a definite verdict; permuting nodes changes no verdict. */
  lemma DecideStable(requests: seq<Vec>, nodes: seq<Vec>, permuted: seq<Vec>, limit: nat, larger: nat)
    requires limit <= larger && multiset(nodes) == multiset(permuted)
    ensures Decide(requests, permuted, limit) == Decide(requests, nodes, limit)
    ensures Decide(requests, nodes, limit).Definite()
        ==> Decide(requests, nodes, larger) == Decide(requests, nodes, limit)
  {
    CanonicalForgetsOrder(nodes, permuted);
    if Decide(requests, nodes, limit).Definite() {
      SearchMonotone(requests, [Initial(nodes)], {Initial(nodes)}, limit, larger);
    }
  }

  // ---- a budget that covers the reachable states always decides ----

  ghost predicate ClosedUnderChildren(requests: seq<Vec>, states: set<State>) {
    forall st, j | st in states && st.index < |requests| && 0 <= j < |st.remaining|
                   && Fits(st.remaining[j], requests[st.index]) ::
      Child(st, requests[st.index], j) in states
  }

  /** The canonical states with the first `k` replicas placed. */
  ghost function Level(requests: seq<Vec>, nodes: seq<Vec>, k: nat): (r: set<State>)
    requires k <= |requests|
    ensures forall st | st in r :: st.index == k
  {
    if k == 0 then {Initial(nodes)}
    else
      set st, j | st in Level(requests, nodes, k - 1) && 0 <= j < |st.remaining|
                  && Fits(st.remaining[j], requests[k - 1]) ::
        Child(st, requests[k - 1], j)
  }

  ghost function ReachableUpTo(requests: seq<Vec>, nodes: seq<Vec>, k: nat): set<State>
    requires k <= |requests|
  {
    if k == 0 then Level(requests, nodes, 0)
    else ReachableUpTo(requests, nodes, k - 1) + Level(requests, nodes, k)
  }

  ghost function Reachable(requests: seq<Vec>, nodes: seq<Vec>): set<State> {
    ReachableUpTo(requests, nodes, |requests|)
  }

  lemma {:induction false} ReachableIsLevels(requests: seq<Vec>, nodes: seq<Vec>, k: nat, st: State)
    requires k <= |requests|
    ensures st in ReachableUpTo(requests, nodes, k)
       <==> st.index <= k && st in Level(requests, nodes, st.index)
  {
    if k > 0 {
      ReachableIsLevels(requests, nodes, k - 1, st);
    }
  }

  lemma ReachableClosed(requests: seq<Vec>, nodes: seq<Vec>)
    ensures Initial(nodes) in Reachable(requests, nodes)
    ensures ClosedUnderChildren(requests, Reachable(requests, nodes))
  {
    ReachableIsLevels(requests, nodes, |requests|, Initial(nodes));
    forall st, j | st in Reachable(requests, nodes) && st.index < |requests|
                   && 0 <= j < |st.remaining| && Fits(st.remaining[j], requests[st.index])
      ensures Child(st, requests[st.index], j) in Reachable(requests, nodes)
    {
      var next := Child(st, requests[st.index], j);
      ReachableIsLevels(requests, nodes, |requests|, st);
      assert next in Level(requests, nodes, st.index + 1);
      ReachableIsLevels(requests, nodes, |requests|, next);
    }
  }

  lemma ProperSubsetIsSmaller<T>(a: set<T>, x: T, b: set<T>)
    requires a <= b && x in b && x !in a
    ensures |a| < |b|
  {
    assert a <= b - {x};
    SubsetSize(a, b - {x});
  }

  lemma {:induction false} SubsetSize<T>(a: set<T>, b: set<T>)
    requires a <= b
    ensures |a| <= |b|
  {
    if a != {} {
      var x :| x in a;
      SubsetSize(a - {x}, b - {x});
    }
  }

  lemma {:induction false} ExpandWithin(
    requests: seq<Vec>, st: State, j: nat, tried: set<Vec>,
    pending: seq<State>, seen: set<State>, limit: nat, states: set<State>)
    requires st.index < |requests| && j <= |st.remaining| && st in states && seen <= states
    requires ClosedUnderChildren(requests, states) && |states| <= limit
    ensures var r := Expand(st, requests[st.index], j, tried, pending, seen, limit);
            r.Expanded? && r.seen <= states
            && forall x | x in r.pending :: x in pending || x in states
    decreases |st.remaining| - j
  {
    if j < |st.remaining| {
      var request, available := requests[st.index], st.remaining[j];
      if available in tried || !Fits(available, request) {
        ExpandWithin(requests, st, j + 1, tried, pending, seen, limit, states);
      } else {
        var next := Child(st, request, j);
        assert next in states;
        if next in seen {
          ExpandWithin(requests, st, j + 1, tried + {available}, pending, seen, limit, states);
        } else {
          ProperSubsetIsSmaller(seen, next, states);
          ExpandWithin(requests, st, j + 1, tried + {available},
                       pending + [next], seen + {next}, limit, states);
        }
      }
    }
  }

  lemma {:induction false} SearchWithin(
    requests: seq<Vec>, pending: seq<State>, seen: set<State>, limit: nat, states: set<State>)
    requires seen <= states && (forall st | st in pending :: st in states)
    requires ClosedUnderChildren(requests, states) && |states| <= limit
    ensures Search(requests, pending, seen, limit).Definite()
    decreases Budget(seen, limit), |pending|
  {
    if pending != [] {
      var st, rest := pending[|pending| - 1], pending[..|pending| - 1];
      assert st in pending;
      if st.index < |requests| {
        ExpandWithin(requests, st, 0, {}, rest, seen, limit, states);
        var r := Expand(st, requests[st.index], 0, {}, rest, seen, limit);
        SearchWithin(requests, r.pending, r.seen, limit, states);
      }
    }
  }

  /** With room for the reachable states, the search is a decision procedure. */
  lemma DecideComplete(requests: seq<Vec>, nodes: seq<Vec>, limit: nat)
    requires |Reachable(requests, nodes)| <= limit
    ensures Decide(requests, nodes, limit) == (if Feasible(requests, nodes) then Fit else Insufficient)
  {
    ReachableClosed(requests, nodes);
    SearchWithin(requests, [Initial(nodes)], {Initial(nodes)}, limit, Reachable(requests, nodes));
    DecideExact(requests, nodes, limit);
  }

  // ---- the search as the source runs it ----

  /** The stack-and-set loop; it holds at most `max(1, limit)` states and pushes none twice. */
  method Run(requests: seq<Vec>, nodes: seq<Vec>, limit: nat) returns (verdict: Verdict, held: set<State>)
    ensures verdict == Decide(requests, nodes, limit)
    ensures |held| <= (if limit < 1 then 1 else limit)
    ensures verdict == Fit ==> Feasible(requests, nodes)
    ensures verdict == Insufficient ==> !Feasible(requests, nodes)
  {
    DecideExact(requests, nodes, limit);
    var pending := [Initial(nodes)];
    held := {Initial(nodes)};
    ghost var popped: set<State> := {};
    while pending != []
      invariant Search(requests, pending, held, limit) == Decide(requests, nodes, limit)
      invariant |held| <= (if limit < 1 then 1 else limit)
      invariant forall st | st in pending :: st in held && st !in popped
      invariant popped <= held
      invariant forall i, j | 0 <= i < j < |pending| :: pending[i] != pending[j]
      decreases Budget(held, limit), |pending|
    {
      var st := pending[|pending| - 1];
      ghost var before, rest := held, pending[..|pending| - 1];
      assert forall x | x in rest :: x in pending;
      pending := pending[..|pending| - 1];
      popped := popped + {st};
      if st.index >= |requests| {
        return Fit, held;
      }
      var request := requests[st.index];
      var tried: set<Vec> := {};
      for j := 0 to |st.remaining|
        invariant Expand(st, request, j, tried, pending, held, limit)
               == Expand(st, request, 0, {}, rest, before, limit)
        invariant |before| <= |held| && (|held| == |before| ==> pending == rest)
        invariant |held| <= (if limit < 1 then 1 else limit)
        invariant |held| > |before| ==> |held| <= limit
        invariant forall x | x in pending :: x in held && x !in popped
        invariant popped <= held
        invariant forall a, b | 0 <= a < b < |pending| :: pending[a] != pending[b]
      {
        var available := st.remaining[j];
        if available !in tried && Fits(available, request) {
          var next := Child(st, request, j);
          tried := tried + {available};
          if next !in held {
            if |held| >= limit {
              return Exhausted, held;
            }
            held := held + {next};
            pending := pending + [next];
          }
        }
      }
    }
    return Insufficient, held;
  }
}
