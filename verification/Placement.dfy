/**
 What it means for replicas to share nodes, stated without any search.

 A demand is a vector of amounts, one per requested dimension. An assignment
 names a node for every replica; it is a placement when, on each node and in each
 dimension, the demands assigned there add up to no more than the node has.
 */
module Placement {
  import opened Sorting

  type Vec = seq<real>

  ghost predicate Shaped(vectors: seq<Vec>, dims: nat) {
    forall v | v in vectors :: |v| == dims
  }

  ghost predicate NonNegative(vectors: seq<Vec>) {
    forall v | v in vectors :: forall d | 0 <= d < |v| :: v[d] >= 0.0
  }

  /** The amounts one dimension asks for, replica by replica. */
  function Column(vectors: seq<Vec>, d: nat): seq<real>
    requires forall v | v in vectors :: d < |v|
  {
    seq(|vectors|, i requires 0 <= i < |vectors| => vectors[i][d])
  }

  /** The amount an assignment puts on one node. */
  function Load(amounts: seq<real>, assignment: seq<nat>, node: nat): real
    requires |assignment| == |amounts|
  {
    if amounts == [] then 0.0
    else (if assignment[0] == node then amounts[0] else 0.0) + Load(amounts[1..], assignment[1..], node)
  }

  function Sum(amounts: seq<real>): real {
    if amounts == [] then 0.0 else amounts[0] + Sum(amounts[1..])
  }

  ghost predicate Assigns(assignment: seq<nat>, replicas: nat, nodes: nat) {
    |assignment| == replicas && forall i | 0 <= i < replicas :: assignment[i] < nodes
  }

  ghost predicate IsPlacement(requests: seq<Vec>, nodes: seq<Vec>, dims: nat, assignment: seq<nat>)
    requires Shaped(requests, dims) && Shaped(nodes, dims)
  {
    && Assigns(assignment, |requests|, |nodes|)
    && forall n, d | 0 <= n < |nodes| && 0 <= d < dims ::
         Load(Column(requests, d), assignment, n) <= nodes[n][d]
  }

  /** One replica fits on one node (`all(have >= need)`). */
  predicate Fits(have: Vec, need: Vec) {
    |have| == |need| && forall d | 0 <= d < |need| :: need[d] <= have[d]
  }

  function Minus(have: Vec, need: Vec): Vec
    requires |have| == |need|
  {
    seq(|need|, d requires 0 <= d < |need| => have[d] - need[d])
  }

  function Place(nodes: seq<Vec>, j: nat, need: Vec): seq<Vec>
    requires j < |nodes| && Fits(nodes[j], need)
  {
    nodes[j := Minus(nodes[j], need)]
  }

  /** The replicas can be placed one after another, consuming headroom as they go. */
  ghost predicate Feasible(requests: seq<Vec>, nodes: seq<Vec>) {
    requests == []
    || exists j | 0 <= j < |nodes| && Fits(nodes[j], requests[0]) ::
         Feasible(requests[1..], Place(nodes, j, requests[0]))
  }

  lemma FeasibleStep(requests: seq<Vec>, nodes: seq<Vec>, j: nat)
    requires requests != [] && j < |nodes| && Fits(nodes[j], requests[0])
    requires Feasible(requests[1..], Place(nodes, j, requests[0]))
    ensures Feasible(requests, nodes)
  {
  }

  // ---- which node is which does not matter ----

  lemma ReplaceInMultiset<T>(a: seq<T>, b: seq<T>, j: nat, k: nat, x: T)
    requires multiset(a) == multiset(b) && j < |a| && k < |b| && a[j] == b[k]
    ensures multiset(a[j := x]) == multiset(b[k := x])
  {
    assert multiset(a[j := x]) == multiset(a) - multiset{a[j]} + multiset{x};
    assert multiset(b[k := x]) == multiset(b) - multiset{b[k]} + multiset{x};
  }

  lemma {:induction false} FeasiblePermuteNodes(requests: seq<Vec>, a: seq<Vec>, b: seq<Vec>)
    requires multiset(a) == multiset(b) && Feasible(requests, a)
    ensures Feasible(requests, b)
    decreases |requests|
  {
    if requests != [] {
      var j :| 0 <= j < |a| && Fits(a[j], requests[0])
               && Feasible(requests[1..], Place(a, j, requests[0]));
      assert a[j] in multiset(b);
      var k :| 0 <= k < |b| && b[k] == a[j];
      ReplaceInMultiset(a, b, j, k, Minus(a[j], requests[0]));
      FeasiblePermuteNodes(requests[1..], Place(a, j, requests[0]), Place(b, k, requests[0]));
      FeasibleStep(requests, b, k);
    }
  }

  // ---- step-by-step placement is the same thing as an assignment ----

  lemma {:induction false} LoadNonNegative(amounts: seq<real>, assignment: seq<nat>, node: nat)
    requires |assignment| == |amounts| && forall i | 0 <= i < |amounts| :: amounts[i] >= 0.0
    ensures Load(amounts, assignment, node) >= 0.0
  {
    if amounts != [] {
      LoadNonNegative(amounts[1..], assignment[1..], node);
    }
  }

  lemma ColumnTail(requests: seq<Vec>, dims: nat, d: nat)
    requires requests != [] && Shaped(requests, dims) && d < dims
    ensures Shaped(requests[1..], dims)
    ensures Column(requests, d)[0] == requests[0][d]
    ensures Column(requests, d)[1..] == Column(requests[1..], d)
  {
    assert requests[0] in requests;
    assert forall v | v in requests[1..] :: v in requests;
  }

  /** Loads of an assignment that sends the first replica to node `j`. */
  lemma LoadAfterFirst(
    requests: seq<Vec>, nodes: seq<Vec>, dims: nat, assignment: seq<nat>, n: nat, d: nat)
    requires requests != [] && Shaped(requests, dims) && Shaped(nodes, dims) && d < dims
    requires Assigns(assignment, |requests|, |nodes|) && n < |nodes|
    requires Fits(nodes[assignment[0]], requests[0])
    ensures Shaped(requests[1..], dims) && |requests[0]| == dims
    ensures Shaped(Place(nodes, assignment[0], requests[0]), dims)
    ensures Load(Column(requests, d), assignment, n) <= nodes[n][d]
       <==> Load(Column(requests[1..], d), assignment[1..], n)
              <= Place(nodes, assignment[0], requests[0])[n][d]
  {
    ColumnTail(requests, dims, d);
  }

  lemma PlaceKeepsHeadroom(nodes: seq<Vec>, dims: nat, j: nat, need: Vec)
    requires Shaped(nodes, dims) && NonNegative(nodes) && j < |nodes| && Fits(nodes[j], need)
    ensures Shaped(Place(nodes, j, need), dims) && NonNegative(Place(nodes, j, need))
  {
    var nodes' := Place(nodes, j, need);
    assert nodes[j] in nodes;
    forall v | v in nodes'
      ensures |v| == dims && forall d | 0 <= d < |v| :: v[d] >= 0.0
    {
      var i :| 0 <= i < |nodes'| && v == nodes'[i];
      assert nodes[i] in nodes;
    }
  }

  lemma {:induction false} FeasibleGivesPlacement(requests: seq<Vec>, nodes: seq<Vec>, dims: nat)
    returns (assignment: seq<nat>)
    requires Shaped(requests, dims) && Shaped(nodes, dims)
    requires NonNegative(nodes)
    requires Feasible(requests, nodes)
    ensures IsPlacement(requests, nodes, dims, assignment)
    decreases |requests|
  {
    if requests == [] {
      assignment := [];
      forall n, d | 0 <= n < |nodes| && 0 <= d < dims
        ensures Load(Column(requests, d), assignment, n) <= nodes[n][d]
      {
        assert nodes[n] in nodes;
      }
    } else {
      var j: nat :| 0 <= j < |nodes| && Fits(nodes[j], requests[0])
               && Feasible(requests[1..], Place(nodes, j, requests[0]));
      var nodes' := Place(nodes, j, requests[0]);
      PlaceKeepsHeadroom(nodes, dims, j, requests[0]);
      var rest := FeasibleGivesPlacement(requests[1..], nodes', dims);
      assignment := [j] + rest;
      assert assignment[1..] == rest;
      forall n, d | 0 <= n < |nodes| && 0 <= d < dims
        ensures Load(Column(requests, d), assignment, n) <= nodes[n][d]
      {
        LoadAfterFirst(requests, nodes, dims, assignment, n, d);
      }
    }
  }

  lemma FirstFits(requests: seq<Vec>, nodes: seq<Vec>, dims: nat, assignment: seq<nat>)
    requires requests != [] && Shaped(requests, dims) && Shaped(nodes, dims) && NonNegative(requests)
    requires IsPlacement(requests, nodes, dims, assignment)
    ensures Fits(nodes[assignment[0]], requests[0])
  {
    var j := assignment[0];
    assert requests[0] in requests && nodes[j] in nodes;
    forall d | 0 <= d < dims
      ensures requests[0][d] <= nodes[j][d]
    {
      ColumnTail(requests, dims, d);
      var tail := Column(requests[1..], d);
      forall i | 0 <= i < |tail|
        ensures tail[i] >= 0.0
      {
        assert requests[1..][i] in requests;
      }
      LoadNonNegative(tail, assignment[1..], j);
      assert Load(Column(requests, d), assignment, j) <= nodes[j][d];
    }
  }

  lemma {:induction false} PlacementGivesFeasible(
    requests: seq<Vec>, nodes: seq<Vec>, dims: nat, assignment: seq<nat>)
    requires Shaped(requests, dims) && Shaped(nodes, dims) && NonNegative(requests)
    requires IsPlacement(requests, nodes, dims, assignment)
    ensures Feasible(requests, nodes)
    decreases |requests|
  {
    if requests != [] {
      FirstFits(requests, nodes, dims, assignment);
      var j := assignment[0];
      var nodes' := Place(nodes, j, requests[0]);
      assert Shaped(nodes', dims) && Shaped(requests[1..], dims) by {
        assert requests[0] in requests;
      }
      forall n, d | 0 <= n < |nodes'| && 0 <= d < dims
        ensures Load(Column(requests[1..], d), assignment[1..], n) <= nodes'[n][d]
      {
        assert Load(Column(requests, d), assignment, n) <= nodes[n][d];
        LoadAfterFirst(requests, nodes, dims, assignment, n, d);
      }
      PlacementGivesFeasible(requests[1..], nodes', dims, assignment[1..]);
      FeasibleStep(requests, nodes, j);
    }
  }

  // ---- the order the replicas are tried in does not matter ----

  function RemoveAt<T>(s: seq<T>, k: nat): seq<T>
    requires k < |s|
  {
    s[..k] + s[k + 1..]
  }

  lemma {:induction false} LoadRemoveAt(amounts: seq<real>, assignment: seq<nat>, node: nat, k: nat)
    requires |assignment| == |amounts| && k < |amounts|
    ensures Load(amounts, assignment, node)
         == Load([amounts[k]] + RemoveAt(amounts, k), [assignment[k]] + RemoveAt(assignment, k), node)
  {
    var moved, movedTo := [amounts[k]] + RemoveAt(amounts, k), [assignment[k]] + RemoveAt(assignment, k);
    assert moved[1..] == RemoveAt(amounts, k) && movedTo[1..] == RemoveAt(assignment, k);
    if k == 0 {
      assert moved == amounts && movedTo == assignment;
    } else {
      LoadRemoveAt(amounts[1..], assignment[1..], node, k - 1);
      var tail, tailTo := RemoveAt(amounts[1..], k - 1), RemoveAt(assignment[1..], k - 1);
      assert ([amounts[k]] + tail)[1..] == tail && ([assignment[k]] + tailTo)[1..] == tailTo;
      assert RemoveAt(amounts, k)[1..] == tail && RemoveAt(assignment, k)[1..] == tailTo;
    }
  }

  /** Any replica of a placeable population may be placed first. */
  lemma PlacementMoveToFront(
    requests: seq<Vec>, nodes: seq<Vec>, dims: nat, assignment: seq<nat>, k: nat)
    requires Shaped(requests, dims) && Shaped(nodes, dims) && k < |requests|
    requires IsPlacement(requests, nodes, dims, assignment)
    ensures Shaped([requests[k]] + RemoveAt(requests, k), dims)
    ensures IsPlacement([requests[k]] + RemoveAt(requests, k), nodes, dims,
                        [assignment[k]] + RemoveAt(assignment, k))
  {
    var moved, movedTo := [requests[k]] + RemoveAt(requests, k), [assignment[k]] + RemoveAt(assignment, k);
    forall n, d | 0 <= n < |nodes| && 0 <= d < dims
      ensures Load(Column(moved, d), movedTo, n) <= nodes[n][d]
    {
      var column := Column(requests, d);
      assert Column(moved, d) == [column[k]] + RemoveAt(column, k);
      LoadRemoveAt(column, assignment, n, k);
      assert Load(column, assignment, n) <= nodes[n][d];
    }
  }

  /** A replica can be taken out of a placeable population, wherever it stands in it. */
  lemma FeasibleTakeOut(requests: seq<Vec>, nodes: seq<Vec>, dims: nat, k: nat) returns (j: nat)
    requires Shaped(requests, dims) && Shaped(nodes, dims) && k < |requests|
    requires NonNegative(requests) && NonNegative(nodes)
    requires Feasible(requests, nodes)
    ensures j < |nodes| && Fits(nodes[j], requests[k])
    ensures Feasible(RemoveAt(requests, k), Place(nodes, j, requests[k]))
  {
    var assignment := FeasibleGivesPlacement(requests, nodes, dims);
    PlacementMoveToFront(requests, nodes, dims, assignment, k);
    var rest, restTo := RemoveAt(requests, k), RemoveAt(assignment, k);
    var front, frontTo := [requests[k]] + rest, [assignment[k]] + restTo;
    assert front[1..] == rest && frontTo[1..] == restTo;
    assert forall v | v in front :: v in requests;
    j := assignment[k];
    FirstFits(front, nodes, dims, frontTo);
    PlaceKeepsHeadroom(nodes, dims, j, requests[k]);
    var nodes' := Place(nodes, j, requests[k]);
    forall n, d | 0 <= n < |nodes'| && 0 <= d < dims
      ensures Load(Column(rest, d), restTo, n) <= nodes'[n][d]
    {
      assert Load(Column(front, d), frontTo, n) <= nodes[n][d];
      LoadAfterFirst(front, nodes, dims, frontTo, n, d);
    }
    PlacementGivesFeasible(rest, nodes', dims, restTo);
  }

  lemma {:induction false} FeasiblePermuteRequests(
    a: seq<Vec>, b: seq<Vec>, nodes: seq<Vec>, dims: nat)
    requires multiset(a) == multiset(b) && Shaped(a, dims) && Shaped(nodes, dims)
    requires NonNegative(a) && NonNegative(nodes)
    requires Feasible(b, nodes)
    ensures Feasible(a, nodes)
    decreases |a|
  {
    if a != [] {
      forall v | v in b
        ensures v in a
      {
        assert v in multiset(a);
      }
      assert a[0] in multiset(b);
      var k: nat :| 0 <= k < |b| && b[k] == a[0];
      var j := FeasibleTakeOut(b, nodes, dims, k);
      PlaceKeepsHeadroom(nodes, dims, j, a[0]);
      RemoveOne(a, b, k);
      FeasiblePermuteRequests(a[1..], RemoveAt(b, k), Place(nodes, j, a[0]), dims);
      FeasibleStep(a, nodes, j);
    }
  }

  // ---- double counting ----

  function LoadSum(amounts: seq<real>, assignment: seq<nat>, nodes: nat): real
    requires |assignment| == |amounts|
  {
    if nodes == 0 then 0.0
    else LoadSum(amounts, assignment, nodes - 1) + Load(amounts, assignment, nodes - 1)
  }

  lemma {:induction false} LoadSumStep(amounts: seq<real>, assignment: seq<nat>, nodes: nat)
    requires |assignment| == |amounts| && amounts != []
    ensures LoadSum(amounts, assignment, nodes)
         == (if assignment[0] < nodes then amounts[0] else 0.0)
            + LoadSum(amounts[1..], assignment[1..], nodes)
  {
    if nodes != 0 {
      LoadSumStep(amounts, assignment, nodes - 1);
    }
  }

  /** Summed over the nodes, the loads of an assignment are the whole demand. */
  lemma {:induction false} DoubleCounting(amounts: seq<real>, assignment: seq<nat>, nodes: nat)
    requires Assigns(assignment, |amounts|, nodes)
    ensures LoadSum(amounts, assignment, nodes) == Sum(amounts)
  {
    if amounts == [] {
      EmptyLoadSum(assignment, nodes);
    } else {
      LoadSumStep(amounts, assignment, nodes);
      DoubleCounting(amounts[1..], assignment[1..], nodes);
    }
  }

  lemma {:induction false} EmptyLoadSum(assignment: seq<nat>, nodes: nat)
    requires assignment == []
    ensures LoadSum([], assignment, nodes) == 0.0
  {
    if nodes != 0 {
      EmptyLoadSum(assignment, nodes - 1);
    }
  }

  lemma {:induction false} LoadSumBounded(amounts: seq<real>, assignment: seq<nat>, capacity: seq<real>)
    requires |assignment| == |amounts|
    requires forall n | 0 <= n < |capacity| :: Load(amounts, assignment, n) <= capacity[n]
    ensures LoadSum(amounts, assignment, |capacity|) <= Sum(capacity)
    decreases |capacity|
  {
    if capacity != [] {
      var last := |capacity| - 1;
      LoadSumBounded(amounts, assignment, capacity[..last]);
      SumLast(capacity);
    }
  }

  lemma {:induction false} SumLast(amounts: seq<real>)
    requires amounts != []
    ensures Sum(amounts) == Sum(amounts[..|amounts| - 1]) + amounts[|amounts| - 1]
  {
    if |amounts| > 1 {
      SumLast(amounts[1..]);
      assert amounts[1..][..|amounts| - 2] == amounts[..|amounts| - 1][1..];
    }
  }

  /** A placement cannot exceed the total capacity of the nodes it uses. */
  lemma DemandWithinCapacity(amounts: seq<real>, assignment: seq<nat>, capacity: seq<real>)
    requires Assigns(assignment, |amounts|, |capacity|)
    requires forall n | 0 <= n < |capacity| :: Load(amounts, assignment, n) <= capacity[n]
    ensures Sum(amounts) <= Sum(capacity)
  {
    DoubleCounting(amounts, assignment, |capacity|);
    LoadSumBounded(amounts, assignment, capacity);
  }
}
