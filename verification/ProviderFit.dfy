/**
 `ProviderCapacity.fit`: aggregate fit, node fit, and what may still be concluded
 when some nodes or dimensions could not be read.
 */
module ProviderFit {
  import opened Wrappers
  import opened Placement
  import opened Capacity

  predicate Requested(profile: ResourceProfile, d: Dimension) {
    profile.total.At(d) > 0
  }

  predicate ReadableNode(node: NodeCapacity, profile: ResourceProfile) {
    forall d: Dimension | Requested(profile, d) :: node.At(d).Some?
  }

  function ReadableNodes(nodes: seq<NodeCapacity>, profile: ResourceProfile): seq<NodeCapacity> {
    if nodes == [] then []
    else (if ReadableNode(nodes[0], profile) then [nodes[0]] else []) + ReadableNodes(nodes[1..], profile)
  }

  /** The sum of the exact values the nodes report in one dimension. */
  function NodeSum(nodes: seq<NodeCapacity>, d: Dimension): real {
    if nodes == [] then 0.0
    else
      (match nodes[0].At(d)
       case Some(Exact(v)) => v
       case _ => 0.0)
      + NodeSum(nodes[1..], d)
  }

  /** The aggregate and the nodes cannot both be true in this dimension. */
  predicate ContradictsIn(aggregate: Option<Quantity>, nodes: seq<NodeCapacity>, d: Dimension) {
    && aggregate.Some? && aggregate.value.Exact?
    && (forall n | n in nodes :: n.At(d) != Some(Inexact))
    && (|| NodeSum(nodes, d) > aggregate.value.value
        || ((forall n | n in nodes :: n.At(d).Some?) && NodeSum(nodes, d) != aggregate.value.value))
  }

  predicate Contradicts(c: ProviderCapacity, nodes: seq<NodeCapacity>, profile: ResourceProfile) {
    exists d: Dimension | Requested(profile, d) :: ContradictsIn(c.available.At(d), nodes, d)
  }

  predicate AggregateFits(c: ProviderCapacity, profile: ResourceProfile) {
    forall d: Dimension | Requested(profile, d) ::
      match c.available.At(d)
      case Some(Exact(v)) => v >= profile.total.At(d) as real
      case _ => false
  }

  function GroupFit(s: SearchSettings, c: ProviderCapacity, profile: ResourceProfile): CapacityFit {
    if exists d: Dimension | Requested(profile, d) :: c.fraction.At(d).None? || c.available.At(d).None? then
      RequiredDimensionUnreadable
    else if exists d: Dimension | Requested(profile, d) :: c.available.At(d) == Some(Inexact) then
      PlacementSearchUnsupported
    else if c.nodes.None? then
      if AggregateFits(c, profile) then RequiredDimensionUnreadable else InsufficientCapacity
    else if Contradicts(c, c.nodes.value, profile) then
      RequiredDimensionUnreadable
    else
      var readable := ReadableNodes(c.nodes.value, profile);
      var placement := ReplicasFitNodes(s, profile.replicas, readable);
      if AggregateFits(c, profile) && placement == Fit then Fit
      else if |readable| != |c.nodes.value| then RequiredDimensionUnreadable
      else if placement == PlacementSearchUnsupported then PlacementSearchUnsupported
      else InsufficientCapacity
  }

  /** Every node reports every dimension the ranking uses. */
  predicate RankingComplete(c: ProviderCapacity, profile: ResourceProfile) {
    c.nodes.Some? && forall n | n in c.nodes.value :: ReadableNode(n, profile)
  }

  function MinFraction(c: ProviderCapacity, profile: ResourceProfile, dims: seq<Dimension>): Option<real> {
    if dims == [] then None
    else
      var rest := MinFraction(c, profile, dims[1..]);
      if !Requested(profile, dims[0]) || c.fraction.At(dims[0]).None? then rest
      else if rest.Some? && rest.value < c.fraction.At(dims[0]).value then rest
      else c.fraction.At(dims[0])
  }

  function AvailableFractionFor(s: SearchSettings, c: ProviderCapacity, profile: ResourceProfile): Option<real> {
    if GroupFit(s, c, profile) != Fit || !RankingComplete(c, profile) then None
    else MinFraction(c, profile, DIMENSIONS)
  }

  // ---- profiles ----

  lemma {:induction false} SumOfDemands(replicas: seq<Request>, d: Dimension)
    ensures Sum(Demand(replicas, d)) >= 0.0
    ensures Sum(Demand(replicas, d)) > 0.0 <==> RequestedBy(replicas, d)
  {
    if replicas != [] {
      SumOfDemands(replicas[1..], d);
      assert Demand(replicas, d)[1..] == Demand(replicas[1..], d);
      if RequestedBy(replicas[1..], d) {
        var i :| 0 <= i < |replicas[1..]| && replicas[1..][i].At(d) > 0;
        assert replicas[i + 1].At(d) > 0;
      }
      if RequestedBy(replicas, d) && replicas[0].At(d) == 0 {
        var i :| 0 <= i < |replicas| && replicas[i].At(d) > 0;
        assert replicas[1..][i - 1].At(d) > 0;
      }
    }
  }

  lemma RequestedAgrees(profile: ResourceProfile, d: Dimension)
    requires profile.Valid()
    ensures Requested(profile, d) <==> RequestedBy(profile.replicas, d)
  {
    SumOfDemands(profile.replicas, d);
  }

  // ---- the nodes that were read, inside the whole list ----

  ghost function Positions(nodes: seq<NodeCapacity>, profile: ResourceProfile): seq<nat> {
    if nodes == [] then []
    else
      var rest := Positions(nodes[1..], profile);
      (if ReadableNode(nodes[0], profile) then [0] else [])
      + seq(|rest|, i requires 0 <= i < |rest| => rest[i] + 1)
  }

  lemma {:induction false} PositionsLocate(nodes: seq<NodeCapacity>, profile: ResourceProfile)
    ensures var p, r := Positions(nodes, profile), ReadableNodes(nodes, profile);
            && |p| == |r| <= |nodes|
            && (forall i | 0 <= i < |p| :: p[i] < |nodes| && nodes[p[i]] == r[i] && ReadableNode(r[i], profile))
            && (forall i, j | 0 <= i < j < |p| :: p[i] < p[j])
            && (|r| == |nodes| ==> r == nodes && forall n | n in nodes :: ReadableNode(n, profile))
  {
    if nodes != [] {
      PositionsLocate(nodes[1..], profile);
      assert nodes == [nodes[0]] + nodes[1..];
    }
  }

  lemma {:induction false} AllReadable(nodes: seq<NodeCapacity>, profile: ResourceProfile)
    requires forall n | n in nodes :: ReadableNode(n, profile)
    ensures ReadableNodes(nodes, profile) == nodes
  {
    if nodes != [] {
      AllReadable(nodes[1..], profile);
      assert nodes == [nodes[0]] + nodes[1..];
    }
  }

  ghost function Relabel(assignment: seq<nat>, positions: seq<nat>): seq<nat>
    requires forall i | 0 <= i < |assignment| :: assignment[i] < |positions|
  {
    seq(|assignment|, i requires 0 <= i < |assignment| => positions[assignment[i]])
  }

  lemma {:induction false} RelabelLoad(
    amounts: seq<real>, assignment: seq<nat>, positions: seq<nat>, n: nat)
    requires Assigns(assignment, |amounts|, |positions|)
    requires forall i, j | 0 <= i < j < |positions| :: positions[i] < positions[j]
    ensures n in positions ==>
              exists i | 0 <= i < |positions| ::
                positions[i] == n
                && Load(amounts, Relabel(assignment, positions), n) == Load(amounts, assignment, i)
    ensures n !in positions ==> Load(amounts, Relabel(assignment, positions), n) == 0.0
  {
    if n in positions {
      var i: nat :| 0 <= i < |positions| && positions[i] == n;
      RelabelLoadAt(amounts, assignment, positions, i);
    } else {
      RelabelLoadElsewhere(amounts, assignment, positions, n);
    }
  }

  lemma {:induction false} RelabelLoadAt(
    amounts: seq<real>, assignment: seq<nat>, positions: seq<nat>, i: nat)
    requires Assigns(assignment, |amounts|, |positions|) && i < |positions|
    requires forall i, j | 0 <= i < j < |positions| :: positions[i] < positions[j]
    ensures Load(amounts, Relabel(assignment, positions), positions[i]) == Load(amounts, assignment, i)
  {
    if amounts != [] {
      RelabelLoadAt(amounts[1..], assignment[1..], positions, i);
      assert Relabel(assignment, positions)[1..] == Relabel(assignment[1..], positions);
    }
  }

  lemma {:induction false} RelabelLoadElsewhere(
    amounts: seq<real>, assignment: seq<nat>, positions: seq<nat>, n: nat)
    requires Assigns(assignment, |amounts|, |positions|) && n !in positions
    ensures Load(amounts, Relabel(assignment, positions), n) == 0.0
  {
    if amounts != [] {
      RelabelLoadElsewhere(amounts[1..], assignment[1..], positions, n);
      assert Relabel(assignment, positions)[1..] == Relabel(assignment[1..], positions);
    }
  }

  /** `full` is what the provider really has: known cells kept, the rest any exact amount. */
  ghost predicate Completes(nodes: seq<NodeCapacity>, full: seq<NodeCapacity>) {
    && |full| == |nodes|
    && forall n, d: Dimension | 0 <= n < |nodes| ::
         && full[n].At(d).Some? && full[n].At(d).value.Exact? && full[n].At(d).value.value >= 0.0
         && (nodes[n].At(d).Some? && nodes[n].At(d).value.Exact? ==> full[n].At(d) == nodes[n].At(d))
  }

  lemma ReadableNodesNonNegative(nodes: seq<NodeCapacity>, profile: ResourceProfile)
    requires forall n | n in nodes :: NonNegativeNode(n)
    ensures forall n | n in ReadableNodes(nodes, profile) :: NonNegativeNode(n)
  {
    PositionsLocate(nodes, profile);
  }

  /** A placement on the nodes that were read is a placement on the whole provider. */
  lemma HostingSurvivesCompletion(
    profile: ResourceProfile, nodes: seq<NodeCapacity>, full: seq<NodeCapacity>)
    requires Completes(nodes, full)
    requires CanHost(profile.replicas, ReadableNodes(nodes, profile))
    ensures CanHost(profile.replicas, full)
  {
    var readable, positions := ReadableNodes(nodes, profile), Positions(nodes, profile);
    PositionsLocate(nodes, profile);
    var assignment :| Hosts(profile.replicas, readable, assignment);
    var moved := Relabel(assignment, positions);
    forall n, d: Dimension | 0 <= n < |full| && RequestedBy(profile.replicas, d)
      ensures Load(Demand(profile.replicas, d), moved, n) <= full[n].At(d).value.value
    {
      RelabelLoad(Demand(profile.replicas, d), assignment, positions, n);
      if n in positions {
        var i :| 0 <= i < |positions| && positions[i] == n
                 && Load(Demand(profile.replicas, d), moved, n) == Load(Demand(profile.replicas, d), assignment, i);
        assert readable[i] == nodes[n];
      }
    }
    assert Hosts(profile.replicas, full, moved);
  }

  /**
   FIT survives anything the unreadable nodes turn out to have, and the aggregate
   covers the request.
   */
  lemma FitSurvivesMissingData(
    s: SearchSettings, c: ProviderCapacity, profile: ResourceProfile, full: seq<NodeCapacity>)
    requires c.Valid() && profile.Valid() && GroupFit(s, c, profile) == Fit
    ensures c.nodes.Some? && AggregateFits(c, profile)
    ensures CanHost(profile.replicas, ReadableNodes(c.nodes.value, profile))
    ensures Completes(c.nodes.value, full) ==> CanHost(profile.replicas, full)
  {
    ReadableNodesNonNegative(c.nodes.value, profile);
    ReplicasFitExact(s, profile.replicas, ReadableNodes(c.nodes.value, profile));
    if Completes(c.nodes.value, full) {
      HostingSurvivesCompletion(profile, c.nodes.value, full);
    }
  }

  // ---- double counting against the aggregate ----

  ghost predicate ExactIn(nodes: seq<NodeCapacity>, d: Dimension) {
    forall n | 0 <= n < |nodes| :: nodes[n].At(d).Some? && nodes[n].At(d).value.Exact?
  }

  function Values(nodes: seq<NodeCapacity>, d: Dimension): seq<real>
    requires ExactIn(nodes, d)
  {
    seq(|nodes|, n requires 0 <= n < |nodes| => nodes[n].At(d).value.value)
  }

  lemma {:induction false} NodeSumIsSum(nodes: seq<NodeCapacity>, d: Dimension)
    requires ExactIn(nodes, d)
    ensures NodeSum(nodes, d) == Sum(Values(nodes, d))
  {
    if nodes != [] {
      NodeSumIsSum(nodes[1..], d);
      assert Values(nodes, d)[1..] == Values(nodes[1..], d);
    }
  }

  /** No distribution places more than the nodes hold together. */
  lemma HostingWithinTotal(profile: ResourceProfile, nodes: seq<NodeCapacity>, d: Dimension)
    requires profile.Valid() && CanHost(profile.replicas, nodes) && Requested(profile, d)
    ensures ExactIn(nodes, d) && profile.total.At(d) as real <= NodeSum(nodes, d)
  {
    RequestedAgrees(profile, d);
    var assignment :| Hosts(profile.replicas, nodes, assignment);
    DemandWithinCapacity(Demand(profile.replicas, d), assignment, Values(nodes, d));
    NodeSumIsSum(nodes, d);
  }

  /** Without a node list, an aggregate below the request rules out every distribution. */
  lemma AggregateInsufficientIsProven(
    s: SearchSettings, c: ProviderCapacity, profile: ResourceProfile, nodes: seq<NodeCapacity>)
    requires c.Valid() && profile.Valid() && c.nodes.None?
    requires GroupFit(s, c, profile) == InsufficientCapacity
    requires forall d: Dimension | Requested(profile, d) && c.available.At(d).Some? && c.available.At(d).value.Exact? ::
               NodeSum(nodes, d) <= c.available.At(d).value.value
    ensures !CanHost(profile.replicas, nodes)
  {
    var d: Dimension :| Requested(profile, d) && c.available.At(d).Some? && c.available.At(d).value.Exact?
                        && c.available.At(d).value.value < profile.total.At(d) as real;
    if CanHost(profile.replicas, nodes) {
      HostingWithinTotal(profile, nodes, d);
      assert false;
    }
  }

  /** A consistent, fully read provider that can host the group also has the aggregate for it. */
  lemma HostingMeetsAggregate(c: ProviderCapacity, profile: ResourceProfile)
    requires c.Valid() && profile.Valid() && c.nodes.Some?
    requires forall d: Dimension | Requested(profile, d) :: c.available.At(d).Some? && c.available.At(d).value.Exact?
    requires !Contradicts(c, c.nodes.value, profile)
    requires CanHost(profile.replicas, c.nodes.value)
    ensures AggregateFits(c, profile)
  {
    forall d: Dimension | Requested(profile, d)
      ensures c.available.At(d).value.value >= profile.total.At(d) as real
    {
      HostingWithinTotal(profile, c.nodes.value, d);
      assert !ContradictsIn(c.available.At(d), c.nodes.value, d);
      assert forall n | n in c.nodes.value :: n.At(d).Some? && n.At(d).value.Exact?;
    }
  }

  /**
   INSUFFICIENT with a node list means every node was read and no placement exists;
   a placement that fits under an aggregate that does not is unreachable there.
   */
  lemma InsufficientIsProven(s: SearchSettings, c: ProviderCapacity, profile: ResourceProfile)
    requires c.Valid() && profile.Valid() && c.nodes.Some?
    requires GroupFit(s, c, profile) == InsufficientCapacity
    ensures RankingComplete(c, profile)
    ensures ReplicasFitNodes(s, profile.replicas, c.nodes.value) == InsufficientCapacity
    ensures !CanHost(profile.replicas, c.nodes.value)
  {
    hide CanHost, Contradicts, AggregateFits, ReplicasFitNodes, ReadableNode, NodeSum;
    var nodes := c.nodes.value;
    PositionsLocate(nodes, profile);
    ReplicasFitExact(s, profile.replicas, nodes);
    if ReplicasFitNodes(s, profile.replicas, nodes) == Fit {
      HostingMeetsAggregate(c, profile);
      assert false;
    }
    ReadableListIsReadable(s, profile, nodes);
  }

  lemma ReadableListIsReadable(s: SearchSettings, profile: ResourceProfile, nodes: seq<NodeCapacity>)
    requires profile.Valid() && forall n | n in nodes :: ReadableNode(n, profile)
    ensures ReplicasFitNodes(s, profile.replicas, nodes) != RequiredDimensionUnreadable
  {
    var dims := RequestedDimensions(profile.replicas, DIMENSIONS);
    forall d: Dimension | d in dims
      ensures forall n | n in nodes :: n.At(d).Some?
    {
      RequestedIffListed(profile.replicas, d);
      RequestedAgrees(profile, d);
    }
    ReadRowsReadable(nodes, dims);
  }

  lemma {:induction false} ReadRowsReadable(nodes: seq<NodeCapacity>, dims: seq<Dimension>)
    requires forall n, d | n in nodes && d in dims :: n.At(d).Some?
    ensures ReadRows(nodes, dims) != NotReadable
  {
    if nodes != [] {
      ReadRowExact(nodes[0], dims);
      ReadRowsReadable(nodes[1..], dims);
    }
  }

  lemma ExactEverywhere(nodes: seq<NodeCapacity>, profile: ResourceProfile)
    requires profile.Valid() && forall d: Dimension | Requested(profile, d) :: ExactIn(nodes, d)
    ensures forall n, d: Dimension | n in nodes && RequestedBy(profile.replicas, d) ::
              n.At(d).Some? && n.At(d).value.Exact?
    ensures forall n | n in nodes :: ReadableNode(n, profile)
  {
    forall n, d: Dimension | n in nodes && RequestedBy(profile.replicas, d)
      ensures n.At(d).Some? && n.At(d).value.Exact?
    {
      RequestedAgrees(profile, d);
      assert ExactIn(nodes, d);
    }
    forall n | n in nodes
      ensures ReadableNode(n, profile)
    {
      forall d: Dimension | Requested(profile, d)
        ensures n.At(d).Some?
      {
        RequestedAgrees(profile, d);
      }
    }
  }

  /** On exact, complete and consistent evidence the verdict decides placement. */
  lemma GroupFitDecides(s: SearchSettings, c: ProviderCapacity, profile: ResourceProfile)
    requires c.Valid() && profile.Valid() && c.nodes.Some?
    requires forall d: Dimension | Requested(profile, d) ::
               && c.fraction.At(d).Some?
               && ExactIn(c.nodes.value, d)
               && c.available.At(d) == Some(Exact(NodeSum(c.nodes.value, d)))
    ensures ReadRows(c.nodes.value, RequestedDimensions(profile.replicas, DIMENSIONS)).Read?
    ensures StatesNeeded(s, profile.replicas, c.nodes.value) <= s.limit
            ==> GroupFit(s, c, profile)
                == (if CanHost(profile.replicas, c.nodes.value) then Fit else InsufficientCapacity)
  {
    var nodes := c.nodes.value;
    ExactEverywhere(nodes, profile);
    AllReadable(nodes, profile);
    assert !Contradicts(c, nodes, profile);
    hide Requested, RequestedBy, ReadRows, Contradicts, CanHost, ReplicasFitNodes, StatesNeeded, ReadableNode;
    ReplicasFitDecides(s, profile.replicas, nodes);
    if CanHost(profile.replicas, nodes) {
      HostingMeetsAggregate(c, profile);
    }
  }

  // ---- the ranking score ----

  lemma {:induction false} MinFractionIsMinimum(c: ProviderCapacity, profile: ResourceProfile, dims: seq<Dimension>)
    ensures var m := MinFraction(c, profile, dims);
            && (m.None? <==> forall d | d in dims && Requested(profile, d) :: c.fraction.At(d).None?)
            && (m.Some? ==>
                  && (exists d | d in dims && Requested(profile, d) :: c.fraction.At(d) == m)
                  && (forall d | d in dims && Requested(profile, d) && c.fraction.At(d).Some? ::
                        m.value <= c.fraction.At(d).value))
  {
    if dims != [] {
      MinFractionIsMinimum(c, profile, dims[1..]);
      assert dims == [dims[0]] + dims[1..];
    }
  }

  /** The score is the binding requested fraction, and exists exactly when fit and ranking are proven. */
  lemma ScoreIsBindingFraction(s: SearchSettings, c: ProviderCapacity, profile: ResourceProfile)
    requires c.Valid() && profile.Valid()
    ensures var score := AvailableFractionFor(s, c, profile);
            && (score.Some? <==> GroupFit(s, c, profile) == Fit && RankingComplete(c, profile))
            && (score.Some? ==>
                  && (exists d: Dimension | Requested(profile, d) :: c.fraction.At(d) == score)
                  && (forall d: Dimension | Requested(profile, d) ::
                        c.fraction.At(d).Some? && score.value <= c.fraction.At(d).value)
                  && 0.0 <= score.value <= 1.0)
  {
    MinFractionIsMinimum(c, profile, DIMENSIONS);
    forall d: Dimension
      ensures d in DIMENSIONS
    {
      match d
      case Cpu => assert DIMENSIONS[0] == d;
      case Memory => assert DIMENSIONS[1] == d;
      case Storage => assert DIMENSIONS[2] == d;
      case Gpu => assert DIMENSIONS[3] == d;
    }
  }
}
