/**
 Provider capacity against one exact group request: what a node list, an
 aggregate, and the parts of them nobody could read together prove.
 */
module Capacity {
  import opened Wrappers
  import opened Placement
  import Search = PlacementSearch

  datatype Dimension = Cpu | Memory | Storage | Gpu

  const DIMENSIONS: seq<Dimension> := [Cpu, Memory, Storage, Gpu]

  datatype PerDimension<+T> = PerDimension(cpu: T, memory: T, storage: T, gpu: T) {
    function At(d: Dimension): T {
      match d
      case Cpu => cpu
      case Memory => memory
      case Storage => storage
      case Gpu => gpu
    }
  }

  /** A reported amount; floats at or above 2**53 have no exact value. */
  datatype Quantity = Exact(value: real) | Inexact

  type Request = PerDimension<nat>
  type NodeCapacity = PerDimension<Option<Quantity>>

  datatype CapacityFit = Fit | RequiredDimensionUnreadable | InsufficientCapacity | PlacementSearchUnsupported

  datatype ResourceProfile = ResourceProfile(total: Request, replicas: seq<Request>) {
    ghost predicate Valid() {
      && (exists d: Dimension :: total.At(d) > 0)
      && replicas != []
      && (forall r | r in replicas :: exists d: Dimension :: r.At(d) > 0)
      && (forall d: Dimension :: Sum(Demand(replicas, d)) == total.At(d) as real)
    }
  }

  datatype ProviderCapacity = ProviderCapacity(
    fraction: PerDimension<Option<real>>,
    available: PerDimension<Option<Quantity>>,
    nodes: Option<seq<NodeCapacity>>)
  {
    ghost predicate Valid() {
      && (forall d: Dimension | fraction.At(d).Some? :: 0.0 <= fraction.At(d).value <= 1.0)
      && (forall d: Dimension :: NonNegativeCell(available.At(d)))
      && (nodes.Some? ==> nodes.value != [] && forall n | n in nodes.value :: NonNegativeNode(n))
    }
  }

  ghost predicate NonNegativeCell(cell: Option<Quantity>) {
    cell.Some? && cell.value.Exact? ==> cell.value.value >= 0.0
  }

  ghost predicate NonNegativeNode(node: NodeCapacity) {
    forall d: Dimension :: NonNegativeCell(node.At(d))
  }

  // ---- the meaning of a placement on provider nodes ----

  /** The amounts the replicas ask for in one dimension, in exact arithmetic. */
  function Demand(replicas: seq<Request>, d: Dimension): seq<real> {
    seq(|replicas|, i requires 0 <= i < |replicas| => replicas[i].At(d) as real)
  }

  predicate RequestedBy(replicas: seq<Request>, d: Dimension) {
    exists i | 0 <= i < |replicas| :: replicas[i].At(d) > 0
  }

  /** Every requested dimension of every node has an exact value that covers its load. */
  ghost predicate Hosts(replicas: seq<Request>, nodes: seq<NodeCapacity>, assignment: seq<nat>) {
    && Assigns(assignment, |replicas|, |nodes|)
    && forall n, d: Dimension | 0 <= n < |nodes| && RequestedBy(replicas, d) ::
         && nodes[n].At(d).Some? && nodes[n].At(d).value.Exact?
         && Load(Demand(replicas, d), assignment, n) <= nodes[n].At(d).value.value
  }

  ghost predicate CanHost(replicas: seq<Request>, nodes: seq<NodeCapacity>) {
    exists assignment :: Hosts(replicas, nodes, assignment)
  }

  // ---- reading node lists ----

  datatype Reading<+T> = Read(value: T) | NotReadable | NotSupported

  function RequestedDimensions(replicas: seq<Request>, dims: seq<Dimension>): seq<Dimension> {
    if dims == [] then []
    else (if RequestedBy(replicas, dims[0]) then [dims[0]] else [])
         + RequestedDimensions(replicas, dims[1..])
  }

  function ReadRow(node: NodeCapacity, dims: seq<Dimension>): Reading<Vec> {
    if dims == [] then Read([])
    else
      match node.At(dims[0])
      case None => NotReadable
      case Some(Inexact) => NotSupported
      case Some(Exact(v)) =>
        match ReadRow(node, dims[1..])
        case Read(rest) => Read([v] + rest)
        case fault => fault
  }

  function ReadRows(nodes: seq<NodeCapacity>, dims: seq<Dimension>): Reading<seq<Vec>> {
    if nodes == [] then Read([])
    else
      match ReadRow(nodes[0], dims)
      case NotReadable => NotReadable
      case NotSupported => NotSupported
      case Read(row) =>
        match ReadRows(nodes[1..], dims)
        case Read(rest) => Read([row] + rest)
        case fault => fault
  }

  function RequestRow(replica: Request, dims: seq<Dimension>): Vec {
    seq(|dims|, k requires 0 <= k < |dims| => replica.At(dims[k]) as real)
  }

  function RequestRows(replicas: seq<Request>, dims: seq<Dimension>): seq<Vec> {
    seq(|replicas|, i requires 0 <= i < |replicas| => RequestRow(replicas[i], dims))
  }

  // ---- the placement search on node lists ----

  /** Any order to try the replicas in that ignores the order of the nodes. */
  type TryingOrder = h: (seq<Vec>, seq<Vec>) -> seq<Vec>
    | (forall requests, nodes: seq<Vec> :: multiset(h(requests, nodes)) == multiset(requests))
      && (forall requests, a: seq<Vec>, b: seq<Vec> | multiset(a) == multiset(b) ::
            h(requests, a) == h(requests, b))
    witness (requests: seq<Vec>, nodes: seq<Vec>) => requests

  datatype SearchSettings = SearchSettings(order: TryingOrder, limit: nat)

  function FromVerdict(v: Search.Verdict): CapacityFit {
    match v
    case Fit => Fit
    case Insufficient => InsufficientCapacity
    case Exhausted => PlacementSearchUnsupported
  }

  function ReplicasFitNodes(s: SearchSettings, replicas: seq<Request>, nodes: seq<NodeCapacity>): CapacityFit {
    if nodes == [] then InsufficientCapacity
    else
      var dims := RequestedDimensions(replicas, DIMENSIONS);
      match ReadRows(nodes, dims)
      case NotReadable => RequiredDimensionUnreadable
      case NotSupported => PlacementSearchUnsupported
      case Read(rows) =>
        FromVerdict(Search.Decide(s.order(RequestRows(replicas, dims), rows), rows, s.limit))
  }

  method ReadNodeRow(node: NodeCapacity, dims: seq<Dimension>) returns (r: Reading<Vec>)
    ensures r == ReadRow(node, dims)
  {
    var row: Vec := [];
    assert dims[0..] == dims;
    assert forall rest: Vec :: row + rest == rest;
    for k := 0 to |dims|
      invariant match ReadRow(node, dims[k..])
                case Read(rest) => ReadRow(node, dims) == Read(row + rest)
                case fault => ReadRow(node, dims) == fault
    {
      assert dims[k..][1..] == dims[k + 1..];
      match node.At(dims[k])
      case None => return NotReadable;
      case Some(Inexact) => return NotSupported;
      case Some(Exact(v)) =>
        assert forall rest: Vec :: row + ([v] + rest) == (row + [v]) + rest;
        row := row + [v];
    }
    assert row + [] == row;
    return Read(row);
  }

  method ReadNodeRows(nodes: seq<NodeCapacity>, dims: seq<Dimension>) returns (r: Reading<seq<Vec>>)
    ensures r == ReadRows(nodes, dims)
  {
    var rows: seq<Vec> := [];
    assert nodes[0..] == nodes;
    assert forall rest: seq<Vec> :: rows + rest == rest;
    for i := 0 to |nodes|
      invariant match ReadRows(nodes[i..], dims)
                case Read(rest) => ReadRows(nodes, dims) == Read(rows + rest)
                case fault => ReadRows(nodes, dims) == fault
    {
      assert nodes[i..][1..] == nodes[i + 1..];
      var row := ReadNodeRow(nodes[i], dims);
      match row
      case NotReadable => return NotReadable;
      case NotSupported => return NotSupported;
      case Read(v) =>
        assert forall rest: seq<Vec> :: rows + ([v] + rest) == (rows + [v]) + rest;
        rows := rows + [v];
    }
    assert rows + [] == rows;
    return Read(rows);
  }

  /** The search with its reading loops and its iterative stack. */
  method FindPlacement(s: SearchSettings, replicas: seq<Request>, nodes: seq<NodeCapacity>)
    returns (fit: CapacityFit)
    requires forall n | n in nodes :: NonNegativeNode(n)
    ensures fit == ReplicasFitNodes(s, replicas, nodes)
    ensures replicas != [] && fit == Fit ==> CanHost(replicas, nodes)
    ensures replicas != [] && fit == InsufficientCapacity ==> !CanHost(replicas, nodes)
  {
    if replicas != [] {
      ReplicasFitExact(s, replicas, nodes);
    }
    if nodes == [] {
      return InsufficientCapacity;
    }
    var dims := RequestedDimensions(replicas, DIMENSIONS);
    var reading := ReadNodeRows(nodes, dims);
    match reading
    case NotReadable => return RequiredDimensionUnreadable;
    case NotSupported => return PlacementSearchUnsupported;
    case Read(rows) =>
      var verdict, _ := Search.Run(s.order(RequestRows(replicas, dims), rows), rows, s.limit);
      return FromVerdict(verdict);
  }

  lemma {:induction false} RequestedDimensionsAre(replicas: seq<Request>, dims: seq<Dimension>, d: Dimension)
    ensures d in RequestedDimensions(replicas, dims) <==> d in dims && RequestedBy(replicas, d)
  {
    if dims != [] {
      RequestedDimensionsAre(replicas, dims[1..], d);
      assert dims == [dims[0]] + dims[1..];
    }
  }

  lemma RequestedIffListed(replicas: seq<Request>, d: Dimension)
    ensures d in RequestedDimensions(replicas, DIMENSIONS) <==> RequestedBy(replicas, d)
  {
    RequestedDimensionsAre(replicas, DIMENSIONS, d);
    assert DIMENSIONS[0] == Cpu && DIMENSIONS[1] == Memory && DIMENSIONS[2] == Storage && DIMENSIONS[3] == Gpu;
  }

  ghost predicate RowMatches(node: NodeCapacity, dims: seq<Dimension>, row: Vec) {
    |row| == |dims| && forall k | 0 <= k < |dims| :: node.At(dims[k]) == Some(Exact(row[k]))
  }

  lemma {:induction false} ReadRowExact(node: NodeCapacity, dims: seq<Dimension>)
    ensures match ReadRow(node, dims)
            case Read(row) => RowMatches(node, dims, row)
            case NotReadable => exists k | 0 <= k < |dims| :: node.At(dims[k]) == None
            case NotSupported => exists k | 0 <= k < |dims| :: node.At(dims[k]) == Some(Inexact)
  {
    if dims != [] {
      ReadRowExact(node, dims[1..]);
      if ReadRow(node, dims[1..]) == NotReadable {
        var k :| 0 <= k < |dims[1..]| && node.At(dims[1..][k]) == None;
        assert node.At(dims[k + 1]) == None;
      } else if ReadRow(node, dims[1..]) == NotSupported {
        var k :| 0 <= k < |dims[1..]| && node.At(dims[1..][k]) == Some(Inexact);
        assert node.At(dims[k + 1]) == Some(Inexact);
      }
    }
  }

  ghost predicate RowsMatch(nodes: seq<NodeCapacity>, dims: seq<Dimension>, rows: seq<Vec>) {
    |rows| == |nodes| && forall n | 0 <= n < |nodes| :: RowMatches(nodes[n], dims, rows[n])
  }

  lemma {:induction false} ReadRowsExact(nodes: seq<NodeCapacity>, dims: seq<Dimension>)
    ensures match ReadRows(nodes, dims)
            case Read(rows) => RowsMatch(nodes, dims, rows)
            case fault =>
              exists n | 0 <= n < |nodes| :: !ReadRow(nodes[n], dims).Read?
  {
    if nodes != [] {
      ReadRowExact(nodes[0], dims);
      ReadRowsExact(nodes[1..], dims);
      if ReadRow(nodes[0], dims).Read? && !ReadRows(nodes[1..], dims).Read? {
        var n :| 0 <= n < |nodes[1..]| && !ReadRow(nodes[1..][n], dims).Read?;
        assert !ReadRow(nodes[n + 1], dims).Read?;
      }
    }
  }

  lemma RequestRowsShape(replicas: seq<Request>, dims: seq<Dimension>)
    ensures Shaped(RequestRows(replicas, dims), |dims|) && NonNegative(RequestRows(replicas, dims))
  {
  }

  lemma RowsShape(nodes: seq<NodeCapacity>, dims: seq<Dimension>, rows: seq<Vec>)
    requires RowsMatch(nodes, dims, rows) && forall n | n in nodes :: NonNegativeNode(n)
    ensures Shaped(rows, |dims|) && NonNegative(rows)
  {
    forall v | v in rows
      ensures |v| == |dims| && forall k | 0 <= k < |v| :: v[k] >= 0.0
    {
      var n :| 0 <= n < |rows| && rows[n] == v;
      assert NonNegativeNode(nodes[n]) && RowMatches(nodes[n], dims, v);
      forall k | 0 <= k < |v|
        ensures v[k] >= 0.0
      {
        assert NonNegativeCell(nodes[n].At(dims[k]));
      }
    }
  }

  /** A placement of request rows on node rows is a placement of the replicas on the nodes. */
  lemma PlacementIsHosting(
    replicas: seq<Request>, nodes: seq<NodeCapacity>, rows: seq<Vec>, assignment: seq<nat>)
    requires var dims := RequestedDimensions(replicas, DIMENSIONS);
             RowsMatch(nodes, dims, rows) && Shaped(rows, |dims|)
             && Shaped(RequestRows(replicas, dims), |dims|)
    ensures var dims := RequestedDimensions(replicas, DIMENSIONS);
            (IsPlacement(RequestRows(replicas, dims), rows, |dims|, assignment)
             <==> Hosts(replicas, nodes, assignment))
  {
    var dims := RequestedDimensions(replicas, DIMENSIONS);
    var requests := RequestRows(replicas, dims);
    forall k | 0 <= k < |dims|
      ensures Column(requests, k) == Demand(replicas, dims[k])
    {
    }
    if Hosts(replicas, nodes, assignment) {
      forall n, k | 0 <= n < |rows| && 0 <= k < |dims|
        ensures Load(Column(requests, k), assignment, n) <= rows[n][k]
      {
        RequestedIffListed(replicas, dims[k]);
        assert RowMatches(nodes[n], dims, rows[n]);
      }
    }
    if IsPlacement(requests, rows, |dims|, assignment) {
      forall n, d: Dimension | 0 <= n < |nodes| && RequestedBy(replicas, d)
        ensures nodes[n].At(d).Some? && nodes[n].At(d).value.Exact?
             && Load(Demand(replicas, d), assignment, n) <= nodes[n].At(d).value.value
      {
        RequestedIffListed(replicas, d);
        var k :| 0 <= k < |dims| && dims[k] == d;
        assert RowMatches(nodes[n], dims, rows[n]);
        assert Load(Column(requests, k), assignment, n) <= rows[n][k];
      }
    }
  }

  lemma FeasibleIffCanHost(
    replicas: seq<Request>, nodes: seq<NodeCapacity>, rows: seq<Vec>, ordered: seq<Vec>)
    requires var dims := RequestedDimensions(replicas, DIMENSIONS);
             RowsMatch(nodes, dims, rows) && multiset(ordered) == multiset(RequestRows(replicas, dims))
    requires forall n | n in nodes :: NonNegativeNode(n)
    ensures Feasible(ordered, rows) <==> CanHost(replicas, nodes)
  {
    var dims := RequestedDimensions(replicas, DIMENSIONS);
    var requests := RequestRows(replicas, dims);
    RequestRowsShape(replicas, dims);
    RowsShape(nodes, dims, rows);
    forall v | v in ordered
      ensures v in requests
    {
      assert v in multiset(requests);
    }
    if Feasible(ordered, rows) {
      FeasiblePermuteRequests(requests, ordered, rows, |dims|);
      var assignment := FeasibleGivesPlacement(requests, rows, |dims|);
      PlacementIsHosting(replicas, nodes, rows, assignment);
    }
    if assignment :| Hosts(replicas, nodes, assignment) {
      PlacementIsHosting(replicas, nodes, rows, assignment);
      PlacementGivesFeasible(requests, rows, |dims|, assignment);
      FeasiblePermuteRequests(ordered, requests, rows, |dims|);
    }
  }

  lemma NoNodesNoAssignment(assignment: seq<nat>, replicas: nat)
    requires replicas > 0
    ensures !Assigns(assignment, replicas, 0)
  {
    if |assignment| == replicas {
      assert assignment[0] >= 0;
    }
  }

  /** The search's definite verdicts are exact, for every trying order and every budget. */
  lemma ReplicasFitExact(s: SearchSettings, replicas: seq<Request>, nodes: seq<NodeCapacity>)
    requires replicas != [] && forall n | n in nodes :: NonNegativeNode(n)
    ensures ReplicasFitNodes(s, replicas, nodes) == Fit ==> CanHost(replicas, nodes)
    ensures ReplicasFitNodes(s, replicas, nodes) == InsufficientCapacity ==> !CanHost(replicas, nodes)
  {
    var dims := RequestedDimensions(replicas, DIMENSIONS);
    ReadRowsExact(nodes, dims);
    if nodes == [] {
      forall assignment: seq<nat>
        ensures !Hosts(replicas, nodes, assignment)
      {
        NoNodesNoAssignment(assignment, |replicas|);
      }
    } else if ReadRows(nodes, dims).Read? {
      var rows := ReadRows(nodes, dims).value;
      var ordered := s.order(RequestRows(replicas, dims), rows);
      Search.DecideExact(ordered, rows, s.limit);
      FeasibleIffCanHost(replicas, nodes, rows, ordered);
    }
  }

  /** How many canonical states the search can reach. */
  ghost function StatesNeeded(s: SearchSettings, replicas: seq<Request>, nodes: seq<NodeCapacity>): nat
    requires ReadRows(nodes, RequestedDimensions(replicas, DIMENSIONS)).Read?
  {
    var dims := RequestedDimensions(replicas, DIMENSIONS);
    var rows := ReadRows(nodes, dims).value;
    |Search.Reachable(s.order(RequestRows(replicas, dims), rows), rows)|
  }

  /** With exact data and room for the reachable states, the search decides placement. */
  lemma ReplicasFitDecides(s: SearchSettings, replicas: seq<Request>, nodes: seq<NodeCapacity>)
    requires nodes != [] && forall n | n in nodes :: NonNegativeNode(n)
    requires forall n, d: Dimension | n in nodes && RequestedBy(replicas, d) ::
               n.At(d).Some? && n.At(d).value.Exact?
    ensures ReadRows(nodes, RequestedDimensions(replicas, DIMENSIONS)).Read?
    ensures StatesNeeded(s, replicas, nodes) <= s.limit
            ==> ReplicasFitNodes(s, replicas, nodes)
                == (if CanHost(replicas, nodes) then Fit else InsufficientCapacity)
  {
    var dims := RequestedDimensions(replicas, DIMENSIONS);
    ReadRowsExact(nodes, dims);
    if !ReadRows(nodes, dims).Read? {
      var n :| 0 <= n < |nodes| && !ReadRow(nodes[n], dims).Read?;
      assert nodes[n] in nodes;
      ReadRowExact(nodes[n], dims);
      var k :| 0 <= k < |dims|
               && (nodes[n].At(dims[k]) == None || nodes[n].At(dims[k]) == Some(Inexact));
      RequestedIffListed(replicas, dims[k]);
      assert false;
    } else {
      var rows := ReadRows(nodes, dims).value;
      var ordered := s.order(RequestRows(replicas, dims), rows);
      if |Search.Reachable(ordered, rows)| <= s.limit {
        Search.DecideComplete(ordered, rows, s.limit);
        FeasibleIffCanHost(replicas, nodes, rows, ordered);
      }
    }
  }
}
