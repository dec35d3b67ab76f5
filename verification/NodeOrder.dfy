/**
 Does the order of the node list matter to the placement search? Only through the
 first node that cannot be read exactly: an unread value and an unsupported one
 are reported differently, and whichever comes first is reported.
 */
module NodeOrder {
  import opened Wrappers
  import opened Placement
  import opened Sorting
  import opened Capacity
  import Fits = ProviderFit

  ghost predicate MixedFaults(nodes: seq<NodeCapacity>, dims: seq<Dimension>) {
    && (exists n | n in nodes :: ReadRow(n, dims) == NotReadable)
    && (exists n | n in nodes :: ReadRow(n, dims) == NotSupported)
  }

  function RowOf(dims: seq<Dimension>): NodeCapacity -> Vec {
    node => match ReadRow(node, dims) case Read(row) => row case _ => []
  }

  /** Reading succeeds exactly when every node can be read; otherwise some fault is reported. */
  lemma {:induction false} ReadRowsIsMap(nodes: seq<NodeCapacity>, dims: seq<Dimension>)
    ensures (forall n | n in nodes :: ReadRow(n, dims).Read?)
        ==> ReadRows(nodes, dims) == Read(Map(RowOf(dims), nodes))
    ensures ReadRows(nodes, dims) == NotReadable ==> exists n | n in nodes :: ReadRow(n, dims) == NotReadable
    ensures ReadRows(nodes, dims) == NotSupported ==> exists n | n in nodes :: ReadRow(n, dims) == NotSupported
    ensures ReadRows(nodes, dims).Read? ==> forall n | n in nodes :: ReadRow(n, dims).Read?
  {
    if nodes == [] {
      assert Map(RowOf(dims), nodes) == [];
    } else {
      ReadRowsIsMap(nodes[1..], dims);
      assert nodes == [nodes[0]] + nodes[1..];
      if forall n | n in nodes :: ReadRow(n, dims).Read? {
        assert nodes[0] in nodes;
        assert forall n | n in nodes[1..] :: n in nodes;
        assert Map(RowOf(dims), nodes) == [RowOf(dims)(nodes[0])] + Map(RowOf(dims), nodes[1..]);
      }
    }
  }

  lemma OrderIrrelevantWithoutMixedFaults(
    s: SearchSettings, replicas: seq<Request>, a: seq<NodeCapacity>, b: seq<NodeCapacity>)
    requires multiset(a) == multiset(b)
    requires !MixedFaults(a, RequestedDimensions(replicas, DIMENSIONS))
    ensures ReplicasFitNodes(s, replicas, a) == ReplicasFitNodes(s, replicas, b)
  {
    var dims := RequestedDimensions(replicas, DIMENSIONS);
    MultisetMembers(a, b);
    ReadRowsIsMap(a, dims);
    ReadRowsIsMap(b, dims);
    if forall n | n in a :: ReadRow(n, dims).Read? {
      MapPermutes(RowOf(dims), a, b);
      var rows, rows' := Map(RowOf(dims), a), Map(RowOf(dims), b);
      var ordered := s.order(RequestRows(replicas, dims), rows);
      assert ordered == s.order(RequestRows(replicas, dims), rows');
      Search.DecideStable(ordered, rows, rows', s.limit, s.limit);
    }
  }

  /** Bringing one node to the front of the list. */
  lemma ToFront(nodes: seq<NodeCapacity>, n: NodeCapacity) returns (moved: seq<NodeCapacity>)
    requires n in nodes
    ensures multiset(moved) == multiset(nodes) && moved != [] && moved[0] == n
  {
    var k :| 0 <= k < |nodes| && nodes[k] == n;
    moved := [n] + (nodes[..k] + nodes[k + 1..]);
    RemoveOne(moved, moved, 0);
    assert nodes == nodes[..k] + [n] + nodes[k + 1..];
    assert multiset(nodes) == multiset(nodes[..k]) + multiset{n} + multiset(nodes[k + 1..]);
  }

  lemma MixedFaultsDependOnOrder(s: SearchSettings, replicas: seq<Request>, nodes: seq<NodeCapacity>)
    returns (moved: seq<NodeCapacity>)
    requires MixedFaults(nodes, RequestedDimensions(replicas, DIMENSIONS))
    ensures multiset(moved) == multiset(nodes)
    ensures ReplicasFitNodes(s, replicas, moved) != ReplicasFitNodes(s, replicas, nodes)
  {
    var dims := RequestedDimensions(replicas, DIMENSIONS);
    var unread :| unread in nodes && ReadRow(unread, dims) == NotReadable;
    var unsupported :| unsupported in nodes && ReadRow(unsupported, dims) == NotSupported;
    if ReplicasFitNodes(s, replicas, nodes) == RequiredDimensionUnreadable {
      moved := ToFront(nodes, unsupported);
    } else {
      moved := ToFront(nodes, unread);
    }
  }

  /**
   Permuting the nodes changes no verdict if and only if the list does not hold both
   an unread and an unsupported requested value at the front of their rows.
   */
  lemma NodeOrderMatters(s: SearchSettings, replicas: seq<Request>, nodes: seq<NodeCapacity>)
    ensures (forall moved | multiset(moved) == multiset(nodes) ::
               ReplicasFitNodes(s, replicas, moved) == ReplicasFitNodes(s, replicas, nodes))
       <==> !MixedFaults(nodes, RequestedDimensions(replicas, DIMENSIONS))
  {
    if MixedFaults(nodes, RequestedDimensions(replicas, DIMENSIONS)) {
      var moved := MixedFaultsDependOnOrder(s, replicas, nodes);
    } else {
      forall moved | multiset(moved) == multiset(nodes)
        ensures ReplicasFitNodes(s, replicas, moved) == ReplicasFitNodes(s, replicas, nodes)
      {
        OrderIrrelevantWithoutMixedFaults(s, replicas, nodes, moved);
      }
    }
  }

  /** A concrete list whose verdict changes when its two nodes are swapped. */
  lemma SwappedNodesChangeTheVerdict(s: SearchSettings)
    ensures var unread := PerDimension(Option.None, Option.None, Option.None, Option.None);
            var unsupported := PerDimension(Option.Some(Inexact), Option.None, Option.None, Option.None);
            var replicas := [PerDimension(1, 0, 0, 0)];
            && ReplicasFitNodes(s, replicas, [unread, unsupported]) == RequiredDimensionUnreadable
            && ReplicasFitNodes(s, replicas, [unsupported, unread]) == PlacementSearchUnsupported
  {
    var replicas: seq<Request> := [PerDimension(1, 0, 0, 0)];
    var dims := RequestedDimensions(replicas, DIMENSIONS);
    assert replicas[0].At(Cpu) > 0;
    assert dims == [Cpu] + RequestedDimensions(replicas, DIMENSIONS[1..]);
  }

  // ---- the provider's verdict ----

  lemma {:induction false} ReadableCount(nodes: seq<NodeCapacity>, profile: ResourceProfile, x: NodeCapacity)
    ensures multiset(Fits.ReadableNodes(nodes, profile))[x]
         == if Fits.ReadableNode(x, profile) then multiset(nodes)[x] else 0
  {
    if nodes != [] {
      ReadableCount(nodes[1..], profile, x);
      assert nodes == [nodes[0]] + nodes[1..];
    }
  }

  lemma ReadablePermute(a: seq<NodeCapacity>, b: seq<NodeCapacity>, profile: ResourceProfile)
    requires multiset(a) == multiset(b)
    ensures multiset(Fits.ReadableNodes(a, profile)) == multiset(Fits.ReadableNodes(b, profile))
  {
    forall x
      ensures multiset(Fits.ReadableNodes(a, profile))[x] == multiset(Fits.ReadableNodes(b, profile))[x]
    {
      ReadableCount(a, profile, x);
      ReadableCount(b, profile, x);
    }
  }

  lemma {:induction false} NodeSumConcat(a: seq<NodeCapacity>, b: seq<NodeCapacity>, d: Dimension)
    ensures Fits.NodeSum(a + b, d) == Fits.NodeSum(a, d) + Fits.NodeSum(b, d)
  {
    if a == [] {
      assert a + b == b;
    } else {
      assert (a + b)[1..] == a[1..] + b;
      NodeSumConcat(a[1..], b, d);
    }
  }

  lemma {:induction false} NodeSumPermute(a: seq<NodeCapacity>, b: seq<NodeCapacity>, d: Dimension)
    requires multiset(a) == multiset(b)
    ensures Fits.NodeSum(a, d) == Fits.NodeSum(b, d)
  {
    MultisetMembers(a, b);
    if a != [] {
      assert a[0] in b;
      var k: nat :| k < |b| && b[k] == a[0];
      RemoveOne(a, b, k);
      NodeSumPermute(a[1..], b[..k] + b[k + 1..], d);
      NodeSumConcat(b[..k], b[k + 1..], d);
      NodeSumConcat(b[..k], [b[k]] + b[k + 1..], d);
      assert b == b[..k] + ([b[k]] + b[k + 1..]);
      assert ([b[k]] + b[k + 1..])[1..] == b[k + 1..];
    }
  }

  /** A readable node reports every requested dimension, so no fault but an unsupported value is left. */
  lemma ReadableNeverMixes(profile: ResourceProfile, nodes: seq<NodeCapacity>)
    requires profile.Valid()
    ensures !MixedFaults(Fits.ReadableNodes(nodes, profile), RequestedDimensions(profile.replicas, DIMENSIONS))
  {
    var dims := RequestedDimensions(profile.replicas, DIMENSIONS);
    forall n | n in Fits.ReadableNodes(nodes, profile)
      ensures ReadRow(n, dims) != NotReadable
    {
      ReadableMember(nodes, profile, n);
      forall d | d in dims
        ensures n.At(d).Some?
      {
        RequestedIffListed(profile.replicas, d);
        Fits.RequestedAgrees(profile, d);
      }
      PresentRow(n, dims);
    }
  }

  lemma {:induction false} ReadableMember(nodes: seq<NodeCapacity>, profile: ResourceProfile, n: NodeCapacity)
    requires n in Fits.ReadableNodes(nodes, profile)
    ensures Fits.ReadableNode(n, profile)
  {
    if !(Fits.ReadableNode(nodes[0], profile) && n == nodes[0]) {
      ReadableMember(nodes[1..], profile, n);
    }
  }

  lemma {:induction false} PresentRow(n: NodeCapacity, dims: seq<Dimension>)
    requires forall d | d in dims :: n.At(d).Some?
    ensures ReadRow(n, dims) != NotReadable
  {
    if dims != [] {
      assert dims[0] in dims;
      PresentRow(n, dims[1..]);
    }
  }

  lemma ContradictionPermutes(
    c: ProviderCapacity, a: seq<NodeCapacity>, b: seq<NodeCapacity>, profile: ResourceProfile)
    requires multiset(a) == multiset(b)
    ensures Fits.Contradicts(c, a, profile) == Fits.Contradicts(c, b, profile)
  {
    MultisetMembers(a, b);
    forall d: Dimension
      ensures Fits.ContradictsIn(c.available.At(d), a, d) == Fits.ContradictsIn(c.available.At(d), b, d)
    {
      NodeSumPermute(a, b, d);
    }
  }

  /** The verdict a provider gets does not depend on the order its nodes are listed in. */
  lemma FitIgnoresNodeOrder(
    s: SearchSettings, c: ProviderCapacity, profile: ResourceProfile, moved: seq<NodeCapacity>)
    requires profile.Valid() && c.nodes.Some? && multiset(moved) == multiset(c.nodes.value)
    ensures Fits.GroupFit(s, c.(nodes := Some(moved)), profile) == Fits.GroupFit(s, c, profile)
  {
    hide Fits.Contradicts, ReplicasFitNodes, Fits.ReadableNodes;
    var nodes := c.nodes.value;
    MultisetMembers(moved, nodes);
    ReadablePermute(moved, nodes, profile);
    MultisetMembers(Fits.ReadableNodes(moved, profile), Fits.ReadableNodes(nodes, profile));
    ContradictionPermutes(c, moved, nodes, profile);
    SameContradiction(c, moved, profile);
    ReadableNeverMixes(profile, moved);
    OrderIrrelevantWithoutMixedFaults(
      s, profile.replicas, Fits.ReadableNodes(moved, profile), Fits.ReadableNodes(nodes, profile));
  }

  /** The aggregate of a record is compared with a node list, whichever list the record holds. */
  lemma SameContradiction(c: ProviderCapacity, moved: seq<NodeCapacity>, profile: ResourceProfile)
    ensures Fits.Contradicts(c.(nodes := Some(moved)), moved, profile) == Fits.Contradicts(c, moved, profile)
  {
  }
}
