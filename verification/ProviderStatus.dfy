/**
 The provider `/status` adapter: node values and the aggregate are built from the
 same exact pairs, so the capacity it returns agrees with itself. Over-reporting is
 tested on the numbers as given, but the decimals they print as are added up.
 */
module ProviderStatus {
  import opened Wrappers
  import opened Capacity
  import opened Decimals
  import Fits = ProviderFit

  /** A finite nonnegative number; a float has an exact value and a shortest decimal it prints as. */
  datatype Number =
    | Integer(n: nat)
    | Float(raw: real, printed: Decimal)
    | Exactly(decimal: Decimal)
  {
    /** What comparisons see. */
    function Raw(): real {
      match this
      case Integer(n) => n as real
      case Float(raw, _) => raw
      case Exactly(d) => Value(d)
    }

    /** What the sums see. */
    function Printed(): Decimal {
      match this
      case Integer(n) => Decimal(n, 0)
      case Float(_, printed) => printed
      case Exactly(d) => d
    }
  }

  /** One reported quantity: a usable number, the decimal sNaN that no test of finiteness accepts, or anything else. */
  datatype Reported = Usable(number: Number) | SignalingNaN | Unusable

  /** One node entry; a node without both mappings is unreadable as a whole. */
  datatype NodeReport = Unreadable | Node(allocatable: PerDimension<Reported>, available: PerDimension<Reported>)

  /** Usable numbers are nonnegative, and printing floats keeps their order. */
  ghost predicate WellFormed(nodes: seq<NodeReport>) {
    forall n, d: Dimension | n in nodes && BothUsable(n, d) ::
      var total, free := n.allocatable.At(d).number, n.available.At(d).number;
      && Value(total.Printed()) >= 0.0 && Value(free.Printed()) >= 0.0
      && (total.Float? && free.Float? && free.raw <= total.raw ==> Value(free.printed) <= Value(total.printed))
  }

  predicate BothUsable(n: NodeReport, d: Dimension) {
    n.Node? && n.allocatable.At(d).Usable? && n.available.At(d).Usable?
  }

  /** The pair is atomic: both halves usable, and no more free than allocatable. */
  predicate Counted(n: NodeReport, d: Dimension) {
    BothUsable(n, d) && n.available.At(d).number.Raw() <= n.allocatable.At(d).number.Raw()
  }

  /** Testing this pair raises; the second half is tested only after a usable first half. */
  predicate Signals(n: NodeReport, d: Dimension) {
    && n.Node?
    && (n.allocatable.At(d).SignalingNaN?
        || (n.allocatable.At(d).Usable? && n.available.At(d).SignalingNaN?))
  }

  predicate SignalsIn(nodes: seq<NodeReport>, d: Dimension) {
    exists i | 0 <= i < |nodes| :: Signals(nodes[i], d)
  }

  predicate Overreported(nodes: seq<NodeReport>, d: Dimension) {
    exists i | 0 <= i < |nodes| :: BothUsable(nodes[i], d) && !Counted(nodes[i], d)
  }

  function Half(n: NodeReport, d: Dimension, free: bool): Decimal
    requires BothUsable(n, d)
  {
    if free then n.available.At(d).number.Printed() else n.allocatable.At(d).number.Printed()
  }

  /** What one node adds to the parts of a sum. */
  function Part(n: NodeReport, d: Dimension, free: bool): seq<Decimal> {
    if Counted(n, d) then [Half(n, d, free)] else []
  }

  function Parts(nodes: seq<NodeReport>, d: Dimension, free: bool): seq<Decimal> {
    if nodes == [] then [] else Part(nodes[0], d, free) + Parts(nodes[1..], d, free)
  }

  /** The exact provider-wide sum of one half. */
  function Total(nodes: seq<NodeReport>, d: Dimension, free: bool): real {
    RealSum(Parts(nodes, d, free))
  }

  function NodeCell(n: NodeReport, d: Dimension): Option<Quantity> {
    if Counted(n, d) then Some(Exact(Value(Half(n, d, true)))) else None
  }

  function ForEach<T>(f: Dimension -> T): PerDimension<T> {
    PerDimension(f(Cpu), f(Memory), f(Storage), f(Gpu))
  }

  function NodeOf(n: NodeReport): NodeCapacity {
    ForEach(d => NodeCell(n, d))
  }

  function NodesOf(nodes: seq<NodeReport>): seq<NodeCapacity> {
    seq(|nodes|, i requires 0 <= i < |nodes| => NodeOf(nodes[i]))
  }

  const UNREADABLE: ProviderCapacity := ProviderCapacity(
    PerDimension(None, None, None, None), PerDimension(None, None, None, None), None)

  function TwoTo(n: nat): real
    ensures TwoTo(n) >= 1.0
  {
    if n == 0 then 1.0 else 2.0 * TwoTo(n - 1)
  }

  /** The least real that rounds to an infinite double. */
  const FLOAT_CEILING: real := TwoTo(1024) - TwoTo(970)

  /** A sum no double can hold makes the whole capacity unreadable. */
  predicate Overflows(nodes: seq<NodeReport>) {
    exists d: Dimension :: OverflowsIn(nodes, d)
  }

  predicate OverflowsIn(nodes: seq<NodeReport>, d: Dimension) {
    Total(nodes, d, true) >= FLOAT_CEILING || Total(nodes, d, false) >= FLOAT_CEILING
  }

  // ---- `from_totals` and the constructor behind it ----

  datatype Pair = Pair(available: real, total: real)

  datatype CapacityError =
    | NotANumber
    | NegativeTotals
    | AvailableExceedsTotal
    | FractionOutOfRange
    | NegativeAvailable
    | BadNodes

  function CheckPair(pair: Option<Pair>): Option<CapacityError> {
    if pair.None? then None
    else if pair.value.total < 0.0 || pair.value.available < 0.0 then Some(NegativeTotals)
    else if pair.value.available > pair.value.total then Some(AvailableExceedsTotal)
    else None
  }

  function CheckPairs(pairs: PerDimension<Option<Pair>>, dims: seq<Dimension>): Option<CapacityError> {
    if dims == [] then None
    else if CheckPair(pairs.At(dims[0])).Some? then CheckPair(pairs.At(dims[0]))
    else CheckPairs(pairs, dims[1..])
  }

  /** An absent pair or a zero total is unreadable. */
  function FractionOf(pair: Option<Pair>): Option<real> {
    if pair.None? || pair.value.total == 0.0 then None
    else
      var share := pair.value.available / pair.value.total;
      Some(if share > 1.0 then 1.0 else share)
  }

  function AvailableOf(pair: Option<Pair>): Option<Quantity> {
    if pair.None? || pair.value.total == 0.0 then None else Some(Exact(pair.value.available))
  }

  predicate NegativeCell(cell: Option<Quantity>) {
    cell.Some? && cell.value.Exact? && cell.value.value < 0.0
  }

  /** The validation of a capacity record and of its node records. */
  function Construct(c: ProviderCapacity): Result<ProviderCapacity, CapacityError> {
    if exists d: Dimension :: c.fraction.At(d).Some? && !(0.0 <= c.fraction.At(d).value <= 1.0) then
      Failure(FractionOutOfRange)
    else if exists d: Dimension :: NegativeCell(c.available.At(d)) then Failure(NegativeAvailable)
    else if c.nodes.Some?
            && (c.nodes.value == [] || exists n, d: Dimension | n in c.nodes.value :: NegativeCell(n.At(d))) then
      Failure(BadNodes)
    else Success(c)
  }

  function FromTotals(pairs: PerDimension<Option<Pair>>, nodes: seq<NodeCapacity>)
    : Result<ProviderCapacity, CapacityError>
  {
    var fault := CheckPairs(pairs, DIMENSIONS);
    if fault.Some? then Failure(fault.value)
    else
      Construct(ProviderCapacity(ForEach(d => FractionOf(pairs.At(d))), ForEach(d => AvailableOf(pairs.At(d))),
                                 Some(nodes)))
  }

  function PairOf(nodes: seq<NodeReport>, d: Dimension): Option<Pair> {
    if Overreported(nodes, d) then None else Some(Pair(Total(nodes, d, true), Total(nodes, d, false)))
  }

  /** No nodes, no node with both mappings, or a sum out of range is an unreadable capacity. */
  function FromStatus(nodes: seq<NodeReport>): Result<ProviderCapacity, CapacityError> {
    if exists d: Dimension :: SignalsIn(nodes, d) then Failure(NotANumber)
    else if (forall i | 0 <= i < |nodes| :: nodes[i].Unreadable?) || Overflows(nodes) then Success(UNREADABLE)
    else FromTotals(ForEach(d => PairOf(nodes, d)), NodesOf(nodes))
  }

  // ---- sums ----

  /** What one node adds to the two sums, and to the sum of the node values. */
  lemma PartsStep(nodes: seq<NodeReport>, d: Dimension, free: bool)
    requires nodes != []
    ensures Total(nodes, d, free)
         == (if Counted(nodes[0], d) then Value(Half(nodes[0], d, free)) else 0.0) + Total(nodes[1..], d, free)
  {
    hide Counted, Half, Value;
    var rest := Parts(nodes[1..], d, free);
    if Counted(nodes[0], d) {
      assert BothUsable(nodes[0], d) by { CountedIsUsable(nodes[0], d); }
      assert ([Half(nodes[0], d, free)] + rest)[1..] == rest;
    } else {
      assert [] + rest == rest;
    }
  }

  lemma CountedIsUsable(n: NodeReport, d: Dimension)
    requires Counted(n, d)
    ensures BothUsable(n, d)
  {
  }

  lemma NodeSumStep(nodes: seq<NodeReport>, d: Dimension)
    requires nodes != []
    ensures Fits.NodeSum(NodesOf(nodes), d)
         == (if Counted(nodes[0], d) then Value(Half(nodes[0], d, true)) else 0.0)
            + Fits.NodeSum(NodesOf(nodes[1..]), d)
  {
    assert NodesOf(nodes)[1..] == NodesOf(nodes[1..]);
    assert NodesOf(nodes)[0].At(d) == NodeCell(nodes[0], d);
  }

  lemma WellFormedTail(nodes: seq<NodeReport>)
    requires nodes != [] && WellFormed(nodes)
    ensures WellFormed(nodes[1..])
  {
    assert forall n | n in nodes[1..] :: n in nodes;
  }

  lemma CellNonNegative(nodes: seq<NodeReport>, n: NodeReport, d: Dimension)
    requires WellFormed(nodes) && n in nodes && Counted(n, d)
    ensures Value(Half(n, d, true)) >= 0.0 && Value(Half(n, d, false)) >= 0.0
  {
  }

  lemma {:induction false} Sums(nodes: seq<NodeReport>, d: Dimension)
    requires WellFormed(nodes)
    ensures Total(nodes, d, true) >= 0.0 && Total(nodes, d, false) >= 0.0
    ensures Fits.NodeSum(NodesOf(nodes), d) == Total(nodes, d, true)
  {
    hide Counted, Half, Value, WellFormed;
    if nodes != [] {
      WellFormedTail(nodes);
      Sums(nodes[1..], d);
      if Counted(nodes[0], d) {
        CellNonNegative(nodes, nodes[0], d);
      }
      PartsStep(nodes, d, true);
      PartsStep(nodes, d, false);
      NodeSumStep(nodes, d);
    }
  }

  // ---- when the adapter raises ----

  /** The decimals of a counted pair are the other way round than its numbers. */
  predicate Crossed(n: NodeReport, d: Dimension) {
    Counted(n, d) && Value(Half(n, d, true)) > Value(Half(n, d, false))
  }

  /** Exactly one half is a float. */
  predicate MixedKinds(n: NodeReport, d: Dimension) {
    BothUsable(n, d) && n.available.At(d).number.Float? != n.allocatable.At(d).number.Float?
  }

  lemma CrossedIsMixed(nodes: seq<NodeReport>, n: NodeReport, d: Dimension)
    requires WellFormed(nodes) && n in nodes && Crossed(n, d)
    ensures MixedKinds(n, d)
  {
    IntegerValue(n.available.At(d).number);
    IntegerValue(n.allocatable.At(d).number);
  }

  lemma IntegerValue(x: Number)
    ensures !x.Float? ==> Value(x.Printed()) == x.Raw()
  {
  }

  lemma {:induction false} UncrossedSums(nodes: seq<NodeReport>, d: Dimension)
    requires forall n | n in nodes :: !Crossed(n, d)
    ensures Total(nodes, d, true) <= Total(nodes, d, false)
  {
    if nodes != [] {
      hide Counted, Half, Value;
      assert nodes[0] in nodes && forall n | n in nodes[1..] :: n in nodes;
      UncrossedSums(nodes[1..], d);
      PartsStep(nodes, d, true);
      PartsStep(nodes, d, false);
    }
  }

  predicate Exceeds(nodes: seq<NodeReport>, d: Dimension) {
    !Overreported(nodes, d) && Total(nodes, d, true) > Total(nodes, d, false)
  }

  lemma {:induction false} ChecksFind(pairs: PerDimension<Option<Pair>>, dims: seq<Dimension>)
    requires forall d | d in dims && pairs.At(d).Some? ::
               pairs.At(d).value.total >= 0.0 && pairs.At(d).value.available >= 0.0
    ensures CheckPairs(pairs, dims) in {None, Some(AvailableExceedsTotal)}
    ensures CheckPairs(pairs, dims).Some? <==>
              exists d | d in dims :: pairs.At(d).Some? && pairs.At(d).value.available > pairs.At(d).value.total
  {
    if dims != [] {
      assert dims == [dims[0]] + dims[1..];
      ChecksFind(pairs, dims[1..]);
    }
  }

  lemma Ratio(a: real, b: real)
    requires 0.0 <= a <= b && b > 0.0
    ensures 0.0 <= a / b <= 1.0
  {
  }

  lemma PairIsFine(pair: Option<Pair>)
    requires CheckPair(pair).None?
    ensures FractionOf(pair).Some? ==> 0.0 <= FractionOf(pair).value <= 1.0
    ensures !NegativeCell(AvailableOf(pair))
  {
    if pair.Some? && pair.value.total > 0.0 {
      Ratio(pair.value.available, pair.value.total);
    }
  }

  lemma {:induction false} ChecksPass(pairs: PerDimension<Option<Pair>>, dims: seq<Dimension>, d: Dimension)
    requires CheckPairs(pairs, dims).None? && d in dims
    ensures CheckPair(pairs.At(d)).None?
  {
    if d != dims[0] {
      ChecksPass(pairs, dims[1..], d);
    }
  }

  /** After the checks on the pairs, the constructor's own checks never fire. */
  lemma TotalsConstruct(pairs: PerDimension<Option<Pair>>, nodes: seq<NodeCapacity>)
    requires CheckPairs(pairs, DIMENSIONS).None? && nodes != [] && forall n | n in nodes :: NonNegativeNode(n)
    ensures FromTotals(pairs, nodes).Success?
    ensures var c := FromTotals(pairs, nodes).value;
            && c.nodes == Some(nodes) && c.Valid()
            && forall d: Dimension ::
                 c.fraction.At(d) == FractionOf(pairs.At(d)) && c.available.At(d) == AvailableOf(pairs.At(d))
  {
    var c := ProviderCapacity(ForEach(d => FractionOf(pairs.At(d))), ForEach(d => AvailableOf(pairs.At(d))),
                              Some(nodes));
    forall d: Dimension
      ensures c.fraction.At(d) == FractionOf(pairs.At(d)) && c.available.At(d) == AvailableOf(pairs.At(d))
      ensures c.fraction.At(d).Some? ==> 0.0 <= c.fraction.At(d).value <= 1.0
      ensures !NegativeCell(c.available.At(d)) && NonNegativeCell(c.available.At(d))
    {
      ChecksPass(pairs, DIMENSIONS, d);
      PairIsFine(pairs.At(d));
    }
    assert forall n, d: Dimension | n in nodes :: NonNegativeCell(n.At(d)) && !NegativeCell(n.At(d));
  }

  lemma NodesNonNegative(nodes: seq<NodeReport>)
    requires WellFormed(nodes)
    ensures forall n | n in NodesOf(nodes) :: NonNegativeNode(n)
  {
    forall i, d: Dimension | 0 <= i < |nodes|
      ensures NonNegativeCell(NodesOf(nodes)[i].At(d))
    {
      assert NodesOf(nodes)[i].At(d) == NodeCell(nodes[i], d);
      if Counted(nodes[i], d) {
        CellNonNegative(nodes, nodes[i], d);
      }
    }
  }

  lemma ForEachAt(nodes: seq<NodeReport>, d: Dimension)
    ensures ForEach(e => PairOf(nodes, e)).At(d) == PairOf(nodes, d) && d in DIMENSIONS
  {
  }

  lemma PairsOf(nodes: seq<NodeReport>)
    requires WellFormed(nodes)
    ensures var pairs := ForEach(d => PairOf(nodes, d));
            && (forall d: Dimension :: pairs.At(d) == PairOf(nodes, d))
            && CheckPairs(pairs, DIMENSIONS) in {None, Some(AvailableExceedsTotal)}
            && (CheckPairs(pairs, DIMENSIONS).Some? <==> exists d: Dimension :: Exceeds(nodes, d))
  {
    hide Overreported, Total, ForEach;
    var pairs := ForEach(d => PairOf(nodes, d));
    forall d: Dimension
      ensures pairs.At(d) == PairOf(nodes, d) && d in DIMENSIONS
      ensures Total(nodes, d, true) >= 0.0 && Total(nodes, d, false) >= 0.0
    {
      ForEachAt(nodes, d);
      Sums(nodes, d);
    }
    ChecksFind(pairs, DIMENSIONS);
    forall d: Dimension
      ensures Exceeds(nodes, d) <==> pairs.At(d).Some? && pairs.At(d).value.available > pairs.At(d).value.total
    {
    }
  }

  /**
   A signaling NaN raises where it is tested. Of all the checks behind the loop only one
   can fire, and it fires exactly when in some dimension that no node over-reports the
   free decimals add up to more than the allocatable ones. Otherwise the record is valid.
   */
  lemma AdapterRaisesExactly(nodes: seq<NodeReport>)
    requires WellFormed(nodes)
    ensures FromStatus(nodes) == Failure(NotANumber) <==> exists d: Dimension :: SignalsIn(nodes, d)
    ensures FromStatus(nodes) == Failure(AvailableExceedsTotal) <==>
              && (forall d: Dimension :: !SignalsIn(nodes, d))
              && (exists i :: 0 <= i < |nodes| && nodes[i].Node?) && !Overflows(nodes)
              && exists d: Dimension :: Exceeds(nodes, d)
    ensures FromStatus(nodes).Failure? ==> FromStatus(nodes).error in {NotANumber, AvailableExceedsTotal}
    ensures FromStatus(nodes).Success? ==> FromStatus(nodes).value.Valid()
  {
    hide Overflows, Exceeds, WellFormed, SignalsIn;
    var unread := forall i | 0 <= i < |nodes| :: nodes[i].Unreadable?;
    if (forall d: Dimension :: !SignalsIn(nodes, d)) && !unread && !Overflows(nodes) {
      PairsOf(nodes);
      NodesNonNegative(nodes);
      var pairs := ForEach(d => PairOf(nodes, d));
      if CheckPairs(pairs, DIMENSIONS).None? {
        TotalsConstruct(pairs, NodesOf(nodes));
      }
    }
  }

  /** One kind of number, or no number at all, but no signaling NaN: what a caller can check. */
  predicate Uniform(n: NodeReport, d: Dimension) {
    !Signals(n, d) && !MixedKinds(n, d)
  }

  /** It never raises when every pair is of one kind. */
  lemma NeverRaisesOnUniformPairs(nodes: seq<NodeReport>)
    requires WellFormed(nodes)
    requires forall n, d: Dimension | n in nodes :: Uniform(n, d)
    ensures FromStatus(nodes).Success? && FromStatus(nodes).value.Valid()
  {
    forall d: Dimension
      ensures !Exceeds(nodes, d)
    {
      forall n | n in nodes
        ensures !Crossed(n, d)
      {
        assert Uniform(n, d);
        if Crossed(n, d) {
          CrossedIsMixed(nodes, n, d);
        }
      }
      UncrossedSums(nodes, d);
    }
    forall d: Dimension
      ensures !SignalsIn(nodes, d)
    {
      NoSignals(nodes, d);
    }
    AdapterRaisesExactly(nodes);
  }

  lemma NoSignals(nodes: seq<NodeReport>, d: Dimension)
    requires forall n | n in nodes :: Uniform(n, d)
    ensures !SignalsIn(nodes, d)
  {
    forall i | 0 <= i < |nodes|
      ensures !Signals(nodes[i], d)
    {
      assert Uniform(nodes[i], d);
    }
  }

  // ---- a payload that raises ----

  lemma {:induction false} TwoToGrows(m: nat, n: nat)
    requires m <= n
    ensures TwoTo(m) <= TwoTo(n)
  {
    if m < n {
      TwoToGrows(m, n - 1);
    }
  }

  lemma CeilingIsHigh()
    ensures FLOAT_CEILING >= TwoTo(60) >= 1000000000000000000.0
  {
    hide TwoTo;
    TwoToGrows(60, 970);
    TwoToGrows(971, 1024);
    Doubles();
    TenDoublings(0);
    TenDoublings(10);
    TenDoublings(20);
    TenDoublings(30);
    TenDoublings(40);
    TenDoublings(50);
  }

  lemma Doubles()
    ensures TwoTo(971) == 2.0 * TwoTo(970) && TwoTo(0) == 1.0
  {
  }

  lemma TenDoublings(n: nat)
    ensures TwoTo(n + 10) == 1024.0 * TwoTo(n)
  {
    assert TwoTo(n + 10) == 2.0 * TwoTo(n + 9) == 4.0 * TwoTo(n + 8);
    assert TwoTo(n + 8) == 2.0 * TwoTo(n + 7) == 4.0 * TwoTo(n + 6);
    assert TwoTo(n + 6) == 2.0 * TwoTo(n + 5) == 4.0 * TwoTo(n + 4);
    assert TwoTo(n + 4) == 2.0 * TwoTo(n + 3) == 4.0 * TwoTo(n + 2);
  }

  const NOTHING: PerDimension<Reported> := PerDimension(Unusable, Unusable, Unusable, Unusable)

  /** The double 2^56 prints as 7.205759403792794e16, four more than its value. */
  const FREE_MEMORY := Float(72057594037927936.0, Decimal(7205759403792794, 1))
  const ALL_MEMORY := Integer(72057594037927937)

  const CROSSED_NODE: NodeReport :=
    Node(NOTHING.(memory := Usable(ALL_MEMORY)), NOTHING.(memory := Usable(FREE_MEMORY)))

  /** One node, one integer and one float: not over-reported, yet more free than allocatable in decimals. */
  lemma MixedPairRaises()
    ensures WellFormed([CROSSED_NODE])
    ensures FromStatus([CROSSED_NODE]) == Failure(AvailableExceedsTotal)
  {
    var nodes := [CROSSED_NODE];
    assert PowerOfTen(1) == 10.0 && PowerOfTen(0) == 1.0;
    assert Value(FREE_MEMORY.Printed()) == 72057594037927940.0;
    assert Value(ALL_MEMORY.Printed()) == 72057594037927937.0;
    forall d: Dimension
      ensures BothUsable(CROSSED_NODE, d) <==> d == Memory
    {
    }
    forall d: Dimension, free: bool
      ensures Total(nodes, d, free) == if d == Memory then Value(Half(CROSSED_NODE, d, free)) else 0.0
    {
      PartsStep(nodes, d, free);
    }
    CeilingIsHigh();
    assert Exceeds(nodes, Memory);
    assert forall d: Dimension :: !SignalsIn(nodes, d);
    AdapterRaisesExactly(nodes);
  }

  /** A capacity built from a status payload never contradicts its own node list. */
  lemma StatusNeverContradictsItself(nodes: seq<NodeReport>, profile: ResourceProfile)
    requires WellFormed(nodes) && FromStatus(nodes).Success? && FromStatus(nodes).value.nodes.Some?
    ensures var c := FromStatus(nodes).value;
            && c.nodes == Some(NodesOf(nodes))
            && !Fits.Contradicts(c, NodesOf(nodes), profile)
            && forall d: Dimension | c.available.At(d).Some? ::
                 c.available.At(d) == Some(Exact(Fits.NodeSum(NodesOf(nodes), d)))
  {
    hide Overflows, WellFormed, Overreported;
    PairsOf(nodes);
    NodesNonNegative(nodes);
    TotalsConstruct(ForEach(d => PairOf(nodes, d)), NodesOf(nodes));
    forall d: Dimension
      ensures Fits.NodeSum(NodesOf(nodes), d) == Total(nodes, d, true)
    {
      Sums(nodes, d);
    }
  }

  // ---- the accumulating loop ----

  datatype Tally = Tally(totals: seq<Decimal>, frees: seq<Decimal>, overreported: bool)

  function TallyOf(nodes: seq<NodeReport>, d: Dimension): Tally {
    Tally(Parts(nodes, d, false), Parts(nodes, d, true), Overreported(nodes, d))
  }

  lemma {:induction false} PartsAppend(nodes: seq<NodeReport>, n: NodeReport, d: Dimension, free: bool)
    ensures Parts(nodes + [n], d, free) == Parts(nodes, d, free) + Part(n, d, free)
  {
    hide Part;
    if nodes == [] {
      assert [] + [n] == [n];
      assert Part(n, d, free) + [] == Part(n, d, free) == [] + Part(n, d, free);
    } else {
      assert (nodes + [n])[1..] == nodes[1..] + [n] && (nodes + [n])[0] == nodes[0];
      PartsAppend(nodes[1..], n, d, free);
      assert Part(nodes[0], d, free) + (Parts(nodes[1..], d, free) + Part(n, d, free))
          == (Part(nodes[0], d, free) + Parts(nodes[1..], d, free)) + Part(n, d, free);
    }
  }

  lemma OverreportedAppend(nodes: seq<NodeReport>, n: NodeReport, d: Dimension)
    ensures Overreported(nodes + [n], d) <==> Overreported(nodes, d) || (BothUsable(n, d) && !Counted(n, d))
  {
    hide BothUsable, Counted;
    var all := nodes + [n];
    assert all[|nodes|] == n;
    if Overreported(nodes, d) {
      var i :| 0 <= i < |nodes| && BothUsable(nodes[i], d) && !Counted(nodes[i], d);
      assert BothUsable(all[i], d) && !Counted(all[i], d);
    }
  }

  lemma TallyAppend(nodes: seq<NodeReport>, n: NodeReport, d: Dimension)
    ensures TallyOf(nodes + [n], d) ==
      (if !BothUsable(n, d) then TallyOf(nodes, d)
       else if !Counted(n, d) then TallyOf(nodes, d).(overreported := true)
       else Tally(TallyOf(nodes, d).totals + [Half(n, d, false)], TallyOf(nodes, d).frees + [Half(n, d, true)],
                  TallyOf(nodes, d).overreported))
  {
    hide Overreported, Parts, Half;
    PartsAppend(nodes, n, d, true);
    PartsAppend(nodes, n, d, false);
    OverreportedAppend(nodes, n, d);
  }

  /** The node loop, one dimension's lists at a time, followed by the exact sums. */
  method SummarizeDimension(nodes: seq<NodeReport>, d: Dimension)
    returns (raised: bool, cells: seq<Option<Quantity>>, total: real, free: real, pair: Option<Pair>)
    ensures raised == SignalsIn(nodes, d)
    ensures !raised ==>
              && cells == seq(|nodes|, i requires 0 <= i < |nodes| => NodeCell(nodes[i], d))
              && total == Total(nodes, d, false) && free == Total(nodes, d, true) && pair == PairOf(nodes, d)
  {
    hide Overreported, Parts, Value;
    raised, cells, total, free, pair := false, [], 0.0, 0.0, None;
    var tally := Tally([], [], false);
    EmptyTally(d);
    for i := 0 to |nodes|
      invariant tally == TallyOf(nodes[..i], d)
      invariant forall k | 0 <= k < i :: !Signals(nodes[k], d)
      invariant |cells| == i && forall k | 0 <= k < i :: cells[k] == NodeCell(nodes[k], d)
    {
      assert nodes[..i + 1] == nodes[..i] + [nodes[i]];
      TallyAppend(nodes[..i], nodes[i], d);
      var n := nodes[i];
      if Signals(n, d) {
        raised := true;
        return;
      }
      var cell: Option<Quantity> := None;
      if BothUsable(n, d) {
        var all, left := n.allocatable.At(d).number, n.available.At(d).number;
        if left.Raw() > all.Raw() {
          tally := tally.(overreported := true);
        } else {
          tally := Tally(tally.totals + [all.Printed()], tally.frees + [left.Printed()], tally.overreported);
          cell := Some(Exact(Value(left.Printed())));
        }
      }
      cells := cells + [cell];
    }
    assert nodes[..|nodes|] == nodes;
    var exactTotal := ExactSum(tally.totals);
    var exactFree := ExactSum(tally.frees);
    total, free := Value(exactTotal), Value(exactFree);
    pair := if tally.overreported then None else Some(Pair(free, total));
  }

  lemma EmptyTally(d: Dimension)
    ensures TallyOf([], d) == Tally([], [], false)
  {
  }

  /** The adapter, on the node list of the payload; a failure is the exception it raises. */
  method FromProviderStatus(nodes: seq<NodeReport>) returns (c: Result<ProviderCapacity, CapacityError>)
    ensures c == FromStatus(nodes)
  {
    hide PairOf, Total, NodeCell, FromTotals;
    if forall i | 0 <= i < |nodes| :: nodes[i].Unreadable? {
      return Success(UNREADABLE);
    }
    hide SignalsIn;
    var cpuRaised, cpu, cpuTotal, cpuFree, cpuPair := SummarizeDimension(nodes, Cpu);
    var memoryRaised, memory, memoryTotal, memoryFree, memoryPair := SummarizeDimension(nodes, Memory);
    var storageRaised, storage, storageTotal, storageFree, storagePair := SummarizeDimension(nodes, Storage);
    var gpuRaised, gpu, gpuTotal, gpuFree, gpuPair := SummarizeDimension(nodes, Gpu);
    SignalsCases(nodes);
    if cpuRaised || memoryRaised || storageRaised || gpuRaised {
      return Failure(NotANumber);
    }
    OverflowsCases(nodes);
    if cpuTotal >= FLOAT_CEILING || cpuFree >= FLOAT_CEILING
       || memoryTotal >= FLOAT_CEILING || memoryFree >= FLOAT_CEILING
       || storageTotal >= FLOAT_CEILING || storageFree >= FLOAT_CEILING
       || gpuTotal >= FLOAT_CEILING || gpuFree >= FLOAT_CEILING {
      return Success(UNREADABLE);
    }
    var capacities := seq(|nodes|, i requires 0 <= i < |nodes| =>
      PerDimension(cpu[i], memory[i], storage[i], gpu[i]));
    assert capacities == NodesOf(nodes);
    c := FromTotals(PerDimension(cpuPair, memoryPair, storagePair, gpuPair), capacities);
  }

  lemma SignalsCases(nodes: seq<NodeReport>)
    ensures (exists d: Dimension :: SignalsIn(nodes, d))
       <==> SignalsIn(nodes, Cpu) || SignalsIn(nodes, Memory) || SignalsIn(nodes, Storage) || SignalsIn(nodes, Gpu)
  {
    hide SignalsIn;
    if d: Dimension :| SignalsIn(nodes, d) {
      match d
      case Cpu =>
      case Memory =>
      case Storage =>
      case Gpu =>
    }
  }

  lemma OverflowsCases(nodes: seq<NodeReport>)
    ensures Overflows(nodes) <==> OverflowsIn(nodes, Cpu) || OverflowsIn(nodes, Memory)
                                  || OverflowsIn(nodes, Storage) || OverflowsIn(nodes, Gpu)
  {
    hide OverflowsIn;
    if d: Dimension :| OverflowsIn(nodes, d) {
      match d
      case Cpu =>
      case Memory =>
      case Storage =>
      case Gpu =>
    }
  }
}
