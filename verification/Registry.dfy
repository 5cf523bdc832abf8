/** The layouts registered for one buffer. */
module Registries {
  import opened MachineInts
  import opened Nonlinear
  import opened MixedRadix
  import opened Axis
  import opened Pencil

  /** A topology object: its identity, its process grid, and the calling rank's coordinates. */
  datatype Topology = Topology(id: nat, grid: seq<nat>, coords: seq<nat>)

  /** A pencil: its topology and its distribution over the grid of the topology. */
  datatype Registered = Registered(topology: Topology, distribution: Distribution) {
    ghost predicate Valid() {
      distribution.Valid() && distribution.grid == topology.grid && InBounds(topology.grid, topology.coords)
    }

    predicate HasLayout() {
      && |topology.coords| == |distribution.grid| == |distribution.decomposition| && Positive(distribution.grid)
    }

    function Layout(): LocalLayout
      requires HasLayout()
    {
      distribution.LayoutAt(topology.coords)
    }

    /** The local length. */
    function Len(): nat {
      if HasLayout() then Layout().Len() else 0
    }

    predicate SameTopology(other: Registered) { topology == other.topology }

    predicate SameLayout(other: Registered) {
      && SameTopology(other) && distribution.shape == other.distribution.shape
      && distribution.decomposition == other.distribution.decomposition
      && distribution.permutation == other.distribution.permutation
    }
  }

  /** Pencils of one layout are one pencil: the topology fixes grid and coordinates, so their local layouts
      are the same. */
  lemma SameLayoutIsEqual(a: Registered, b: Registered)
    requires a.Valid() && b.Valid()
    ensures a.SameLayout(b) <==>
      && a.topology == b.topology && a.distribution.shape == b.distribution.shape
      && a.distribution.decomposition == b.distribution.decomposition
      && a.distribution.permutation == b.distribution.permutation
    ensures a.SameLayout(b) ==> a.distribution == b.distribution && a.Layout() == b.Layout()
  {
  }

  datatype LayoutState = Valid(index: nat) | Poisoned

  datatype ArrayError =
    | IncompatiblePencils
    | InvalidActiveLayout(index: int, layoutCount: int)
    | StorageLengthMismatch(required: nat, actual: nat)
    | PoisonedArray
    | SizeOverflow

  /** The registry a constructor accepts: not empty, an active index in range, one topology and one
      shape, and no layout twice. */
  predicate Registry(pencils: seq<Registered>, active: nat) {
    && pencils != [] && active < |pencils|
    && (forall i :: 0 <= i < |pencils| ==> Compatible(pencils[0], pencils[i]))
    && Distinct(pencils)
  }

  predicate Compatible(a: Registered, b: Registered) {
    a.SameTopology(b) && a.distribution.shape == b.distribution.shape
  }

  predicate Distinct(pencils: seq<Registered>) {
    forall i, j :: 0 <= i < j < |pencils| ==> !pencils[i].SameLayout(pencils[j])
  }

  /** The length of the largest layout. */
  ghost predicate IsLargest(pencils: seq<Registered>, largest: nat) {
    && (forall i :: 0 <= i < |pencils| ==> pencils[i].Len() <= largest)
    && (exists i :: 0 <= i < |pencils| && pencils[i].Len() == largest)
  }

  /** Accepts exactly the registries whose largest layout fits, and returns the storage length. */
  method ValidateRegistry(pencils: seq<Registered>, active: nat, extraCount: usize)
    returns (r: Result<usize, ArrayError>)
    ensures r.Ok? ==>
      && Registry(pencils, active)
      && exists largest :: IsLargest(pencils, largest) && r.value == Times(largest, extraCount)
    ensures r.Ok? || (r.Err? && r.error == SizeOverflow) <==>
      && pencils != [] && active < |pencils|
      && (forall i :: 0 <= i < |pencils| ==>
            pencils[i].topology == pencils[0].topology
            && pencils[i].distribution.shape == pencils[0].distribution.shape)
      && forall i, j :: 0 <= i < j < |pencils| ==>
           pencils[i].distribution.decomposition != pencils[j].distribution.decomposition
           || pencils[i].distribution.permutation != pencils[j].distribution.permutation
    ensures r.Err? && r.error == SizeOverflow ==>
      exists largest :: IsLargest(pencils, largest) && Times(largest, extraCount) > USIZE_MAX
    ensures r.Err? && r.error != SizeOverflow ==>
      r.error == if pencils != [] && active >= |pencils| then InvalidActiveLayout(active, |pencils|)
                 else IncompatiblePencils
  {
    hide Registered.Len;
    if pencils == [] {
      return Err(IncompatiblePencils);
    }
    if active >= |pencils| {
      return Err(InvalidActiveLayout(active, |pencils|));
    }
    for i := 1 to |pencils|
      invariant forall k :: 1 <= k < i ==> Compatible(pencils[0], pencils[k])
    {
      if !Compatible(pencils[0], pencils[i]) {
        return Err(IncompatiblePencils);
      }
    }
    var distinct := AreDistinct(pencils);
    if !distinct {
      return Err(IncompatiblePencils);
    }
    var longest := Longest(pencils);
    assert IsLargest(pencils, longest);
    var required := CheckedMul(longest, extraCount);
    if required.None? {
      return Err(SizeOverflow);
    }
    return Ok(required.value);
  }

  method AreDistinct(pencils: seq<Registered>) returns (distinct: bool)
    ensures distinct <==> Distinct(pencils)
  {
    hide Registered.SameLayout;
    for i := 0 to |pencils|
      invariant Distinct(pencils[..i])
    {
      for j := 0 to i
        invariant forall k :: 0 <= k < j ==> !pencils[k].SameLayout(pencils[i])
      {
        if pencils[j].SameLayout(pencils[i]) {
          return false;
        }
      }
    }
    assert pencils[..|pencils|] == pencils;
    return true;
  }

  method Longest(pencils: seq<Registered>) returns (longest: nat)
    requires pencils != []
    ensures IsLargest(pencils, longest)
  {
    hide Registered.Len;
    longest := pencils[0].Len();
    for i := 1 to |pencils|
      invariant forall k :: 0 <= k < i ==> pencils[k].Len() <= longest
      invariant exists k :: 0 <= k < i && pencils[k].Len() == longest
    {
      longest := Max(longest, pencils[i].Len());
    }
  }

  /** The storage a layout uses, for every extra group. */
  function UsedLen(pencils: seq<Registered>, extraCount: nat, index: nat): nat
    requires index < |pencils|
  {
    Times(extraCount, pencils[index].Len())
  }

  ghost predicate AllValid(pencils: seq<Registered>) {
    forall i :: 0 <= i < |pencils| ==> pencils[i].Valid()
  }

  ghost function LayoutOf(pencils: seq<Registered>, index: nat): LocalLayout
    requires AllValid(pencils) && index < |pencils|
  {
    pencils[index].Layout()
  }

  lemma LayoutOfIsValid(pencils: seq<Registered>, extraCount: nat, index: nat)
    requires AllValid(pencils) && index < |pencils|
    ensures LayoutOf(pencils, index).Valid()
      && UsedLen(pencils, extraCount, index) == Times(extraCount, LayoutOf(pencils, index).Len())
  {
    LayoutValid(pencils[index].distribution, pencils[index].topology.coords);
  }
}
