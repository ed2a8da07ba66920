/** The deterministic neuron-graph generator of the neural-network
    background (`generateNeurons`): neurons on a staggered 8-column grid
    with integer jitter, an intensity class per index, and links to at
    most the first two neighbours closer than 20 units. Coordinates are
    percentages of the container and all of them are integers, so the
    `sqrt(dx² + dy²) < 20` test is modelled as `dx² + dy² < 400`. */
module NeuronGraph {
  import opened Optional

  /** Brightness class of a neuron. */
  datatype Intensity = Bright | Normal | Dim

  /** A generated neuron. The float `pulseDelay` is not modelled. */
  datatype Neuron = Neuron(id: nat, x: int, y: int, connections: seq<nat>, intensity: Intensity)

  const GridSize: nat := 8
  const Spread: nat := 12
  const DefaultCount: nat := 25
  /** Neuron count the component asks for on coarse pointers or with reduced motion. */
  const ReducedCount: nat := 16
  /** Squared link radius (the radius is 20). */
  const LinkRadiusSq: int := 400
  const MaxLinks: nat := 2

  // ---------------------------------------------------------------------
  // Placement

  function Column(i: nat): nat { i % GridSize }

  function Row(i: nat): nat { i / GridSize }

  /** Horizontal jitter `((13 i) mod 7) − 3`. */
  function JitterX(i: nat): (d: int)
    ensures -3 <= d <= 3
  {
    (i * 13) % 7 - 3
  }

  /** Vertical jitter `((17 i) mod 5) − 2`. */
  function JitterY(i: nat): (d: int)
    ensures -2 <= d <= 2
  {
    (i * 17) % 5 - 2
  }

  /** Odd rows are shifted right by half a spread. */
  function RowShift(i: nat): nat { (Row(i) % 2) * (Spread / 2) }

  function PlaceX(i: nat): (x: int)
    ensures 15 + Column(i) * Spread + RowShift(i) - 3 <= x <= 15 + Column(i) * Spread + RowShift(i) + 3
  {
    15 + Column(i) * Spread + RowShift(i) + JitterX(i)
  }

  function PlaceY(i: nat): (y: int)
    ensures 20 + Row(i) * Spread - 2 <= y <= 20 + Row(i) * Spread + 2
  {
    20 + Row(i) * Spread + JitterY(i)
  }

  /** Intensity by index: 3, 12 and 18 are bright (taking precedence over
      the every-fourth rule), other multiples of four are normal, the
      rest dim. */
  function IntensityOf(i: nat): (c: Intensity)
    ensures c == Bright <==> i in {3, 12, 18}
    ensures c == Normal <==> i % 4 == 0 && i !in {3, 12, 18}
    ensures c == Dim <==> i % 4 != 0 && i !in {3, 12, 18}
  {
    if i == 3 || i == 12 || i == 18 then Bright
    else if i % 4 == 0 then Normal
    else Dim
  }

  /** Neuron `i` as the first loop creates it, before linking. */
  function Place(i: nat): Neuron
  {
    Neuron(i, PlaceX(i), PlaceY(i), [], IntensityOf(i))
  }

  /** The number of neurons produced: the override when one is given,
      25 otherwise; a negative count runs the loop zero times. */
  function Count(countOverride: Option<int>): (n: nat)
    ensures countOverride.None? ==> n == DefaultCount
    ensures countOverride.Some? && countOverride.value >= 0 ==> n == countOverride.value
    ensures countOverride.Some? && countOverride.value < 0 ==> n == 0
  {
    var total := countOverride.GetOr(DefaultCount);
    if total < 0 then 0 else total
  }

  /** The count the component passes: 16 on a coarse pointer or with
      reduced motion, the default otherwise. */
  function CountFor(coarsePointer: bool, reducedMotion: bool): Option<int>
  {
    Some(if coarsePointer || reducedMotion then ReducedCount as int else DefaultCount as int)
  }

  // ---------------------------------------------------------------------
  // Linking

  function SqDist(a: Neuron, b: Neuron): (d: int)
    ensures d >= 0
  {
    (a.x - b.x) * (a.x - b.x) + (a.y - b.y) * (a.y - b.y)
  }

  /** Distance depends on the coordinates only. */
  lemma SqDistIgnoresLinks(a: Neuron, b: Neuron)
    ensures SqDist(a, b) == SqDist(a.(connections := []), b.(connections := []))
  {
  }

  /** Neuron `j` is a candidate link target of neuron `i`: another neuron
      strictly inside the link radius. */
  predicate Near(ns: seq<Neuron>, i: nat, j: nat)
    requires i < |ns| && j < |ns|
  {
    i != j && SqDist(ns[i], ns[j]) < LinkRadiusSq
  }

  /** The inner scan of the linking pass: visits targets `j, j+1, …` in
      index order and appends a near one while fewer than two are held. */
  function Scan(ns: seq<Neuron>, i: nat, j: nat, acc: seq<nat>): seq<nat>
    requires i < |ns| && j <= |ns|
    decreases |ns| - j
  {
    if j == |ns| then acc
    else if Near(ns, i, j) && |acc| < MaxLinks then Scan(ns, i, j + 1, acc + [j])
    else Scan(ns, i, j + 1, acc)
  }

  /** The connection list of neuron `i`: at most two near targets, in
      ascending order, and no near target before the second is skipped. */
  function Links(ns: seq<Neuron>, i: nat): (r: seq<nat>)
    requires i < |ns|
    ensures LinksOk(ns, i, r)
  {
    ScanTakesFirstTwo(ns, i, 0, []);
    assert [] + NearFrom(ns, i, 0) == NearFrom(ns, i, 0);
    NearFromFacts(ns, i, 0);
    FirstTwoOk(ns, i, NearFrom(ns, i, 0));
    Scan(ns, i, 0, [])
  }

  /** Reference definition: every near target of `i` from index `j` on, in
      index order. */
  function NearFrom(ns: seq<Neuron>, i: nat, j: nat): seq<nat>
    requires i < |ns| && j <= |ns|
    decreases |ns| - j
  {
    if j == |ns| then []
    else if Near(ns, i, j) then [j] + NearFrom(ns, i, j + 1)
    else NearFrom(ns, i, j + 1)
  }

  /** The first two elements of `s` (all of it when shorter). */
  function FirstTwo(s: seq<nat>): seq<nat>
  {
    if |s| <= MaxLinks then s else s[..MaxLinks]
  }

  /** The first loop of the generator: neurons `0 … n-1`, unlinked. */
  function Placement(n: nat): (ns: seq<Neuron>)
    ensures |ns| == n
  {
    seq(n, i requires 0 <= i < n => Place(i))
  }

  /** The generator: placement of `Count(countOverride)` neurons, then the
      linking pass over the placed coordinates. */
  function Generate(countOverride: Option<int>): (ns: seq<Neuron>)
    ensures |ns| == Count(countOverride)
    ensures Placed(ns)
    ensures LinksInRange(ns)
    ensures forall k :: 0 <= k < |ns| ==> |ns[k].connections| <= MaxLinks
  {
    var n := Count(countOverride);
    var placed := Placement(n);
    seq(n, i requires 0 <= i < n => placed[i].(connections := Links(placed, i)))
  }

  // ---------------------------------------------------------------------
  // Properties

  /** A strictly increasing sequence. */
  predicate Ascending(s: seq<nat>)
  {
    forall a, b :: 0 <= a < b < |s| ==> s[a] < s[b]
  }

  /** The connection list `links` of neuron `i`: at most two entries, all
      of them near targets in ascending order, and they are the FIRST near
      targets — any near target left out comes after both entries. */
  predicate LinksOk(ns: seq<Neuron>, i: nat, links: seq<nat>)
    requires i < |ns|
  {
    && |links| <= MaxLinks
    && Ascending(links)
    && (forall k :: 0 <= k < |links| ==> links[k] < |ns| && links[k] != i && Near(ns, i, links[k]))
    && (forall j :: 0 <= j < |ns| && Near(ns, i, j) && j !in links ==> |links| == MaxLinks && links[1] < j)
  }

  lemma {:induction false} NearFromFacts(ns: seq<Neuron>, i: nat, j: nat)
    requires i < |ns| && j <= |ns|
    ensures Ascending(NearFrom(ns, i, j))
    ensures forall k :: 0 <= k < |NearFrom(ns, i, j)| ==>
              j <= NearFrom(ns, i, j)[k] < |ns| && Near(ns, i, NearFrom(ns, i, j)[k])
    ensures forall t :: j <= t < |ns| && Near(ns, i, t) ==> t in NearFrom(ns, i, j)
    decreases |ns| - j
  {
    if j < |ns| {
      NearFromFacts(ns, i, j + 1);
      var rest := NearFrom(ns, i, j + 1);
      if Near(ns, i, j) {
        var all := [j] + rest;
        assert NearFrom(ns, i, j) == all;
        assert forall k :: 1 <= k < |all| ==> all[k] == rest[k - 1];
      } else {
        assert NearFrom(ns, i, j) == rest;
      }
    }
  }

  /** A full list absorbs whatever would be appended to it. */
  lemma FirstTwoOfFull(acc: seq<nat>, rest: seq<nat>)
    requires |acc| == MaxLinks
    ensures FirstTwo(acc + rest) == acc
  {
    assert (acc + rest)[..MaxLinks] == acc;
  }

  /** The scan computes the first two near targets. */
  lemma {:induction false} ScanTakesFirstTwo(ns: seq<Neuron>, i: nat, j: nat, acc: seq<nat>)
    requires i < |ns| && j <= |ns| && |acc| <= MaxLinks
    ensures Scan(ns, i, j, acc) == FirstTwo(acc + NearFrom(ns, i, j))
    decreases |ns| - j
  {
    if j == |ns| {
      assert acc + [] == acc;
    } else {
      var rest := NearFrom(ns, i, j + 1);
      if Near(ns, i, j) {
        assert NearFrom(ns, i, j) == [j] + rest;
        if |acc| < MaxLinks {
          ScanTakesFirstTwo(ns, i, j + 1, acc + [j]);
          assert (acc + [j]) + rest == acc + ([j] + rest);
        } else {
          ScanTakesFirstTwo(ns, i, j + 1, acc);
          FirstTwoOfFull(acc, rest);
          FirstTwoOfFull(acc, [j] + rest);
        }
      } else {
        ScanTakesFirstTwo(ns, i, j + 1, acc);
      }
    }
  }

  /** The first two of an ascending list of near targets satisfy
      `LinksOk` when the list holds every near target. */
  lemma FirstTwoOk(ns: seq<Neuron>, i: nat, all: seq<nat>)
    requires i < |ns| && Ascending(all)
    requires forall k :: 0 <= k < |all| ==> all[k] < |ns| && Near(ns, i, all[k])
    requires forall t :: 0 <= t < |ns| && Near(ns, i, t) ==> t in all
    ensures LinksOk(ns, i, FirstTwo(all))
  {
    var links := FirstTwo(all);
    assert forall k :: 0 <= k < |links| ==> links[k] == all[k];
    forall t | 0 <= t < |ns| && Near(ns, i, t) && t !in links
      ensures |links| == MaxLinks && links[1] < t
    {
      var p :| 0 <= p < |all| && all[p] == t;
      assert p >= |links|;
      assert |all| > MaxLinks;
      assert all[1] < all[p];
    }
  }

  /** The connection list of every neuron is its first two near targets,
      with all the properties of `LinksOk`. */
  lemma LinksAreFirstTwoNear(ns: seq<Neuron>, i: nat)
    requires i < |ns|
    ensures Links(ns, i) == FirstTwo(NearFrom(ns, i, 0))
    ensures LinksOk(ns, i, Links(ns, i))
  {
    ScanTakesFirstTwo(ns, i, 0, []);
    assert [] + NearFrom(ns, i, 0) == NearFrom(ns, i, 0);
  }

  /** A placed neuron sits at its index; the generator's output differs
      from the placement only in the connection lists. */
  predicate Placed(ns: seq<Neuron>)
  {
    forall k :: 0 <= k < |ns| ==> ns[k].(connections := []) == Place(k)
  }

  /** Every connection names a neuron of the list. */
  predicate LinksInRange(ns: seq<Neuron>)
  {
    forall k, j :: 0 <= k < |ns| && 0 <= j < |ns[k].connections| ==> ns[k].connections[j] < |ns|
  }

  /** Two neuron lists at the same coordinates have the same near
      relation, so `LinksOk` carries over from one to the other. */
  lemma LinksOkSameCoordinates(a: seq<Neuron>, b: seq<Neuron>, i: nat, links: seq<nat>)
    requires |a| == |b| && i < |a|
    requires forall k :: 0 <= k < |a| ==> a[k].x == b[k].x && a[k].y == b[k].y
    requires LinksOk(a, i, links)
    ensures LinksOk(b, i, links)
  {
    assert forall t :: 0 <= t < |a| ==> (Near(a, i, t) <==> Near(b, i, t)) by {
      forall t | 0 <= t < |a|
        ensures Near(a, i, t) <==> Near(b, i, t)
      {
        assert SqDist(a[i], a[t]) == SqDist(b[i], b[t]);
      }
    }
  }

  /** What the generator promises of neuron `k`: it has id `k`, sits at
      the jittered grid position of `k`, has the intensity of `k`, and its
      connection list is its first two near targets. */
  lemma GeneratedAt(countOverride: Option<int>, k: nat)
    requires k < Count(countOverride)
    ensures var ns := Generate(countOverride);
      && ns[k].(connections := []) == Place(k)
      && LinksOk(ns, k, ns[k].connections)
  {
    var ns := Generate(countOverride);
    var n := Count(countOverride);
    var placed := Placement(n);
    assert ns[k] == placed[k].(connections := Links(placed, k));
    assert forall t :: 0 <= t < n ==> ns[t].x == placed[t].x && ns[t].y == placed[t].y;
    LinksAreFirstTwoNear(placed, k);
    LinksOkSameCoordinates(placed, ns, k, Links(placed, k));
  }

  /** The generator's promise for the whole list: `n` neurons, each as
      `GeneratedAt` describes. */
  lemma GenerateSpec(countOverride: Option<int>)
    ensures var ns := Generate(countOverride);
      && |ns| == Count(countOverride)
      && Placed(ns)
      && (forall k :: 0 <= k < |ns| ==> ns[k].id == k && ns[k].intensity == IntensityOf(k))
      && (forall k :: 0 <= k < |ns| ==> LinksOk(ns, k, ns[k].connections))
  {
    forall k | 0 <= k < Count(countOverride)
      ensures var ns := Generate(countOverride);
        ns[k].(connections := []) == Place(k) && LinksOk(ns, k, ns[k].connections)
    {
      GeneratedAt(countOverride, k);
    }
  }

  // ---------------------------------------------------------------------
  // Geometry of the placement

  /** No two neurons share a position: within a row the columns are 12
      apart and the jitter moves each by at most 3; across rows the rows
      are 12 apart and the jitter moves each by at most 2. */
  lemma PositionsDistinct(i: nat, j: nat)
    requires i != j
    ensures PlaceX(i) != PlaceX(j) || PlaceY(i) != PlaceY(j)
  {
    assert i == Row(i) * GridSize + Column(i) && j == Row(j) * GridSize + Column(j);
    if Row(i) == Row(j) {
      assert Column(i) != Column(j);
      assert RowShift(i) == RowShift(j);
    }
  }

  lemma SquareBound(a: int, b: int)
    requires -b <= a <= b
    ensures a * a <= b * b
  {
    if a >= 0 {
      assert a * a <= a * b <= b * b;
    } else {
      assert a * a == (-a) * (-a);
      assert (-a) * (-a) <= (-a) * b <= b * b;
    }
  }

  /** Horizontally adjacent neurons of one row are always near each other:
      they are 6 to 18 apart horizontally and at most 4 vertically. */
  lemma RowNeighboursNear(i: nat)
    requires Column(i) < GridSize - 1
    ensures SqDist(Place(i), Place(i + 1)) < LinkRadiusSq
    ensures SqDist(Place(i + 1), Place(i)) < LinkRadiusSq
  {
    assert Row(i + 1) == Row(i) && Column(i + 1) == Column(i) + 1;
    var dx := PlaceX(i) - PlaceX(i + 1);
    var dy := PlaceY(i) - PlaceY(i + 1);
    assert -18 <= dx <= -6 && -4 <= dy <= 4;
    SquareBound(dx, 18);
    SquareBound(dy, 4);
  }

  /** The neuron before `k` in a row shares the row and sits one column
      to the left. */
  lemma ColumnBefore(k: nat)
    requires Column(k) != 0
    ensures k >= 1 && Column(k - 1) == Column(k) - 1 && Column(k - 1) < GridSize - 1
  {
    assert k == Row(k) * GridSize + Column(k);
    assert k - 1 == Row(k) * GridSize + (Column(k) - 1);
  }

  /** Every generated neuron has at least one connection, except possibly
      the last one when it opens a row of its own. */
  lemma OnlyLoneRowStartMayBeUnlinked(countOverride: Option<int>, k: nat)
    requires k < Count(countOverride)
    requires Column(k) != 0 || k + 1 < Count(countOverride)
    ensures |Generate(countOverride)[k].connections| >= 1
  {
    var ns := Generate(countOverride);
    var t: nat;
    if Column(k) != 0 {
      ColumnBefore(k);
      t := k - 1;
      RowNeighboursNear(t);
    } else {
      t := k + 1;
      RowNeighboursNear(k);
    }
    GeneratedAt(countOverride, k);
    GeneratedAt(countOverride, t);
    SqDistIgnoresLinks(ns[k], ns[t]);
    assert Near(ns, k, t);
  }

  /** Neuron 24 sits at (22, 57) and neuron 16 at (17, 44). */
  lemma Neuron24NearNeuron16()
    ensures SqDist(Place(24), Place(16)) < LinkRadiusSq
  {
    assert PlaceX(24) == 22 && PlaceY(24) == 57;
    assert PlaceX(16) == 17 && PlaceY(16) == 44;
  }

  /** In both nets the component builds (25 and 16 neurons) every neuron
      has a connection: neuron 24 of the full net opens a row alone but is
      near neuron 16. */
  lemma ComponentNetsFullyLinked(coarsePointer: bool, reducedMotion: bool, k: nat)
    requires k < Count(CountFor(coarsePointer, reducedMotion))
    ensures |Generate(CountFor(coarsePointer, reducedMotion))[k].connections| >= 1
  {
    var c := CountFor(coarsePointer, reducedMotion);
    var n := Count(c);
    assert n == 25 || n == 16;
    if k == 24 && n == 25 {
      var ns := Generate(c);
      GeneratedAt(c, 24);
      GeneratedAt(c, 16);
      Neuron24NearNeuron16();
      SqDistIgnoresLinks(ns[24], ns[16]);
      assert Near(ns, 24, 16);
    } else {
      assert Column(k) != 0 || k + 1 < n;
      OnlyLoneRowStartMayBeUnlinked(c, k);
    }
  }
}
