/** The hover rule of the neural-network background: on a pointer move,
    the neuron nearest to the pointer within a capture radius of 16 becomes
    the active one. The pointer position is a percentage of the container
    and is not an integer, so it is a `real`; comparing `sqrt(d) < m` is
    modelled as comparing the squared distances, which agrees because both
    sides are non-negative. */
module NeuronHover {
  import opened Optional
  import opened NeuronGraph

  /** Squared capture radius (the radius is 16). */
  const CaptureRadiusSq: real := 256.0

  function PointerSqDist(px: real, py: real, n: Neuron): (d: real)
    ensures d >= 0.0
  {
    (px - n.x as real) * (px - n.x as real) + (py - n.y as real) * (py - n.y as real)
  }

  /** The hover handler's scan from neuron `k` on: `best` is the id chosen
      so far and `minSq` the squared distance it must beat, starting from
      the capture radius. A neuron replaces the choice only when strictly
      nearer, so ties keep the earlier neuron. */
  function Sweep(ns: seq<Neuron>, px: real, py: real, k: nat, best: Option<nat>, minSq: real): (r: Option<nat>)
    requires k <= |ns|
    ensures r.None? <==> best.None? && forall j :: k <= j < |ns| ==> PointerSqDist(px, py, ns[j]) >= minSq
    ensures r == best || exists j :: k <= j < |ns| && r == Some(ns[j].id) && PointerSqDist(px, py, ns[j]) < minSq
    decreases |ns| - k
  {
    if k == |ns| then best
    else
      var d := PointerSqDist(px, py, ns[k]);
      if d < minSq then Sweep(ns, px, py, k + 1, Some(ns[k].id), d)
      else Sweep(ns, px, py, k + 1, best, minSq)
  }

  /** The id of the neuron the pointer at (`px`, `py`) activates, or `None`. */
  function NearestNeuron(ns: seq<Neuron>, px: real, py: real): (r: Option<nat>)
    ensures r.None? <==> NoneInReach(ns, px, py)
    ensures r.Some? ==> exists j :: 0 <= j < |ns| && r == Some(ns[j].id) && PointerSqDist(px, py, ns[j]) < CaptureRadiusSq
  {
    Sweep(ns, px, py, 0, None, CaptureRadiusSq)
  }

  /** Reference definition of the neuron to pick: inside the capture
      radius, no farther than any neuron, and strictly nearer than every
      neuron before it. */
  predicate IsNearest(ns: seq<Neuron>, px: real, py: real, w: nat)
    requires w < |ns|
  {
    && PointerSqDist(px, py, ns[w]) < CaptureRadiusSq
    && (forall j :: 0 <= j < |ns| ==> PointerSqDist(px, py, ns[w]) <= PointerSqDist(px, py, ns[j]))
    && (forall j :: 0 <= j < w ==> PointerSqDist(px, py, ns[w]) < PointerSqDist(px, py, ns[j]))
  }

  /** No neuron lies inside the capture radius. */
  predicate NoneInReach(ns: seq<Neuron>, px: real, py: real)
  {
    forall j :: 0 <= j < |ns| ==> PointerSqDist(px, py, ns[j]) >= CaptureRadiusSq
  }

  /** The scan's invariant, with `w` the index of the current choice
      (`-1` while there is none). */
  predicate SweepInvariant(ns: seq<Neuron>, px: real, py: real, k: nat, best: Option<nat>, minSq: real, w: int)
    requires k <= |ns|
  {
    && (best.None? ==>
          && w == -1 && minSq == CaptureRadiusSq
          && forall j :: 0 <= j < k ==> PointerSqDist(px, py, ns[j]) >= CaptureRadiusSq)
    && (best.Some? ==>
          && 0 <= w < k && best.value == ns[w].id
          && minSq == PointerSqDist(px, py, ns[w]) && minSq < CaptureRadiusSq
          && (forall j :: 0 <= j < k ==> minSq <= PointerSqDist(px, py, ns[j]))
          && (forall j :: 0 <= j < w ==> minSq < PointerSqDist(px, py, ns[j])))
  }

  lemma {:induction false} SweepFindsNearest(ns: seq<Neuron>, px: real, py: real, k: nat, best: Option<nat>, minSq: real, w: int)
    requires k <= |ns|
    requires SweepInvariant(ns, px, py, k, best, minSq, w)
    ensures var r := Sweep(ns, px, py, k, best, minSq);
      && (r.None? <==> NoneInReach(ns, px, py))
      && (r.Some? ==> exists v :: 0 <= v < |ns| && ns[v].id == r.value && IsNearest(ns, px, py, v))
    decreases |ns| - k
  {
    var r := Sweep(ns, px, py, k, best, minSq);
    if k == |ns| {
      if best.Some? {
        assert IsNearest(ns, px, py, w);
        assert !NoneInReach(ns, px, py) by {
          assert PointerSqDist(px, py, ns[w]) < CaptureRadiusSq;
        }
      }
    } else {
      var d := PointerSqDist(px, py, ns[k]);
      if d < minSq {
        SweepFindsNearest(ns, px, py, k + 1, Some(ns[k].id), d, k);
      } else {
        SweepFindsNearest(ns, px, py, k + 1, best, minSq, w);
      }
    }
  }

  /** The hover rule picks nothing exactly when no neuron is within the
      capture radius, and otherwise the id of a nearest neuron, ties going
      to the lowest index. */
  lemma NearestNeuronSpec(ns: seq<Neuron>, px: real, py: real)
    ensures NearestNeuron(ns, px, py).None? <==> NoneInReach(ns, px, py)
    ensures var r := NearestNeuron(ns, px, py);
      r.Some? ==> exists v :: 0 <= v < |ns| && ns[v].id == r.value && IsNearest(ns, px, py, v)
  {
    SweepFindsNearest(ns, px, py, 0, None, CaptureRadiusSq, -1);
  }

  /** At most one neuron satisfies the reference definition. */
  lemma NearestIsUnique(ns: seq<Neuron>, px: real, py: real, v: nat, w: nat)
    requires v < |ns| && w < |ns|
    requires IsNearest(ns, px, py, v) && IsNearest(ns, px, py, w)
    ensures v == w
  {
  }

  /** On a generated net, where neuron `k` has id `k`, the chosen id is a
      valid index and names the nearest neuron; this is what lets the
      highlight rule index the neuron list with the active id. */
  lemma NearestOnGeneratedNet(countOverride: Option<int>, px: real, py: real)
    ensures var ns := Generate(countOverride);
      var r := NearestNeuron(ns, px, py);
      && (r.None? <==> NoneInReach(ns, px, py))
      && (r.Some? ==> r.value < |ns| && IsNearest(ns, px, py, r.value))
  {
    var ns := Generate(countOverride);
    GenerateSpec(countOverride);
    NearestNeuronSpec(ns, px, py);
  }
}
