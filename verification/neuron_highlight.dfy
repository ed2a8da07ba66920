/** How the neural-network background emphasises the active neuron: the
    lines touching it brighten, it and the neurons it links to grow, and
    each neuron's opacity comes from a table by intensity, active state and
    layer (outer glow or inner fill). */
module NeuronHighlight {
  import opened Optional
  import opened NeuronGraph

  const ActiveScale: real := 1.35
  const LinkedScale: real := 1.15
  const RestScale: real := 1.0

  /** Opacity of the line `from → to`: bright when either end is active. */
  function ConnectionOpacity(active: Option<nat>, from: nat, to: nat): (o: real)
    ensures o == 0.75 <==> active == Some(from) || active == Some(to)
    ensures o == 0.15 <==> !(active == Some(from) || active == Some(to))
  {
    if active == Some(from) || active == Some(to) then 0.75 else 0.15
  }

  /** Scale of neuron `id`: largest when active, enlarged when the active
      neuron links to it, else 1. An active id outside the list enlarges
      nothing (the optional chaining in the source). */
  function NeuronScale(ns: seq<Neuron>, active: Option<nat>, id: nat): (s: real)
    ensures s == ActiveScale <==> active == Some(id)
    ensures s == LinkedScale <==>
              active != Some(id) && active.Some? && active.value < |ns| && id in ns[active.value].connections
    ensures s == RestScale <==>
              active != Some(id) && !(active.Some? && active.value < |ns| && id in ns[active.value].connections)
  {
    if active == Some(id) then ActiveScale
    else if active.Some? && active.value < |ns| && id in ns[active.value].connections then LinkedScale
    else RestScale
  }

  /** The opacity table for a neuron at rest. */
  function BaseOpacity(i: Intensity, glow: bool): real
  {
    match i
    case Bright => if glow then 0.25 else 0.85
    case Normal => if glow then 0.12 else 0.55
    case Dim => if glow then 0.06 else 0.35
  }

  /** The opacity table for the active neuron. */
  function ActiveOpacity(i: Intensity, glow: bool): real
  {
    match i
    case Bright => if glow then 0.45 else 0.95
    case Normal => if glow then 0.28 else 0.82
    case Dim => if glow then 0.15 else 0.65
  }

  function NeuronOpacity(n: Neuron, isActive: bool, isGlow: bool): (o: real)
    ensures 0.0 < o < 1.0
    ensures isActive ==> o > BaseOpacity(n.intensity, isGlow)
    ensures !isActive ==> o < ActiveOpacity(n.intensity, isGlow)
  {
    if isActive then ActiveOpacity(n.intensity, isGlow) else BaseOpacity(n.intensity, isGlow)
  }

  /** The keyframes of a neuron's idle opacity animation, written out as
      their own table in the component. */
  function AnimationValues(i: Intensity): (r: seq<real>)
    ensures r == [BaseOpacity(i, false), ActiveOpacity(i, false), BaseOpacity(i, false)]
  {
    match i
    case Bright => [0.85, 0.95, 0.85]
    case Normal => [0.55, 0.82, 0.55]
    case Dim => [0.35, 0.65, 0.35]
  }

  /** Activation raises the opacity for every intensity and layer, and both
      tables order the intensities bright > normal > dim and the layers
      fill > glow. */
  lemma OpacityTablesOrdered(glow: bool)
    ensures forall i :: ActiveOpacity(i, glow) > BaseOpacity(i, glow)
    ensures BaseOpacity(Bright, glow) > BaseOpacity(Normal, glow) > BaseOpacity(Dim, glow)
    ensures ActiveOpacity(Bright, glow) > ActiveOpacity(Normal, glow) > ActiveOpacity(Dim, glow)
    ensures forall i :: BaseOpacity(i, true) < BaseOpacity(i, false) && ActiveOpacity(i, true) < ActiveOpacity(i, false)
  {
  }

  /** The neurons drawn larger than at rest. */
  function Enlarged(ns: seq<Neuron>, active: Option<nat>): set<nat>
  {
    set k: nat | k < |ns| && NeuronScale(ns, active, k) > RestScale
  }

  lemma ElementsOfShortSeq(c: seq<nat>)
    requires |c| <= MaxLinks
    ensures |set x | x in c| <= MaxLinks
  {
    if |c| == 0 {
      assert (set x | x in c) == {};
    } else if |c| == 1 {
      assert (set x | x in c) == {c[0]};
    } else {
      assert (set x | x in c) == {c[0], c[1]};
    }
  }

  /** On a generated net at most three neurons are enlarged at once: the
      active one and the at most two it links to; with no active neuron,
      none. */
  lemma AtMostThreeEnlarged(countOverride: Option<int>, active: Option<nat>)
    ensures |Enlarged(Generate(countOverride), active)| <= 1 + MaxLinks
    ensures active.None? ==> Enlarged(Generate(countOverride), active) == {}
  {
    var ns := Generate(countOverride);
    if active.Some? {
      var a := active.value;
      var links: seq<nat> := if a < |ns| then ns[a].connections else [];
      if a < |ns| {
        GeneratedAt(countOverride, a);
      }
      var linked := set x | x in links;
      assert Enlarged(ns, active) <= {a} + linked;
      ElementsOfShortSeq(links);
      assert |{a} + linked| <= 1 + |linked|;
      SubsetCard(Enlarged(ns, active), {a} + linked);
    } else {
      assert forall k: nat :: k < |ns| ==> NeuronScale(ns, active, k) == RestScale;
    }
  }

  lemma SubsetCard<T>(a: set<T>, b: set<T>)
    requires a <= b
    ensures |a| <= |b|
  {
    assert b == a + (b - a);
  }

  /** The two highlight rules agree along a link of the active neuron: the
      line is bright and its target is drawn enlarged. */
  lemma ActiveLinkHighlighted(ns: seq<Neuron>, k: nat, t: nat)
    requires k < |ns| && t in ns[k].connections && t != k
    ensures ConnectionOpacity(Some(k), k, t) == 0.75
    ensures NeuronScale(ns, Some(k), k) == ActiveScale
    ensures NeuronScale(ns, Some(k), t) == LinkedScale
  {
  }
}
