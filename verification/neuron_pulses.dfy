/** Pulses travelling along the connections of the neural-network
    background: one animation frame may spawn a pulse (throttled by an
    interval and capped in number) and then advances every pulse, dropping
    the ones that have arrived. The frame scheduler, the clock and
    `Math.random` are parameters: `now` is the millisecond clock reading
    and the two random draws are reals in [0, 1). */
module NeuronPulses {
  import opened Optional
  import opened NeuronGraph

  /** Travel time of a pulse in milliseconds. */
  const Lifetime: int := 1100

  /** The React key `from-to-startTime` of a pulse, kept as its three parts. */
  datatype PulseId = PulseId(from: nat, to: nat, time: int)

  datatype Pulse = Pulse(id: PulseId, from: nat, to: nat, progress: real, startTime: int)

  /** Spawn throttling: minimum gap between spawn attempts and the cap on
      the number of live pulses. */
  datatype Throttle = Throttle(interval: int, cap: nat)

  /** The animation loop's own state: the time of the last spawn attempt
      and the live pulses. */
  datatype Loop = Loop(lastSpawn: int, pulses: seq<Pulse>)

  /** One frame's inputs: the clock and the two random draws. */
  datatype FrameInput = FrameInput(now: int, pickNeuron: real, pickLink: real)

  /** Slower firing and fewer pulses on a coarse pointer. */
  function ThrottleFor(coarsePointer: bool): (t: Throttle)
    ensures coarsePointer ==> t.interval == 1600 && t.cap == 4
    ensures !coarsePointer ==> t.interval == 1200 && t.cap == 6
  {
    if coarsePointer then Throttle(1600, 4) else Throttle(1200, 6)
  }

  /** A value `Math.random` can return. */
  predicate IsDraw(r: real)
  {
    0.0 <= r < 1.0
  }

  predicate ValidInput(f: FrameInput)
  {
    IsDraw(f.pickNeuron) && IsDraw(f.pickLink)
  }

  lemma DrawScales(r: real, len: nat)
    requires IsDraw(r) && len > 0
    ensures 0.0 <= r * len as real < len as real
  {
  }

  /** `Math.floor(r * len)`: a uniform index into a list of length `len`. */
  function Pick(r: real, len: nat): (k: nat)
    requires IsDraw(r) && len > 0
    ensures k < len
  {
    DrawScales(r, len);
    (r * len as real).Floor
  }

  // ---------------------------------------------------------------------
  // Spawning

  /** The throttle lets this frame try to spawn. */
  predicate Due(cfg: Throttle, s: Loop, now: int)
  {
    now - s.lastSpawn > cfg.interval && |s.pulses| < cfg.cap
  }

  /** The spawn half of a frame: when due, record the attempt and, if the
      randomly drawn neuron has connections, append a pulse from it to a
      randomly drawn one of them. */
  function Spawn(cfg: Throttle, ns: seq<Neuron>, s: Loop, now: int, r1: real, r2: real): (s': Loop)
    requires |ns| > 0 && IsDraw(r1) && IsDraw(r2)
    ensures !Due(cfg, s, now) ==> s' == s
    ensures Due(cfg, s, now) ==> s'.lastSpawn == now
    ensures |s.pulses| <= |s'.pulses| <= |s.pulses| + 1 && s'.pulses[..|s.pulses|] == s.pulses
    ensures |s'.pulses| > |s.pulses| ==>
              var src := ns[Pick(r1, |ns|)];
              var p := s'.pulses[|s.pulses|];
              && Due(cfg, s, now)
              && p.from == src.id && p.to in src.connections
              && p.id == PulseId(p.from, p.to, now) && p.progress == 0.0 && p.startTime == now
    ensures Due(cfg, s, now) && |ns[Pick(r1, |ns|)].connections| == 0 ==> s'.pulses == s.pulses
    ensures Due(cfg, s, now) && |ns[Pick(r1, |ns|)].connections| > 0 ==> |s'.pulses| == |s.pulses| + 1
  {
    if Due(cfg, s, now) then
      var src := ns[Pick(r1, |ns|)];
      if |src.connections| > 0 then
        var target := src.connections[Pick(r2, |src.connections|)];
        Loop(now, s.pulses + [Pulse(PulseId(src.id, target, now), src.id, target, 0.0, now)])
      else
        Loop(now, s.pulses)
    else
      s
  }

  // ---------------------------------------------------------------------
  // Advancing

  /** `min((now − start) / 1100, 1)`. */
  function Progress(now: int, startTime: int): real
  {
    var t := (now - startTime) as real / Lifetime as real;
    if t < 1.0 then t else 1.0
  }

  function Tick(now: int, p: Pulse): Pulse
  {
    p.(progress := Progress(now, p.startTime))
  }

  /** The `map` step: every pulse with its progress recomputed. */
  function Ticked(now: int, ps: seq<Pulse>): (r: seq<Pulse>)
    ensures |r| == |ps|
  {
    seq(|ps|, k requires 0 <= k < |ps| => Tick(now, ps[k]))
  }

  /** The `filter` step: the pulses still under way, and all of them. */
  function Unfinished(ps: seq<Pulse>): (r: seq<Pulse>)
    ensures |r| <= |ps|
    ensures forall q :: q in r <==> q in ps && q.progress < 1.0
  {
    if ps == [] then []
    else (if ps[0].progress < 1.0 then [ps[0]] else []) + Unfinished(ps[1..])
  }

  /** The update half of a frame: map, then filter. No pulse is added,
      and every survivor is still under way. */
  function Advance(now: int, ps: seq<Pulse>): (r: seq<Pulse>)
    ensures |r| <= |ps|
    ensures forall q :: q in r ==> q.progress < 1.0
  {
    Unfinished(Ticked(now, ps))
  }

  /** A pulse is still travelling at `now`. */
  predicate Live(now: int, p: Pulse)
  {
    now - p.startTime < Lifetime
  }

  /** Reference definition of the update: keep the live pulses, in order,
      with their progress brought up to `now`. */
  function LiveTicked(now: int, ps: seq<Pulse>): seq<Pulse>
  {
    if ps == [] then []
    else (if Live(now, ps[0]) then [Tick(now, ps[0])] else []) + LiveTicked(now, ps[1..])
  }

  /** The capped progress is below one exactly for a live pulse, and it is
      never negative once the pulse has started. */
  lemma ProgressFacts(now: int, startTime: int)
    ensures Progress(now, startTime) < 1.0 <==> now - startTime < Lifetime
    ensures startTime <= now ==> 0.0 <= Progress(now, startTime) <= 1.0
  {
  }

  lemma {:induction false} AdvanceIsLiveTicked(now: int, ps: seq<Pulse>)
    ensures Advance(now, ps) == LiveTicked(now, ps)
  {
    if ps != [] {
      AdvanceIsLiveTicked(now, ps[1..]);
      var t := Ticked(now, ps);
      assert t[0] == Tick(now, ps[0]);
      assert t[1..] == Ticked(now, ps[1..]);
      ProgressFacts(now, ps[0].startTime);
    }
  }

  lemma {:induction false} LiveTickedFacts(now: int, ps: seq<Pulse>)
    ensures |LiveTicked(now, ps)| <= |ps|
    ensures forall q :: q in LiveTicked(now, ps) <==> exists p :: p in ps && Live(now, p) && q == Tick(now, p)
  {
    if ps != [] {
      LiveTickedFacts(now, ps[1..]);
      assert ps == [ps[0]] + ps[1..];
      forall q | q in LiveTicked(now, ps)
        ensures exists p :: p in ps && Live(now, p) && q == Tick(now, p)
      {
        if !(Live(now, ps[0]) && q == Tick(now, ps[0])) {
          assert q in LiveTicked(now, ps[1..]);
        }
      }
    }
  }

  /** The update keeps exactly the live pulses, each with its identity,
      endpoints and start time unchanged and its progress in [0, 1) when it
      has started, and never adds a pulse. */
  lemma AdvanceSpec(now: int, ps: seq<Pulse>)
    ensures |Advance(now, ps)| <= |ps|
    ensures forall q :: q in Advance(now, ps) <==> exists p :: p in ps && Live(now, p) && q == Tick(now, p)
    ensures forall q :: q in Advance(now, ps) ==>
              q.progress < 1.0 && (q.startTime <= now ==> 0.0 <= q.progress)
  {
    AdvanceIsLiveTicked(now, ps);
    LiveTickedFacts(now, ps);
    forall q | q in Advance(now, ps)
      ensures q.progress < 1.0 && (q.startTime <= now ==> 0.0 <= q.progress)
    {
      var p :| p in ps && Live(now, p) && q == Tick(now, p);
      ProgressFacts(now, p.startTime);
    }
  }

  // ---------------------------------------------------------------------
  // Frames

  /** One animation frame: spawn, then advance every pulse, the fresh one
      included. The clock of the last attempt moves only when the throttle
      is due, at most one pulse is added, and every pulse left is under way. */
  function Frame(cfg: Throttle, ns: seq<Neuron>, s: Loop, f: FrameInput): (s': Loop)
    requires |ns| > 0 && ValidInput(f)
    ensures Due(cfg, s, f.now) ==> s'.lastSpawn == f.now
    ensures !Due(cfg, s, f.now) ==> s'.lastSpawn == s.lastSpawn
    ensures |s'.pulses| <= |s.pulses| + 1
    ensures forall q :: q in s'.pulses ==> q.progress < 1.0
  {
    var sp := Spawn(cfg, ns, s, f.now, f.pickNeuron, f.pickLink);
    Loop(sp.lastSpawn, Advance(f.now, sp.pulses))
  }

  /** Neuron `k` has id `k`, as the generator guarantees. */
  predicate IdsAreIndices(ns: seq<Neuron>)
  {
    forall k :: 0 <= k < |ns| ==> ns[k].id == k
  }

  /** A pulse runs along an existing connection between two neurons of
      the list, carries its own key and started no later than `clock`. */
  predicate PulseOk(ns: seq<Neuron>, p: Pulse, clock: int)
  {
    && p.from < |ns| && p.to < |ns| && p.to in ns[p.from].connections
    && p.id == PulseId(p.from, p.to, p.startTime)
    && p.startTime <= clock
  }

  /** The loop's invariant after a frame at `clock`. */
  predicate LoopOk(cfg: Throttle, ns: seq<Neuron>, s: Loop, clock: int)
  {
    && |s.pulses| <= cfg.cap
    && (forall p :: p in s.pulses ==> PulseOk(ns, p, clock) && 0.0 <= p.progress < 1.0)
  }

  /** A frame keeps the invariant when the clock does not go back: at most
      `cap` pulses, each on a connection between two neurons of the list
      (so rendering never meets a missing endpoint), with progress in [0, 1). */
  lemma FramePreservesLoopOk(cfg: Throttle, ns: seq<Neuron>, s: Loop, clock: int, f: FrameInput)
    requires |ns| > 0 && ValidInput(f) && IdsAreIndices(ns) && LinksInRange(ns)
    requires LoopOk(cfg, ns, s, clock) && clock <= f.now
    ensures LoopOk(cfg, ns, Frame(cfg, ns, s, f), f.now)
  {
    var sp := Spawn(cfg, ns, s, f.now, f.pickNeuron, f.pickLink);
    assert forall p :: p in sp.pulses ==> PulseOk(ns, p, f.now) by {
      forall p | p in sp.pulses
        ensures PulseOk(ns, p, f.now)
      {
        var k :| 0 <= k < |sp.pulses| && sp.pulses[k] == p;
        if k < |s.pulses| {
          assert p == sp.pulses[..|s.pulses|][k] == s.pulses[k];
          assert p in s.pulses;
        } else {
          var src := ns[Pick(f.pickNeuron, |ns|)];
          var j :| 0 <= j < |src.connections| && src.connections[j] == p.to;
          assert ns[p.from].connections[j] < |ns|;
        }
      }
    }
    assert |sp.pulses| <= cfg.cap;
    AdvanceSpec(f.now, sp.pulses);
  }

  /** The nets the component builds meet the frame's requirements, so on
      them every pulse joins two existing neurons after every frame. */
  lemma FrameOnGeneratedNet(cfg: Throttle, countOverride: Option<int>, s: Loop, clock: int, f: FrameInput)
    requires Count(countOverride) > 0 && ValidInput(f)
    requires LoopOk(cfg, Generate(countOverride), s, clock) && clock <= f.now
    ensures LoopOk(cfg, Generate(countOverride), Frame(cfg, Generate(countOverride), s, f), f.now)
  {
    var ns := Generate(countOverride);
    GenerateSpec(countOverride);
    FramePreservesLoopOk(cfg, ns, s, clock, f);
  }

  // ---------------------------------------------------------------------
  // Throttling over a run of frames

  predicate ValidInputs(fs: seq<FrameInput>)
  {
    forall k :: 0 <= k < |fs| ==> ValidInput(fs[k])
  }

  /** The clock readings of the frames of `fs` that attempted a spawn. */
  function Attempts(cfg: Throttle, ns: seq<Neuron>, s: Loop, fs: seq<FrameInput>): seq<int>
    requires |ns| > 0 && ValidInputs(fs)
    decreases |fs|
  {
    if fs == [] then []
    else
      (if Due(cfg, s, fs[0].now) then [fs[0].now] else [])
      + Attempts(cfg, ns, Frame(cfg, ns, s, fs[0]), fs[1..])
  }

  /** The throttle: successive spawn attempts are more than `interval`
      apart, and the first comes more than `interval` after the last one
      before the run. */
  lemma {:induction false} AttemptsAreSpaced(cfg: Throttle, ns: seq<Neuron>, s: Loop, fs: seq<FrameInput>)
    requires |ns| > 0 && ValidInputs(fs)
    ensures var ts := Attempts(cfg, ns, s, fs);
      && (|ts| > 0 ==> ts[0] - s.lastSpawn > cfg.interval)
      && (forall k :: 0 <= k < |ts| - 1 ==> ts[k + 1] - ts[k] > cfg.interval)
    decreases |fs|
  {
    if fs != [] {
      var s' := Frame(cfg, ns, s, fs[0]);
      AttemptsAreSpaced(cfg, ns, s', fs[1..]);
      var rest := Attempts(cfg, ns, s', fs[1..]);
      if Due(cfg, s, fs[0].now) {
        assert s'.lastSpawn == fs[0].now;
        var ts := [fs[0].now] + rest;
        assert forall k :: 1 <= k < |ts| ==> ts[k] == rest[k - 1];
      } else {
        assert s'.lastSpawn == s.lastSpawn;
      }
    }
  }

  // ---------------------------------------------------------------------
  // Finding: the throttle clock as written

  /** A frame as the component runs it: `lastSpawn` is a local of the
      effect, and the effect re-runs whenever the number of pulses changes,
      so any change of the count starts the next frame from `lastSpawn = 0`. */
  function FrameAsWritten(cfg: Throttle, ns: seq<Neuron>, s: Loop, f: FrameInput): (s': Loop)
    requires |ns| > 0 && ValidInput(f)
    ensures s'.pulses == Frame(cfg, ns, s, f).pulses
    ensures |s'.pulses| != |s.pulses| ==> s'.lastSpawn == 0
    ensures |s'.pulses| == |s.pulses| ==> s' == Frame(cfg, ns, s, f)
  {
    var s' := Frame(cfg, ns, s, f);
    if |s'.pulses| != |s.pulses| then s'.(lastSpawn := 0) else s'
  }

  function AttemptsAsWritten(cfg: Throttle, ns: seq<Neuron>, s: Loop, fs: seq<FrameInput>): seq<int>
    requires |ns| > 0 && ValidInputs(fs)
    decreases |fs|
  {
    if fs == [] then []
    else
      (if Due(cfg, s, fs[0].now) then [fs[0].now] else [])
      + AttemptsAsWritten(cfg, ns, FrameAsWritten(cfg, ns, s, fs[0]), fs[1..])
  }

  /** On the 25-neuron net with a fine pointer, a spawn at t = 100000 is
      followed by another attempt 16 ms later, one animation frame, far
      inside the 1200 ms interval; with the clock kept across frames the
      second frame does not attempt. */
  lemma ThrottleDefeatedAsWritten()
    ensures var ns := Generate(CountFor(false, false));
      var fs := [FrameInput(100000, 0.0, 0.0), FrameInput(100016, 0.0, 0.0)];
      && AttemptsAsWritten(ThrottleFor(false), ns, Loop(0, []), fs) == [100000, 100016]
      && Attempts(ThrottleFor(false), ns, Loop(0, []), fs) == [100000]
  {
    var cfg := ThrottleFor(false);
    var ns := Generate(CountFor(false, false));
    var f1 := FrameInput(100000, 0.0, 0.0);
    var f2 := FrameInput(100016, 0.0, 0.0);
    var fs := [f1, f2];
    var s0 := Loop(0, []);
    assert |ns| == 25;
    ComponentNetsFullyLinked(false, false, 0);
    assert Pick(0.0, |ns|) == 0;
    var sp := Spawn(cfg, ns, s0, f1.now, 0.0, 0.0);
    assert |sp.pulses| == 1;
    var p := sp.pulses[0];
    assert p.startTime == 100000;
    assert Advance(100000, sp.pulses) == [Tick(100000, p)] by {
      AdvanceIsLiveTicked(100000, sp.pulses);
      assert sp.pulses[1..] == [];
    }
    var a1 := FrameAsWritten(cfg, ns, s0, f1);
    assert |a1.pulses| == 1 && a1.lastSpawn == 0;
    assert Due(cfg, a1, f2.now);
    assert fs[1..] == [f2] && [f2][1..] == [];
    var c1 := Frame(cfg, ns, s0, f1);
    assert c1.lastSpawn == 100000;
    assert !Due(cfg, c1, f2.now);
  }
}
