/** The setup both burst controllers share: one emitter per burst point,
    created idle, and fresh bookkeeping. */
module BurstSetup {
  import opened Scene
  import opened TrailBurst
  import opened BurstRules

  /** An emitter as `Start` creates it: idle with a full countdown of
      `burstDuration`, `particleCount` particles per burst, mouse control off, no
      particles yet. */
  ghost predicate NewEmitter(s: TrailBurst, burstDuration: real, particleCount: int)
    reads s
  {
    && s.State() == Emission(false, burstDuration, burstDuration)
    && !s.useMouseControl && s.particleCount == particleCount && s.particles == []
  }

  /** The emitter-creating loop of the controllers' `Start`: one new idle
      emitter (`particleCount` particles, force 10, spread 5, mouse control off) and fresh
      bookkeeping per burst point. */
  method CreateBurstSystems(burstPoints: seq<ObjectId>, burstDuration: real, particleCount: int)
    returns (systems: map<ObjectId, TrailBurst>, states: map<ObjectId, PointState>)
    ensures systems.Keys == (set p | p in burstPoints) && states.Keys == systems.Keys
    ensures forall p :: p in systems ==>
              && fresh(systems[p]) && NewEmitter(systems[p], burstDuration, particleCount)
    ensures forall p :: p in states ==> states[p] == Fresh
  {
    systems := map[];
    states := map[];
    var i := 0;
    while i < |burstPoints|
      invariant 0 <= i <= |burstPoints|
      invariant forall j :: 0 <= j < i ==> burstPoints[j] in systems
      invariant forall p :: p in systems ==> p in burstPoints
      invariant states.Keys == systems.Keys
      invariant forall p :: p in systems ==>
                  && fresh(systems[p]) && NewEmitter(systems[p], burstDuration, particleCount)
      invariant forall p :: p in states ==> states[p] == Fresh
    {
      var p := burstPoints[i];
      var burst := new TrailBurst.Create(burstDuration, particleCount, 10.0, 5.0, false);
      burst.useMouseControl := false;
      systems := systems[p := burst];
      states := states[p := Fresh];
      i := i + 1;
    }
  }
}
