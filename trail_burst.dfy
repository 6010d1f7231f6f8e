/** The burst emitter attached to each burst point (`PM25TrailBurst`): an
    on/off flag with a countdown that gates emission, a particle list that
    only grows, and the clamped convection–diffusion step that moves the
    particles. Random draws, the frame time, the engine's square root and
    the "delta is finite" test are inputs. */
module TrailBurst {
  import opened Scene

  /** The part of an emitter that decides whether it emits: the bursting
      flag, the remaining emission time and the duration it is refilled from. */
  datatype Emission = Emission(isBursting: bool, emissionTimer: real, emissionDuration: real) {

    /** The countdown never exceeds the duration it is refilled from. */
    predicate Consistent() { emissionTimer <= emissionDuration }

    /** `IsEmitting`. */
    predicate Emitting() { isBursting && emissionTimer > 0.0 }

    /** `StartBursting`: only an idle emitter changes; its countdown is refilled
        only when it has run out. */
    function Started(): Emission {
      if isBursting then this
      else if emissionTimer <= 0.0 then Emission(true, emissionDuration, emissionDuration)
      else this.(isBursting := true)
    }

    /** `StopBursting`: clears the flag, keeps the countdown. */
    function Stopped(): Emission { this.(isBursting := false) }

    /** `ResetEmissionTimer`. */
    function Refilled(): Emission { this.(emissionTimer := emissionDuration) }

    /** `SetEmissionDuration`. */
    function WithDuration(d: real): Emission { Emission(isBursting, d, d) }

    /** The countdown part of `Update`: it runs down only while emitting. */
    function Ticked(dt: real): Emission {
      if Emitting() then this.(emissionTimer := emissionTimer - dt) else this
    }
  }

  /** A consistent emitter that emits has a positive duration, so the
      emission rate `particleCount / emissionDuration` is defined. */
  lemma EmittingHasDuration(e: Emission)
    requires e.Consistent() && e.Emitting()
    ensures e.emissionDuration > 0.0
  {
  }

  /** Starting an idle emitter makes it emit exactly when time remains or the
      refill duration is positive; starting a bursting one changes nothing. */
  lemma StartedEmits(e: Emission)
    ensures e.Started().isBursting
    ensures e.Started().emissionDuration == e.emissionDuration
    ensures e.isBursting ==> e.Started() == e
    ensures !e.isBursting ==>
      (e.Started().Emitting() <==> e.emissionTimer > 0.0 || e.emissionDuration > 0.0)
    ensures e.Started().Started() == e.Started()
  {
  }

  /** Stopping keeps the countdown and the duration, and an emitter that has
      been stopped does not emit. */
  lemma StoppedIsSilent(e: Emission)
    ensures !e.Stopped().Emitting()
    ensures e.Stopped().emissionTimer == e.emissionTimer
    ensures e.Stopped().emissionDuration == e.emissionDuration
    ensures e.Stopped().Stopped() == e.Stopped()
    ensures !e.isBursting ==> e.Stopped() == e
  {
  }

  /** Every operation keeps the countdown at or below the duration (for a
      frame time that is not negative). */
  lemma OperationsKeepConsistent(e: Emission, d: real, dt: real)
    requires e.Consistent() && dt >= 0.0
    ensures e.Started().Consistent() && e.Stopped().Consistent()
    ensures e.Refilled().Consistent() && e.WithDuration(d).Consistent()
    ensures e.Ticked(dt).Consistent()
  {
  }

  /** After `SetEmissionDuration(d)` both the duration and the countdown are
      `d`, and the emitter emits exactly when it is bursting and `d > 0`. */
  lemma WithDurationRefills(e: Emission, d: real)
    ensures e.WithDuration(d).emissionDuration == d && e.WithDuration(d).emissionTimer == d
    ensures e.WithDuration(d).Emitting() <==> e.isBursting && d > 0.0
  {
  }

  /** A frame lowers the countdown by `dt` when the emitter emits and leaves
      the emitter untouched otherwise. */
  lemma TickedCountsDown(e: Emission, dt: real)
    ensures e.Emitting() ==> e.Ticked(dt).emissionTimer == e.emissionTimer - dt
    ensures !e.Emitting() ==> e.Ticked(dt) == e
    ensures e.Ticked(dt).isBursting == e.isBursting
    ensures e.Ticked(dt).emissionDuration == e.emissionDuration
  {
  }

  /** One particle: `obj == null` is `!alive` (destroyed from outside). */
  datatype TrailParticle = TrailParticle(alive: bool, position: Vec3, velocity: Vec3, creationTime: real)

  /** The random draws behind one spawned particle: `Random.insideUnitSphere`,
      the two horizontal spreads drawn from [-burstSpread, burstSpread] and
      the upward bonus drawn from [0, 1]. */
  datatype SpawnDraw = SpawnDraw(offset: Vec3, spreadX: real, lift: real, spreadZ: real)

  /** The random draws behind one sub-step of one particle: the three raw
      Box–Muller values before `NormalRandom`'s clamp, and whether the
      resulting position delta is finite. */
  datatype StepDraw = StepDraw(normal: Vec3, deltaFinite: bool)

  /** The transport settings of an emitter. */
  datatype Transport = Transport(
    windVelocity: Vec3,
    diffusionCoefficient: real,
    gravityStrength: real,
    movementSpeedMultiplier: real,
    useDetailedTrails: bool)

  /** Number of particles emitted in a frame: `CeilToInt(particleCount /
      emissionDuration * dt)`, and none when that is not positive. */
  function EmitCount(particleCount: int, emissionDuration: real, dt: real): (n: nat)
    requires emissionDuration > 0.0
    ensures n as real >= particleCount as real / emissionDuration * dt
    ensures n > 0 ==> (n - 1) as real < particleCount as real / emissionDuration * dt
  {
    var c := Ceil(particleCount as real / emissionDuration * dt);
    if c > 0 then c else 0
  }

  /** A positive budget over a positive frame emits at least one particle. */
  lemma EmitCountPositive(particleCount: int, emissionDuration: real, dt: real)
    requires emissionDuration > 0.0 && particleCount > 0 && dt > 0.0
    ensures EmitCount(particleCount, emissionDuration, dt) >= 1
  {
    var x := particleCount as real / emissionDuration;
    assert x > 0.0;
    assert x * dt > 0.0;
  }

  /** The particle spawned from one draw. */
  function Spawned(origin: Vec3, d: SpawnDraw, emissionRadius: real, burstForce: real, now: real): TrailParticle
  {
    TrailParticle(true, origin.Add(d.offset.Scale(emissionRadius)),
                  Vec3(d.spreadX, burstForce + d.lift, d.spreadZ), now)
  }

  /** The particles one emission appends, in draw order. */
  function Batch(n: nat, origin: Vec3, draws: nat -> SpawnDraw, emissionRadius: real,
                 burstForce: real, now: real): (b: seq<TrailParticle>)
    ensures |b| == n
    ensures forall i :: 0 <= i < n ==> b[i].alive && b[i].creationTime == now
  {
    var b := seq(n, i requires 0 <= i < n => Spawned(origin, draws(i), emissionRadius, burstForce, now));
    assert forall i :: 0 <= i < n ==> b[i] == Spawned(origin, draws(i), emissionRadius, burstForce, now);
    b
  }

  /** `NormalRandom`'s final clamp: whatever the Box–Muller value was, the
      sample lies in [-3, 3], and a sample already there is kept. */
  function NormalSample(raw: real): (r: real)
    ensures -3.0 <= r <= 3.0
    ensures -3.0 <= raw <= 3.0 ==> r == raw
  {
    Clamp(raw, -3.0, 3.0)
  }

  /** `root` is what `Mathf.Sqrt(arg)` returns: the non-negative square root
      when `arg` is not negative (a negative argument gives NaN). */
  ghost predicate IsSquareRoot(arg: real, root: real)
  {
    arg >= 0.0 ==> root >= 0.0 && root * root == arg
  }

  /** The diffusion scale `Sqrt(2 * D * subDt)` with its fallback: `root` is
      the engine's square root of `arg`; a negative argument (NaN) or a zero
      root falls back to 0.001. The root is zero exactly when `arg` is, so
      testing `arg <= 0` as well is the same test. */
  function DiffusionScale(arg: real, root: real): (r: real)
    requires IsSquareRoot(arg, root)
    ensures r > 0.0
    ensures arg > 0.0 ==> r == root && r * r == arg
    ensures arg <= 0.0 ==> r == 0.001
  {
    if arg <= 0.0 || root <= 0.0 then 0.001 else root
  }

  /** The unclamped position delta of one sub-step: convection (own velocity,
      wind and gravity), the clamped diffusion samples and the gravity step,
      scaled by the movement multiplier. */
  function RawDelta(p: TrailParticle, d: StepDraw, t: Transport, subDt: real, scale: real): Vec3
  {
    var convection := p.velocity.Add(t.windVelocity).Add(Down.Scale(t.gravityStrength)).Scale(subDt);
    var diffusion := Vec3(NormalSample(d.normal.x) * scale,
                          NormalSample(d.normal.y) * scale,
                          NormalSample(d.normal.z) * scale);
    var gravity := Down.Scale(t.gravityStrength * subDt);
    convection.Add(diffusion).Add(gravity).Scale(t.movementSpeedMultiplier)
  }

  /** The per-axis clamp of a delta to [-10, 10]. */
  function ClampDelta(v: Vec3): (c: Vec3)
    ensures -10.0 <= c.x <= 10.0 && -10.0 <= c.y <= 10.0 && -10.0 <= c.z <= 10.0
    ensures -10.0 <= v.x <= 10.0 && -10.0 <= v.y <= 10.0 && -10.0 <= v.z <= 10.0 ==> c == v
  {
    Vec3(Clamp(v.x, -10.0, 10.0), Clamp(v.y, -10.0, 10.0), Clamp(v.z, -10.0, 10.0))
  }

  /** One sub-step of one particle. A non-finite delta skips the sub-step
      entirely; otherwise the clamped delta is applied and the velocity is
      blended towards zero by `0.5 * subDt`. */
  function SubStep(p: TrailParticle, d: StepDraw, t: Transport, subDt: real, scale: real): (q: TrailParticle)
    ensures !d.deltaFinite ==> q == p
    ensures q.alive == p.alive && q.creationTime == p.creationTime
    ensures -10.0 <= q.position.x - p.position.x <= 10.0
    ensures -10.0 <= q.position.y - p.position.y <= 10.0
    ensures -10.0 <= q.position.z - p.position.z <= 10.0
  {
    if !d.deltaFinite then p
    else
      p.(position := p.position.Add(ClampDelta(RawDelta(p, d, t, subDt, scale))),
         velocity := p.velocity.Scale(1.0 - Clamp01(0.5 * subDt)))
  }

  /** The first `k` sub-steps of particle number `i`. */
  function Substeps(p: TrailParticle, i: nat, k: nat, draws: (nat, nat) -> StepDraw,
                    t: Transport, subDt: real, scale: real): TrailParticle
  {
    if k == 0 then p else SubStep(Substeps(p, i, k - 1, draws, t, subDt, scale), draws(i, k - 1), t, subDt, scale)
  }

  /** Sub-steps per frame and their length. */
  function StepCount(t: Transport): (n: nat)
    ensures n >= 1
  {
    if t.useDetailedTrails then 3 else 1
  }

  /** `UpdateParticles` as a value: live particles take their sub-steps,
      destroyed ones are skipped. */
  function Advanced(ps: seq<TrailParticle>, draws: (nat, nat) -> StepDraw,
                    t: Transport, subDt: real, scale: real): (r: seq<TrailParticle>)
    ensures |r| == |ps|
  {
    seq(|ps|, i requires 0 <= i < |ps| =>
      if ps[i].alive then Substeps(ps[i], i, StepCount(t), draws, t, subDt, scale) else ps[i])
  }

  /** Over `k` sub-steps a particle moves at most `10 * k` along each axis,
      whatever the velocity, wind and random samples were; it stays alive or
      destroyed and keeps its creation time. */
  lemma {:induction false} SubstepsBounded(p: TrailParticle, i: nat, k: nat, draws: (nat, nat) -> StepDraw,
                                           t: Transport, subDt: real, scale: real)
    ensures Substeps(p, i, k, draws, t, subDt, scale).alive == p.alive
    ensures Substeps(p, i, k, draws, t, subDt, scale).creationTime == p.creationTime
    ensures -10.0 * k as real <= Substeps(p, i, k, draws, t, subDt, scale).position.x - p.position.x <= 10.0 * k as real
    ensures -10.0 * k as real <= Substeps(p, i, k, draws, t, subDt, scale).position.y - p.position.y <= 10.0 * k as real
    ensures -10.0 * k as real <= Substeps(p, i, k, draws, t, subDt, scale).position.z - p.position.z <= 10.0 * k as real
  {
    if k > 0 {
      SubstepsBounded(p, i, k - 1, draws, t, subDt, scale);
    }
  }

  /** A frame in which every sub-step of a particle has a non-finite delta
      leaves that particle exactly where and as it was. */
  lemma {:induction false} NonFiniteStepsMoveNothing(p: TrailParticle, i: nat, k: nat, draws: (nat, nat) -> StepDraw,
                                                     t: Transport, subDt: real, scale: real)
    requires forall j :: 0 <= j < k ==> !draws(i, j).deltaFinite
    ensures Substeps(p, i, k, draws, t, subDt, scale) == p
  {
    if k > 0 {
      NonFiniteStepsMoveNothing(p, i, k - 1, draws, t, subDt, scale);
    }
  }

  /** The colour parameter `t = Clamp01(density / maxDensity)` before the power
      curve. `None` stands for the NaN that `0 / 0` gives when `maxDensity`
      is 0 and no neighbour was found; a positive count over 0 is +infinity,
      which clamps to 1. */
  function DensityParam(density: nat, maxDensity: int): (r: Option<real>)
    ensures r.Some? ==> 0.0 <= r.value <= 1.0
    ensures r.None? <==> density == 0 && maxDensity == 0
    ensures maxDensity > 0 && density >= maxDensity ==> r == Some(1.0)
    ensures maxDensity > 0 && density <= maxDensity ==> r == Some(density as real / maxDensity as real)
  {
    if maxDensity == 0 then
      (if density == 0 then None else Some(1.0))
    else
      Some(Clamp01(density as real / maxDensity as real))
  }

  /** One `PM25TrailBurst` component. */
  class TrailBurst {
    var isBursting: bool
    var startOnAwake: bool
    var emissionTimer: real
    var emissionDuration: real
    var useMouseControl: bool
    var particles: seq<TrailParticle>

    const particleCount: int
    const emissionRadius: real
    const burstForce: real
    const burstSpread: real
    const transport: Transport

    /** The emitter's on/off state as a value. */
    function State(): Emission
      reads this`isBursting, this`emissionTimer, this`emissionDuration
    {
      Emission(isBursting, emissionTimer, emissionDuration)
    }

    ghost predicate Valid()
      reads this`emissionTimer, this`emissionDuration
    {
      emissionTimer <= emissionDuration
    }

    /** `Create` followed by `Awake` and `Start`: the countdown starts full and
        no particles exist yet. `Awake` runs inside `AddComponent`, before the
        factory stores `startBursting` into `startOnAwake`, so it copies the
        field's default `false`: a created emitter is always idle, and the
        requested flag is only kept in `startOnAwake`. */
    constructor Create(emissionDuration: real, particleCount: int, burstForce: real,
                       burstSpread: real, startBursting: bool)
      ensures Valid()
      ensures State() == Emission(false, emissionDuration, emissionDuration)
      ensures startOnAwake == startBursting
      ensures this.particleCount == particleCount && this.burstForce == burstForce
      ensures this.burstSpread == burstSpread && useMouseControl
      ensures particles == []
    {
      this.isBursting := false;
      this.startOnAwake := startBursting;
      this.emissionTimer := emissionDuration;
      this.emissionDuration := emissionDuration;
      this.useMouseControl := true;
      this.particles := [];
      this.particleCount := particleCount;
      this.emissionRadius := 0.01;
      this.burstForce := burstForce;
      this.burstSpread := burstSpread;
      this.transport := Transport(Vec3(0.2, 0.0, 0.0), 0.15, 0.2, 0.04, true);
    }

    /** `IsEmitting`; under the object invariant an emitting emitter has a
        positive duration. */
    predicate IsEmitting()
      reads this`isBursting, this`emissionTimer, this`emissionDuration
      ensures IsEmitting() <==> State().Emitting()
      ensures IsEmitting() && Valid() ==> emissionDuration > 0.0
    {
      isBursting && emissionTimer > 0.0
    }

    method StartBursting()
      modifies this`isBursting, this`emissionTimer
      ensures State() == old(State()).Started()
    {
      if !isBursting {
        isBursting := true;
        if emissionTimer <= 0.0 {
          ResetEmissionTimer();
        }
      }
    }

    method StopBursting()
      modifies this`isBursting
      ensures State() == old(State()).Stopped()
    {
      isBursting := false;
    }

    method ResetEmissionTimer()
      modifies this`emissionTimer
      ensures State() == old(State()).Refilled()
    {
      emissionTimer := emissionDuration;
    }

    method SetEmissionDuration(duration: real)
      modifies this`emissionDuration, this`emissionTimer
      ensures Valid()
      ensures State() == old(State()).WithDuration(duration)
    {
      emissionDuration := duration;
      ResetEmissionTimer();
    }

    /** `EmitParticles`: appends exactly `EmitCount` new particles and leaves
        the existing ones alone. */
    method EmitParticles(dt: real, origin: Vec3, now: real, draws: nat -> SpawnDraw)
      requires emissionDuration > 0.0
      modifies this`particles
      ensures particles == old(particles) +
        Batch(EmitCount(particleCount, emissionDuration, dt), origin, draws, emissionRadius, burstForce, now)
    {
      var toEmit := Ceil(particleCount as real / emissionDuration * dt);
      ghost var m := EmitCount(particleCount, emissionDuration, dt);
      ghost var b := Batch(m, origin, draws, emissionRadius, burstForce, now);
      var i := 0;
      while i < toEmit
        invariant 0 <= i <= m
        invariant particles == old(particles) + b[..i]
      {
        particles := particles + [Spawned(origin, draws(i), emissionRadius, burstForce, now)];
        i := i + 1;
      }
      assert b[..m] == b;
    }

    /** `UpdateParticles`: each live particle takes `StepCount` sub-steps of
        length `dt / StepCount`; destroyed particles are skipped. */
    method UpdateParticles(dt: real, root: real, draws: (nat, nat) -> StepDraw)
      requires IsSquareRoot(2.0 * transport.diffusionCoefficient * (dt / StepCount(transport) as real), root)
      modifies this`particles
      ensures particles == Advanced(old(particles), draws, transport,
                                    dt / StepCount(transport) as real,
                                    DiffusionScale(2.0 * transport.diffusionCoefficient * (dt / StepCount(transport) as real), root))
    {
      var steps := if transport.useDetailedTrails then 3 else 1;
      var subDt := dt / steps as real;
      var scale := DiffusionScale(2.0 * transport.diffusionCoefficient * subDt, root);
      var i := 0;
      while i < |particles|
        invariant 0 <= i <= |particles| == |old(particles)|
        invariant forall j :: 0 <= j < i ==> particles[j] == Advanced(old(particles), draws, transport, subDt, scale)[j]
        invariant forall j :: i <= j < |particles| ==> particles[j] == old(particles)[j]
      {
        if particles[i].alive {
          var p := particles[i];
          var k := 0;
          while k < steps
            invariant 0 <= k <= steps
            invariant p == Substeps(particles[i], i, k, draws, transport, subDt, scale)
          {
            p := SubStep(p, draws(i, k), transport, subDt, scale);
            k := k + 1;
          }
          particles := particles[i := p];
        }
        i := i + 1;
      }
    }

    /** One frame of `Update`: optional key polling, emission gated on
        `IsEmitting` with the countdown running down, then the transport step
        for every particle (new ones included). */
    method Update(dt: real, keyDown: bool, keyUp: bool, origin: Vec3, now: real,
                  spawn: nat -> SpawnDraw, root: real, steps: (nat, nat) -> StepDraw)
      requires Valid() && dt >= 0.0
      requires IsSquareRoot(2.0 * transport.diffusionCoefficient * (dt / StepCount(transport) as real), root)
      modifies this`isBursting, this`emissionTimer, this`particles
      ensures Valid()
      ensures var polled := if !useMouseControl then old(State())
                            else if keyDown then old(State()).Started()
                            else if keyUp then old(State()).Stopped()
                            else old(State());
              && State() == polled.Ticked(dt)
              && particles == Advanced(
                   old(particles) +
                     (if polled.Emitting()
                      then Batch(EmitCount(particleCount, emissionDuration, dt), origin, spawn, emissionRadius, burstForce, now)
                      else []),
                   steps, transport, dt / StepCount(transport) as real,
                   DiffusionScale(2.0 * transport.diffusionCoefficient * (dt / StepCount(transport) as real), root))
    {
      if useMouseControl {
        if keyDown {
          StartBursting();
        } else if keyUp {
          StopBursting();
        }
      }
      if isBursting && emissionTimer > 0.0 {
        EmitParticles(dt, origin, now, spawn);
        emissionTimer := emissionTimer - dt;
      }
      UpdateParticles(dt, root, steps);
    }
  }
}
