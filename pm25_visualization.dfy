/** The box-constrained particle cloud: particles spawn inside an
    axis-aligned box, drift each frame by wind, diffusion and gravity, are
    clamped back into the box, and are shaded by height and by how many
    particles lie within a radius of them. Random draws and the engine's
    square root of the diffusion term are parameters. */
module ParticleVolume {
  import opened Scene

  /** The spawn box: `center ± range / 2` on each axis. */
  datatype Box = Box(center: Vec3, range: Vec3) {
    function Lo(): Vec3 { Vec3(center.x - range.x / 2.0, center.y - range.y / 2.0, center.z - range.z / 2.0) }
    function Hi(): Vec3 { Vec3(center.x + range.x / 2.0, center.y + range.y / 2.0, center.z + range.z / 2.0) }

    /** No axis of the range is negative, so the box holds its centre. */
    predicate Proper() { range.x >= 0.0 && range.y >= 0.0 && range.z >= 0.0 }

    predicate Contains(p: Vec3) {
      && Lo().x <= p.x <= Hi().x
      && Lo().y <= p.y <= Hi().y
      && Lo().z <= p.z <= Hi().z
    }
  }

  /** `v` lies between `a` and `b`, whichever of the two is smaller. */
  predicate Between(v: real, a: real, b: real) {
    a <= v <= b || b <= v <= a
  }

  /** `ConstrainToVolume`: each coordinate clamped to the box's extent on its
      axis. */
  function ConstrainToVolume(b: Box, p: Vec3): (r: Vec3)
    ensures b.Proper() ==> b.Contains(r)
    ensures b.Contains(p) ==> r == p
  {
    Vec3(Clamp(p.x, b.Lo().x, b.Hi().x), Clamp(p.y, b.Lo().y, b.Hi().y), Clamp(p.z, b.Lo().z, b.Hi().z))
  }

  /** Clamping into a proper box twice is clamping once. */
  lemma ConstrainIdempotent(b: Box, p: Vec3)
    requires b.Proper()
    ensures ConstrainToVolume(b, ConstrainToVolume(b, p)) == ConstrainToVolume(b, p)
  {
  }

  /** With a negative range the clamp is not idempotent: `Mathf.Clamp` checks
      the lower end first, so a point is sent to one end and then to the
      other. */
  lemma InvertedBoxNotIdempotent()
    ensures var b := Box(Zero, Vec3(-2.0, 0.0, 0.0));
            var once := ConstrainToVolume(b, Zero);
            once.x == 1.0 && ConstrainToVolume(b, once).x == -1.0
  {
  }

  /** `Vector3.Distance(a, pos) <= radius`. */
  predicate Near(a: Vec3, pos: Vec3, radius: real) {
    WithinRadius(a, pos, radius)
  }

  /** The number of particles within `radius` of `pos`. */
  function Density(ps: seq<Vec3>, pos: Vec3, radius: real): (n: nat)
    ensures n <= |ps|
    decreases |ps|
  {
    if ps == [] then 0
    else Density(ps[..|ps| - 1], pos, radius) + (if Near(ps[|ps| - 1], pos, radius) then 1 else 0)
  }

  /** A particle is within any non-negative radius of itself, so the density
      at a particle's position is at least 1. */
  lemma {:induction false} DensityCountsSelf(ps: seq<Vec3>, i: nat, radius: real)
    requires i < |ps| && radius >= 0.0
    ensures Density(ps, ps[i], radius) >= 1
    decreases |ps|
  {
    if i < |ps| - 1 {
      DensityCountsSelf(ps[..|ps| - 1], i, radius);
    } else {
      assert SqDist(ps[i], ps[i]) == 0.0;
    }
  }

  /** A negative radius admits nothing. */
  lemma {:induction false} DensityNegativeRadius(ps: seq<Vec3>, pos: Vec3, radius: real)
    requires radius < 0.0
    ensures Density(ps, pos, radius) == 0
    decreases |ps|
  {
    if ps != [] {
      DensityNegativeRadius(ps[..|ps| - 1], pos, radius);
    }
  }

  /** The alpha a particle is drawn with: `Clamp01(density / 10)`. */
  function Alpha(density: nat): (a: real)
    ensures 0.0 <= a <= 1.0
    ensures density >= 10 <==> a == 1.0
    ensures density >= 1 ==> a >= 0.1
  {
    Clamp01(density as real / 10.0)
  }

  /** The colour parameters a particle gets: its height as a fraction of the
      box's height (the gradient input) and its alpha. */
  datatype Shade = Shade(height: real, alpha: real)

  /** One particle's drift: wind, scaled diffusion noise and gravity, clamped
      into the box. */
  function Drifted(b: Box, p: Vec3, wind: Vec3, noise: Vec3, diffusionScale: real, gravityStrength: real, dt: real): (r: Vec3)
    ensures b.Proper() ==> b.Contains(r)
  {
    var convection := wind.Scale(dt);
    var diffusion := noise.Scale(diffusionScale);
    var gravity := Down.Scale(gravityStrength).Scale(dt);
    ConstrainToVolume(b, p.Add(convection).Add(diffusion).Add(gravity))
  }

  /** The `PM25Visualization` component: its inspector settings and the
      positions of its particles, in list order. */
  class Visualization {
    const spawnCenter: Vec3
    const spawnRange: Vec3
    const windVelocity: Vec3
    const diffusionCoefficient: real
    const gravityStrength: real
    const movementSpeed: real
    const densityRadius: real

    var positions: seq<Vec3>

    function Volume(): Box {
      Box(spawnCenter, spawnRange)
    }

    /** `Start`: `particleCount` particles (none when it is not positive), the
        i-th at `spawnCenter + offsets[i]`, where each offset is the engine's
        uniform draw between `-range / 2` and `range / 2` on each axis
        (`Random.Range` accepts the two ends in either order, so a negative
        range still spawns). */
    constructor Start(spawnCenter: Vec3, spawnRange: Vec3, windVelocity: Vec3, diffusionCoefficient: real,
                      gravityStrength: real, movementSpeed: real, densityRadius: real,
                      particleCount: int, offsets: seq<Vec3>)
      requires |offsets| >= particleCount
      requires forall i :: 0 <= i < |offsets| ==>
                 && Between(offsets[i].x, -spawnRange.x / 2.0, spawnRange.x / 2.0)
                 && Between(offsets[i].y, -spawnRange.y / 2.0, spawnRange.y / 2.0)
                 && Between(offsets[i].z, -spawnRange.z / 2.0, spawnRange.z / 2.0)
      ensures this.spawnCenter == spawnCenter && this.spawnRange == spawnRange
      ensures this.windVelocity == windVelocity && this.diffusionCoefficient == diffusionCoefficient
      ensures this.gravityStrength == gravityStrength && this.movementSpeed == movementSpeed
      ensures this.densityRadius == densityRadius
      ensures |positions| == MaxInt(particleCount, 0)
      ensures forall i :: 0 <= i < |positions| ==> positions[i] == spawnCenter.Add(offsets[i])
      ensures Volume().Proper() ==> forall i :: 0 <= i < |positions| ==> Volume().Contains(positions[i])
    {
      this.spawnCenter := spawnCenter;
      this.spawnRange := spawnRange;
      this.windVelocity := windVelocity;
      this.diffusionCoefficient := diffusionCoefficient;
      this.gravityStrength := gravityStrength;
      this.movementSpeed := movementSpeed;
      this.densityRadius := densityRadius;
      var spawned: seq<Vec3> := [];
      var i := 0;
      while i < particleCount
        invariant 0 <= i == |spawned| <= MaxInt(particleCount, 0)
        invariant forall j :: 0 <= j < i ==> spawned[j] == spawnCenter.Add(offsets[j])
      {
        spawned := spawned + [spawnCenter.Add(offsets[i])];
        i := i + 1;
      }
      positions := spawned;
    }

    /** `CalculateDensity`: the particles within `densityRadius` of `pos`,
        counted by a pass over the list. */
    method CalculateDensity(pos: Vec3) returns (count: nat)
      ensures count == Density(positions, pos, densityRadius)
      ensures count <= |positions|
      ensures densityRadius >= 0.0 && pos in positions ==> count >= 1
    {
      count := 0;
      var i := 0;
      while i < |positions|
        invariant 0 <= i <= |positions|
        invariant count == Density(positions[..i], pos, densityRadius)
      {
        assert positions[..i + 1][..i] == positions[..i];
        if Near(positions[i], pos, densityRadius) {
          count := count + 1;
        }
        i := i + 1;
      }
      assert positions[..i] == positions;
      if densityRadius >= 0.0 && pos in positions {
        var k :| 0 <= k < |positions| && positions[k] == pos;
        DensityCountsSelf(positions, k, densityRadius);
      }
    }

    /** The positions after the first `k` particles of `ps` have drifted
        and the rest have not yet moved. */
    function MovedUpTo(ps: seq<Vec3>, noise: seq<Vec3>, diffusionScale: real, dt: real, k: nat): (r: seq<Vec3>)
      requires |noise| >= |ps|
      ensures |r| == |ps|
    {
      seq(|ps|, j requires 0 <= j < |ps| =>
        if j < k then Drifted(Volume(), ps[j], windVelocity, noise[j], diffusionScale, gravityStrength, dt) else ps[j])
    }

    /** The shade particle `i` gets in a frame that starts from positions
        `ps`: its height fraction in the box, and the alpha for the number of
        particles near it once it and every earlier particle have drifted. */
    function ShadeAt(ps: seq<Vec3>, noise: seq<Vec3>, diffusionScale: real, dt: real, i: nat): (s: Shade)
      requires |noise| >= |ps| && i < |ps|
      ensures 0.0 <= s.height <= 1.0 && 0.0 <= s.alpha <= 1.0
      ensures densityRadius >= 0.0 ==> s.alpha >= 0.1
    {
      var after := MovedUpTo(ps, noise, diffusionScale, dt, i + 1);
      var s := Shade(InverseLerp(Volume().Lo().y, Volume().Hi().y, after[i].y),
                     Alpha(Density(after, after[i], densityRadius)));
      if densityRadius >= 0.0 then DensityCountsSelf(after, i, densityRadius); s else s
    }

    /** One pass of `Update`'s loop: particle `i` drifts and is shaded. */
    method MoveAndShade(i: nat, ghost before: seq<Vec3>, noise: seq<Vec3>, diffusionScale: real, dt: real)
      returns (s: Shade)
      requires |noise| >= |before| && i < |before|
      requires positions == MovedUpTo(before, noise, diffusionScale, dt, i)
      modifies this`positions
      ensures positions == MovedUpTo(before, noise, diffusionScale, dt, i + 1)
      ensures s == ShadeAt(before, noise, diffusionScale, dt, i)
    {
      var moved := Drifted(Volume(), positions[i], windVelocity, noise[i], diffusionScale, gravityStrength, dt);
      positions := positions[i := moved];
      assert positions == MovedUpTo(before, noise, diffusionScale, dt, i + 1);
      var height := InverseLerp(Volume().Lo().y, Volume().Hi().y, moved.y);
      var density := CalculateDensity(moved);
      s := Shade(height, Alpha(density));
    }

    /** `Update` for a frame of `deltaTime` seconds. `noise[i]` is the i-th
        particle's three normal draws and `diffusionScale` the engine's
        `Sqrt(2 * diffusionCoefficient * dt)`. Particles move one at a time in
        list order, so a particle's density is measured with the earlier
        particles already moved and the later ones not yet. */
    method Update(deltaTime: real, noise: seq<Vec3>, diffusionScale: real) returns (shades: seq<Shade>)
      requires |noise| >= |positions|
      modifies this`positions
      ensures |positions| == |old(positions)| == |shades|
      ensures forall i :: 0 <= i < |positions| ==>
                positions[i] == Drifted(Volume(), old(positions)[i], windVelocity, noise[i], diffusionScale,
                                        gravityStrength, deltaTime * movementSpeed)
      ensures Volume().Proper() ==> forall i :: 0 <= i < |positions| ==> Volume().Contains(positions[i])
      ensures forall i :: 0 <= i < |shades| ==>
                && shades[i] == ShadeAt(old(positions), noise, diffusionScale, deltaTime * movementSpeed, i)
                && shades[i].height == InverseLerp(Volume().Lo().y, Volume().Hi().y, positions[i].y)
      ensures forall i :: 0 <= i < |shades| ==> 0.0 <= shades[i].height <= 1.0 && 0.0 <= shades[i].alpha <= 1.0
      ensures densityRadius >= 0.0 ==> forall i :: 0 <= i < |shades| ==> shades[i].alpha >= 0.1
    {
      var dt := deltaTime * movementSpeed;
      ghost var before := positions;
      shades := [];
      var i := 0;
      while i < |positions|
        invariant 0 <= i <= |positions| == |before|
        invariant |shades| == i
        invariant positions == MovedUpTo(before, noise, diffusionScale, dt, i)
        invariant forall j :: 0 <= j < i ==> shades[j] == ShadeAt(before, noise, diffusionScale, dt, j)
      {
        var s := MoveAndShade(i, before, noise, diffusionScale, dt);
        shades := shades + [s];
        i := i + 1;
      }
    }
  }
}
