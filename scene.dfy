/** Shared vocabulary of the engine the scripts run on: object identities,
    nullable references, 3-vectors and the handful of `Mathf` helpers whose
    exact semantics the scripts rely on. Floating point is modelled by `real`. */
module Scene {

  /** A scene object (a `GameObject`); identity only. */
  type ObjectId = nat

  /** A nullable reference. */
  datatype Option<T> = None | Some(value: T)

  datatype Vec3 = Vec3(x: real, y: real, z: real) {
    function Add(o: Vec3): Vec3 { Vec3(x + o.x, y + o.y, z + o.z) }
    function Sub(o: Vec3): Vec3 { Vec3(x - o.x, y - o.y, z - o.z) }
    function Scale(k: real): Vec3 { Vec3(k * x, k * y, k * z) }
  }

  const Zero := Vec3(0.0, 0.0, 0.0)

  /** `Vector3.down`. */
  const Down := Vec3(0.0, -1.0, 0.0)

  /** `Mathf.Clamp`: a value below `lo` becomes `lo`, otherwise a value above
      `hi` becomes `hi`. When `lo > hi` the result is not inside [lo, hi]. */
  function Clamp(v: real, lo: real, hi: real): (r: real)
    ensures lo <= hi ==> lo <= r <= hi
    ensures lo <= v <= hi ==> r == v
    ensures r == v || r == lo || r == hi
  {
    if v < lo then lo else if v > hi then hi else v
  }

  /** `Mathf.Clamp` on integers; same rule as `Clamp`. */
  function ClampInt(v: int, lo: int, hi: int): (r: int)
    ensures lo <= hi ==> lo <= r <= hi
    ensures lo <= v <= hi ==> r == v
    ensures lo > hi ==> r == (if v < lo then lo else hi)
  {
    if v < lo then lo else if v > hi then hi else v
  }

  /** `Mathf.Clamp01`. */
  function Clamp01(v: real): (r: real)
    ensures 0.0 <= r <= 1.0
    ensures 0.0 <= v <= 1.0 ==> r == v
  {
    Clamp(v, 0.0, 1.0)
  }

  /** `Mathf.InverseLerp`: where `v` sits between `a` and `b`, as a fraction
      clamped to [0, 1]; 0 when the interval is degenerate. */
  function InverseLerp(a: real, b: real, v: real): (r: real)
    ensures 0.0 <= r <= 1.0
    ensures a < b ==> (r == 0.0 <==> v <= a)
    ensures a < b ==> (r == 1.0 <==> v >= b)
  {
    if a != b then
      FractionOrder(a, b, v);
      Clamp01((v - a) / (b - a))
    else 0.0
  }

  /** Where `v` sits relative to the ends of [a, b] decides the sign of the
      fraction and whether it reaches 1. */
  lemma FractionOrder(a: real, b: real, v: real)
    requires a != b
    ensures a < b ==> ((v - a) / (b - a) <= 0.0 <==> v <= a)
    ensures a < b ==> ((v - a) / (b - a) >= 1.0 <==> v >= b)
  {
    if a < b {
      var t := (v - a) / (b - a);
      FractionSign(a, b, v, t);
      FractionReachesOne(a, b, v, t);
    }
  }

  lemma FractionSign(a: real, b: real, v: real, t: real)
    requires a < b && v - a == t * (b - a)
    ensures t <= 0.0 <==> v <= a
  {
    var d := b - a;
    if t <= 0.0 { assert t * d <= 0.0; } else { assert t * d > 0.0; }
  }

  lemma FractionReachesOne(a: real, b: real, v: real, t: real)
    requires a < b && v - a == t * (b - a)
    ensures t >= 1.0 <==> v >= b
  {
    var d := b - a;
    if t < 1.0 { assert t * d < d; } else { assert t * d >= d; }
  }

  /** `Mathf.CeilToInt`: the least integer not below `x`. */
  function Ceil(x: real): (r: int)
    ensures x <= r as real < x + 1.0
  {
    -((-x).Floor)
  }

  /** `Mathf.Max` on integers. */
  function MaxInt(a: int, b: int): (r: int)
    ensures r >= a && r >= b
    ensures r == a || r == b
  {
    if a >= b then a else b
  }

  function SqDist(a: Vec3, b: Vec3): (r: real)
    ensures r >= 0.0
  {
    var d := a.Sub(b);
    d.x * d.x + d.y * d.y + d.z * d.z
  }

  /** `Vector3.Distance(a, b) <= radius`, stated without the square root:
      a distance is never negative, so a negative radius admits nothing. */
  predicate WithinRadius(a: Vec3, b: Vec3, radius: real)
  {
    radius >= 0.0 && SqDist(a, b) <= radius * radius
  }
}
