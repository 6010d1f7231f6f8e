/** Value-level rules shared by the two touch-and-hold burst controllers
    (`UserStudyInterface` and `BurstControl`): choosing the active burst
    point, accumulating hold time towards completion, the exposure ("PM2.5")
    accumulator and the environment drift. */
module BurstRules {
  import opened Scene

  /** The first burst point at or after index `from` (in list order) whose
      touching flag is set. */
  function FirstTouchingFrom(points: seq<ObjectId>, states: map<ObjectId, PointState>, from: nat): (r: Option<ObjectId>)
    requires forall p :: p in points ==> p in states
    requires from <= |points|
    ensures r.Some? ==> exists k :: from <= k < |points| && points[k] == r.value && states[points[k]].touching &&
                                  forall j :: from <= j < k ==> !states[points[j]].touching
    ensures r.None? <==> forall j :: from <= j < |points| ==> !states[points[j]].touching
    decreases |points| - from
  {
    if from == |points| then None
    else if states[points[from]].touching then Some(points[from])
    else FirstTouchingFrom(points, states, from + 1)
  }

  /** The point `HandleBurstInput` selects when it has no active point: the
      first touching point in list order, or none when nothing touches. */
  function FirstTouching(points: seq<ObjectId>, states: map<ObjectId, PointState>): (r: Option<ObjectId>)
    requires forall p :: p in points ==> p in states
    ensures r.Some? ==> r.value in points && states[r.value].touching
    ensures r.Some? ==> exists k :: 0 <= k < |points| && points[k] == r.value &&
                                  forall j :: 0 <= j < k ==> !states[points[j]].touching
    ensures r.None? <==> forall p :: p in points ==> !states[p].touching
  {
    FirstTouchingFrom(points, states, 0)
  }

  /** The bookkeeping one burst point has in the controller's four
      dictionaries: contact count, touching flag, hold time and completed
      flag. */
  datatype PointState = PointState(collisionCount: int, touching: bool, holdTime: real, completed: bool)
  {
    /** Counts are never negative, a point touches exactly while it has a
        contact, and hold time is never negative. */
    predicate Valid()
    {
      collisionCount >= 0 && touching == (collisionCount > 0) && holdTime >= 0.0
    }

    /** A contact starts. */
    function Entered(): PointState
    {
      this.(collisionCount := collisionCount + 1, touching := true)
    }

    /** A contact ends; the count never drops below 0. */
    function Exited(): PointState
    {
      var c := MaxInt(0, collisionCount - 1);
      this.(collisionCount := c, touching := c > 0)
    }

    /** One frame of holding the button on this point: a completed point is
        frozen; otherwise the hold time grows by `dt` and the point completes
        once it reaches `required`. */
    function Held(dt: real, required: real): PointState
    {
      if completed then this
      else
        var h := holdTime + dt;
        this.(holdTime := h, completed := h >= required)
    }

    /** Releasing the button: an incomplete point loses its hold time. */
    function Released(): PointState
    {
      if completed then this else this.(holdTime := 0.0)
    }
  }

  /** A point as `Start` and `ResetAllBurstPoints` leave it. */
  const Fresh := PointState(0, false, 0.0, false)

  /** Every operation keeps a point valid (holding for a frame time that is
      not negative). */
  lemma OperationsKeepValid(s: PointState, dt: real, required: real)
    requires s.Valid() && dt >= 0.0
    ensures s.Entered().Valid() && s.Exited().Valid()
    ensures s.Held(dt, required).Valid() && s.Released().Valid()
    ensures s.(holdTime := 0.0).Valid()
  {
  }

  /** A contact that starts and ends leaves a valid point as it was; a
      contact that ends on an untouched point changes nothing. */
  lemma EnterExitRoundTrip(s: PointState)
    requires s.Valid()
    ensures s.Entered().Exited() == s
    ensures !s.touching ==> s.Exited() == s
    ensures s.Entered().touching && s.Entered().collisionCount == s.collisionCount + 1
  {
  }

  /** Completion is one-way, and it is reached exactly when the hold time
      reaches the requirement. Hold time never decreases while holding, and
      contacts are not affected. */
  lemma HeldCompletes(s: PointState, dt: real, required: real)
    ensures s.completed ==> s.Held(dt, required) == s
    ensures s.Held(dt, required).completed <==> s.completed || s.holdTime + dt >= required
    ensures !s.completed ==> s.Held(dt, required).holdTime == s.holdTime + dt
    ensures dt >= 0.0 ==> s.Held(dt, required).holdTime >= s.holdTime
    ensures s.Held(dt, required).collisionCount == s.collisionCount
    ensures s.Held(dt, required).touching == s.touching
  {
  }

  /** Releasing keeps the completed flag, zeroes an incomplete hold time and
      keeps a completed one. */
  lemma ReleasedResets(s: PointState)
    ensures s.Released().completed == s.completed
    ensures !s.completed ==> s.Released().holdTime == 0.0
    ensures s.completed ==> s.Released() == s
    ensures s.Released().Released() == s.Released()
  {
  }

  /** A point after holding for `n` frames of `dt` each, from fresh. */
  function HeldFor(n: nat, dt: real, required: real): PointState
  {
    if n == 0 then Fresh else HeldFor(n - 1, dt, required).Held(dt, required)
  }

  /** Holding a fresh point for `n` equal frames completes it exactly when
      `n * dt` reaches the requirement; until then the hold time is `n * dt`,
      and it stays at the value of the completing frame afterwards. */
  lemma {:induction false} HeldForCompletes(n: nat, dt: real, required: real)
    requires dt > 0.0 && required > 0.0
    ensures HeldFor(n, dt, required).completed <==> n as real * dt >= required
    ensures !HeldFor(n, dt, required).completed ==> HeldFor(n, dt, required).holdTime == n as real * dt
    ensures HeldFor(n, dt, required).completed ==>
              required <= HeldFor(n, dt, required).holdTime < required + dt
  {
    if n > 0 {
      HeldForCompletes(n - 1, dt, required);
      NextMultiple(n, dt);
    }
  }

  lemma NextMultiple(n: nat, dt: real)
    requires n > 0 && dt > 0.0
    ensures n as real * dt == (n - 1) as real * dt + dt
    ensures (n - 1) as real * dt >= 0.0
  {
  }

  /** With the default requirement of 3 seconds and frames of 0.1 seconds a
      point completes on the thirtieth frame of holding, not before. */
  lemma ThirtiethFrameCompletes()
    ensures !HeldFor(29, 0.1, 3.0).completed
    ensures HeldFor(30, 0.1, 3.0).completed
  {
    HeldForCompletes(29, 0.1, 3.0);
    HeldForCompletes(30, 0.1, 3.0);
  }

  /** The exposure accumulator: how long some emitter has been emitting
      without a break, and the accumulated parameter. */
  datatype Exposure = Exposure(activeTime: real, parameter: real)

  /** The increment added per emitting frame: `rate / (1 + 0.1 * t)` where
      `t` is the time the emitters have been active. */
  function Increment(rate: real, activeTime: real): (r: real)
    requires activeTime >= 0.0
    ensures rate > 0.0 ==> 0.0 < r <= rate
  {
    IncrementBounds(rate, activeTime);
    rate * (1.0 / (1.0 + 0.1 * activeTime))
  }

  lemma IncrementBounds(rate: real, activeTime: real)
    requires activeTime >= 0.0
    ensures rate > 0.0 ==> 0.0 < rate * (1.0 / (1.0 + 0.1 * activeTime)) <= rate
  {
    var q := 1.0 / (1.0 + 0.1 * activeTime);
    assert 0.0 < q <= 1.0;
    if rate > 0.0 {
      assert rate * q <= rate * 1.0;
    }
  }

  /** The longer the emitters have been active, the smaller the increment. */
  lemma IncrementDecays(rate: real, t1: real, t2: real)
    requires rate > 0.0 && 0.0 <= t1 <= t2
    ensures Increment(rate, t2) <= Increment(rate, t1)
  {
    var d1 := 1.0 + 0.1 * t1;
    var d2 := 1.0 + 0.1 * t2;
    assert 0.0 < d1 <= d2;
    ReciprocalOrder(d1, d2);
  }

  lemma ReciprocalOrder(d1: real, d2: real)
    requires 0.0 < d1 <= d2
    ensures 1.0 / d2 <= 1.0 / d1
  {
    var q1 := 1.0 / d1;
    var q2 := 1.0 / d2;
    assert q1 > 0.0 && q2 > 0.0;
    assert q1 * d1 == 1.0 && q2 * d2 == 1.0;
    assert q1 * d2 >= q1 * d1;
    assert q1 * d2 >= q2 * d2;
    assert (q1 - q2) * d2 >= 0.0;
  }

  /** One frame of `UpdateBurstParameter`: while some emitter emits the
      active time grows by `dt` and the parameter by the decaying increment;
      otherwise the active time resets and the parameter stays. */
  function ExposureStep(x: Exposure, anyEmitting: bool, dt: real, rate: real): Exposure
    requires x.activeTime + dt >= 0.0
  {
    if anyEmitting then
      var t := x.activeTime + dt;
      Exposure(t, x.parameter + Increment(rate, t))
    else
      Exposure(0.0, x.parameter)
  }

  /** The exposure parameter never decreases and strictly grows on every
      emitting frame; the active time is never negative afterwards. */
  lemma ExposureGrows(x: Exposure, anyEmitting: bool, dt: real, rate: real)
    requires x.activeTime + dt >= 0.0 && rate > 0.0
    ensures ExposureStep(x, anyEmitting, dt, rate).parameter >= x.parameter
    ensures anyEmitting <==> ExposureStep(x, anyEmitting, dt, rate).parameter > x.parameter
    ensures ExposureStep(x, anyEmitting, dt, rate).activeTime >= 0.0
    ensures !anyEmitting ==> ExposureStep(x, anyEmitting, dt, rate) == Exposure(0.0, x.parameter)
  {
  }

  /** The subtle environment drift: add a small draw, then clamp to a band of
      half-width `band` around the base value. */
  function Drift(current: real, base: real, draw: real, band: real): (r: real)
    requires band >= 0.0
    ensures base - band <= r <= base + band
    ensures base - band <= current + draw <= base + band ==> r == current + draw
  {
    Clamp(current + draw, base - band, base + band)
  }

  function Abs(x: real): real { if x < 0.0 then -x else x }

  /** The non-subtle environment update: the base value plus a drawn fraction
      of itself. */
  function Resampled(base: real, draw: real): real
  {
    base + draw * base
  }

  /** A draw from [-variation, variation] keeps the resampled value within
      `variation * |base|` of the base. */
  lemma ResampledWithinVariation(base: real, draw: real, variation: real)
    requires -variation <= draw <= variation
    ensures Abs(Resampled(base, draw) - base) <= variation * Abs(base)
  {
    if base >= 0.0 {
      assert -variation * base <= draw * base <= variation * base;
    } else {
      assert variation * base <= draw * base <= -variation * base;
    }
  }
}
