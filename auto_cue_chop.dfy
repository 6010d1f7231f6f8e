/** The automatic cue-stick chop: the stick swings up at a fixed angular
    speed until it reaches the chop angle, pauses, swings back down to the
    start angle, pauses, and repeats. The rotation applied to the transform is
    not modelled; the frame time is a parameter of each step. */
module AutoCueChop {

  /** The inspector settings: maximum angle (degrees), angular speed (degrees
      per second) and the pause at either end (seconds). */
  datatype ChopSettings = ChopSettings(chopAngle: real, chopSpeed: real, pauseTime: real)

  const DefaultSettings := ChopSettings(45.0, 60.0, 0.5)

  datatype ChopState = ChopState(isChopping: bool, isReturning: bool, currentAngle: real, pauseTimer: real)

  /** The state a new stick starts in: chopping from angle 0, not paused. */
  const Initial := ChopState(true, false, 0.0, 0.0)

  /** Exactly one of the two phase flags is set. */
  predicate OneHot(s: ChopState) {
    s.isChopping != s.isReturning
  }

  /** One `Update`: a pending pause only counts down; otherwise the chopping
      block and then the returning block run, in that order, so a switch to
      returning is followed by a return step in the same frame. */
  function Step(s: ChopState, dt: real, k: ChopSettings): ChopState {
    if s.pauseTimer > 0.0 then
      s.(pauseTimer := s.pauseTimer - dt)
    else
      var up := if s.isChopping then ChopUp(s, dt, k) else s;
      if up.isReturning then ReturnDown(up, dt, k) else up
  }

  /** The chopping block: the angle grows by one step; reaching the chop angle
      switches to returning and starts the top pause. */
  function ChopUp(s: ChopState, dt: real, k: ChopSettings): ChopState {
    var a := s.currentAngle + k.chopSpeed * dt;
    if a >= k.chopAngle then ChopState(false, true, a, k.pauseTime)
    else s.(currentAngle := a)
  }

  /** The returning block: the angle shrinks by one step; reaching 0 switches
      to chopping and starts the bottom pause. */
  function ReturnDown(s: ChopState, dt: real, k: ChopSettings): ChopState {
    var a := s.currentAngle - k.chopSpeed * dt;
    if a <= 0.0 then ChopState(true, false, a, k.pauseTime)
    else s.(currentAngle := a)
  }

  /** The state after a run of frames with the given frame times. */
  function Run(s: ChopState, dts: seq<real>, k: ChopSettings): ChopState
    decreases |dts|
  {
    if dts == [] then s else Run(Step(s, dts[0], k), dts[1..], k)
  }

  /** Every step swaps both flags together or neither, so the phase stays
      one-hot. */
  lemma StepKeepsOneHot(s: ChopState, dt: real, k: ChopSettings)
    requires OneHot(s)
    ensures OneHot(Step(s, dt, k))
  {
  }

  /** While a pause is pending, a frame only takes `dt` off the timer. */
  lemma PauseOnlyCountsDown(s: ChopState, dt: real, k: ChopSettings)
    requires s.pauseTimer > 0.0
    ensures var r := Step(s, dt, k);
            && r.pauseTimer == s.pauseTimer - dt
            && r.currentAngle == s.currentAngle
            && r.isChopping == s.isChopping && r.isReturning == s.isReturning
  {
  }

  /** Chopping below the chop angle advances the angle by `chopSpeed * dt`
      and keeps the phase. */
  lemma ChopAdvances(s: ChopState, dt: real, k: ChopSettings)
    requires OneHot(s) && s.isChopping && s.pauseTimer <= 0.0
    requires s.currentAngle + k.chopSpeed * dt < k.chopAngle
    ensures Step(s, dt, k) == s.(currentAngle := s.currentAngle + k.chopSpeed * dt)
  {
  }

  /** Reaching the chop angle switches to returning with the top pause, and the
      return step of the same frame takes the angle straight back to where the
      frame began; when that is 0 or below, the frame also switches back to
      chopping. */
  lemma ChopSwitchSameFrame(s: ChopState, dt: real, k: ChopSettings)
    requires OneHot(s) && s.isChopping && s.pauseTimer <= 0.0
    requires s.currentAngle + k.chopSpeed * dt >= k.chopAngle
    ensures var r := Step(s, dt, k);
            && r.currentAngle == s.currentAngle
            && r.pauseTimer == k.pauseTime
            && (r.isReturning <==> s.currentAngle > 0.0)
            && OneHot(r)
  {
  }

  /** Returning above 0 takes one step off the angle and keeps the phase. */
  lemma ReturnAdvances(s: ChopState, dt: real, k: ChopSettings)
    requires OneHot(s) && s.isReturning && s.pauseTimer <= 0.0
    requires s.currentAngle - k.chopSpeed * dt > 0.0
    ensures Step(s, dt, k) == s.(currentAngle := s.currentAngle - k.chopSpeed * dt)
  {
  }

  /** Returning to 0 or below switches to chopping with the bottom pause. */
  lemma ReturnSwitch(s: ChopState, dt: real, k: ChopSettings)
    requires OneHot(s) && s.isReturning && s.pauseTimer <= 0.0
    requires s.currentAngle - k.chopSpeed * dt <= 0.0
    ensures Step(s, dt, k) == ChopState(true, false, s.currentAngle - k.chopSpeed * dt, k.pauseTime)
  {
  }

  /** The swing envelope for frames whose angular step is at most `d`: the
      phase is one-hot, a chopping stick is below the chop angle, a returning
      one above 0, and the angle never leaves [-d, chopAngle + d]. */
  predicate InSwing(s: ChopState, k: ChopSettings, d: real) {
    && OneHot(s)
    && (s.isChopping ==> s.currentAngle < k.chopAngle)
    && (s.isReturning ==> s.currentAngle > 0.0)
    && -d <= s.currentAngle <= k.chopAngle + d
  }

  lemma StepKeepsSwing(s: ChopState, dt: real, k: ChopSettings, d: real)
    requires k.chopAngle > 0.0 && 0.0 <= k.chopSpeed * dt <= d
    requires InSwing(s, k, d)
    ensures InSwing(Step(s, dt, k), k, d)
  {
    if s.pauseTimer <= 0.0 {
      var v := k.chopSpeed * dt;
      var up := if s.isChopping then ChopUp(s, dt, k) else s;
      assert s.isChopping ==> s.currentAngle <= up.currentAngle < k.chopAngle || up.currentAngle == s.currentAngle + v;
      if up.isReturning {
        assert ReturnDown(up, dt, k).currentAngle == up.currentAngle - v;
      }
    }
  }

  /** A new stick is in its swing envelope, and every run of frames whose
      angular steps stay within `[0, d]` keeps it there. */
  lemma {:induction false} RunKeepsSwing(s: ChopState, dts: seq<real>, k: ChopSettings, d: real)
    requires k.chopAngle > 0.0 && d >= 0.0
    requires forall i :: 0 <= i < |dts| ==> 0.0 <= k.chopSpeed * dts[i] <= d
    requires InSwing(s, k, d)
    ensures InSwing(Run(s, dts, k), k, d)
    decreases |dts|
  {
    if dts != [] {
      StepKeepsSwing(s, dts[0], k, d);
      assert forall i :: 0 <= i < |dts[1..]| ==> dts[1..][i] == dts[i + 1];
      RunKeepsSwing(Step(s, dts[0], k), dts[1..], k, d);
    }
  }

  lemma InitialInSwing(k: ChopSettings, d: real)
    requires k.chopAngle > 0.0 && d >= 0.0
    ensures InSwing(Initial, k, d)
  {
  }

  /** The `AutoCueChop` component's animation state. */
  class CueChopper {
    const chopAngle: real
    const chopSpeed: real
    const pauseTime: real

    var isChopping: bool
    var isReturning: bool
    var currentAngle: real
    var pauseTimer: real

    function Settings(): ChopSettings {
      ChopSettings(chopAngle, chopSpeed, pauseTime)
    }

    function State(): ChopState
      reads this
    {
      ChopState(isChopping, isReturning, currentAngle, pauseTimer)
    }

    constructor (k: ChopSettings)
      ensures Settings() == k && State() == Initial
    {
      chopAngle, chopSpeed, pauseTime := k.chopAngle, k.chopSpeed, k.pauseTime;
      isChopping, isReturning, currentAngle, pauseTimer := true, false, 0.0, 0.0;
    }

    /** `Update` for a frame of `dt` seconds. */
    method Update(dt: real)
      modifies this
      ensures State() == Step(old(State()), dt, Settings())
    {
      if pauseTimer > 0.0 {
        pauseTimer := pauseTimer - dt;
        return;
      }
      if isChopping {
        currentAngle := currentAngle + chopSpeed * dt;
        if currentAngle >= chopAngle {
          isChopping := false;
          isReturning := true;
          pauseTimer := pauseTime;
        }
      }
      if isReturning {
        currentAngle := currentAngle - chopSpeed * dt;
        if currentAngle <= 0.0 {
          isReturning := false;
          isChopping := true;
          pauseTimer := pauseTime;
        }
      }
    }
  }
}
